/**
 * The card of src/components/WordCard.tsx: one flip flag toggled by a click,
 * and the fields each face shows. The App renders the card without a `key`,
 * so a new `word` prop reaches the same component and the flag carries over.
 */
module WordCard {
  import opened Wrappers
  import opened App

  /** The fields a face of the card shows. */
  datatype Face =
    | Front(term: string)
    | Back(meaning: string, example: Option<string>)

  /** The front shows the term. */
  function FrontFace(w: Word): (f: Face)
    ensures f.Front? && f.term == w.word
  {
    Front(w.word)
  }

  /** The back shows the meaning, and the example only when it is present and non-empty. */
  function BackFace(w: Word): (f: Face)
    ensures f.Back? && f.meaning == w.meaning
    ensures f.example.Some? <==> w.example.Some? && w.example.value != ""
    ensures f.example.Some? ==> f.example == w.example
  {
    match w.example
    case Some(e) => if e != "" then Back(w.meaning, Some(e)) else Back(w.meaning, None)
    case None => Back(w.meaning, None)
  }

  /** The `word` prop and `isFlipped` state of one mounted card. */
  class CardState {
    var word: Word
    var isFlipped: bool

    constructor (word: Word)
      ensures this.word == word && !isFlipped
    {
      this.word := word;
      isFlipped := false;
    }

    method HandleClick()
      modifies this
      ensures isFlipped == !old(isFlipped) && word == old(word)
    {
      isFlipped := !isFlipped;
    }

    /** A re-render with a new `word` prop: nothing resets the flag. */
    method ReceiveWord(w: Word)
      modifies this
      ensures word == w && isFlipped == old(isFlipped)
    {
      word := w;
    }

    /** The face turned towards the user. */
    function Visible(): (f: Face)
      reads this
      ensures f.Back? <==> isFlipped
      ensures f.Front? ==> f == FrontFace(word)
      ensures f.Back? ==> f == BackFace(word)
    {
      if isFlipped then BackFace(word) else FrontFace(word)
    }
  }

  /** Two clicks restore the face that was showing. */
  method ClickTwice(card: CardState)
    modifies card
    ensures card.isFlipped == old(card.isFlipped) && card.word == old(card.word)
    ensures card.Visible() == old(card.Visible())
  {
    card.HandleClick();
    card.HandleClick();
  }

  /**
   * Pressing next while a card is mounted: the App moves its cursor and passes
   * the new entry to the same card, which keeps showing the face it showed.
   */
  method NextKeepsFace(app: AppState, card: CardState)
    requires app.Valid() && |app.words| > 0 && card.word == app.words[app.currentIndex]
    modifies app, card
    ensures app.Valid() && app.words == old(app.words)
    ensures app.currentIndex == NextIndex(old(app.currentIndex), |app.words|)
    ensures card.word == app.words[app.currentIndex]
    ensures card.isFlipped == old(card.isFlipped)
  {
    app.HandleNext();
    card.ReceiveWord(app.words[app.currentIndex]);
  }

  /** The same for previous. */
  method PrevKeepsFace(app: AppState, card: CardState)
    requires app.Valid() && |app.words| > 0 && card.word == app.words[app.currentIndex]
    modifies app, card
    ensures app.Valid() && app.words == old(app.words)
    ensures app.currentIndex == PrevIndex(old(app.currentIndex), |app.words|)
    ensures card.word == app.words[app.currentIndex]
    ensures card.isFlipped == old(card.isFlipped)
  {
    app.HandlePrev();
    card.ReceiveWord(app.words[app.currentIndex]);
  }
}
