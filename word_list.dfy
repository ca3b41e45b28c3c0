/**
 * The list view of src/components/WordList.tsx: the add form's input cells, the
 * validation and normalisation of a submission, the toggle that opens and
 * closes the form, and the delete button on each entry.
 */
module WordList {
  import opened Wrappers
  import opened JsBuiltins
  import opened App

  /**
   * What a submission hands to `onAddWord`, or None when the trimmed term or
   * the trimmed meaning is empty. An example that trims to nothing becomes
   * undefined.
   */
  function Normalise(word: string, meaning: string, example: string): (d: Option<WordDraft>)
    ensures d.Some? <==> !AllWhiteSpace(word) && !AllWhiteSpace(meaning)
    ensures d.Some? ==> d.value.word == Trim(word) && d.value.meaning == Trim(meaning)
    ensures d.Some? ==> (d.value.example.None? <==> AllWhiteSpace(example))
    ensures d.Some? && d.value.example.Some? ==> d.value.example.value == Trim(example)
  {
    if Trim(word) != "" && Trim(meaning) != "" then
      Some(WordDraft(Trim(word), Trim(meaning), if Trim(example) != "" then Some(Trim(example)) else None))
    else
      None
  }

  /** A trimmed text with no white space at either end and, when `nonEmpty`, at least one character. */
  predicate Clean(s: string, nonEmpty: bool) {
    (nonEmpty ==> s != []) && (s == [] || (!IsWhiteSpace(s[0]) && !IsWhiteSpace(s[|s| - 1])))
  }

  /** Every submitted draft has a non-empty, trimmed term and meaning, and a non-empty, trimmed example if any. */
  lemma SubmittedDraftIsClean(word: string, meaning: string, example: string)
    requires Normalise(word, meaning, example).Some?
    ensures var d := Normalise(word, meaning, example).value;
      Clean(d.word, true) && Clean(d.meaning, true)
      && (d.example.Some? ==> Clean(d.example.value, true))
  {
  }

  /** The text an example field holds for a draft's example: undefined is the empty field. */
  function ExampleText(e: Option<string>): string {
    if e.Some? then e.value else ""
  }

  /** Typing a submitted draft back into the form submits the same draft. */
  lemma NormaliseFixpoint(word: string, meaning: string, example: string)
    requires Normalise(word, meaning, example).Some?
    ensures var d := Normalise(word, meaning, example).value;
      Normalise(d.word, d.meaning, ExampleText(d.example)) == Some(d)
  {
    TrimIdempotent(word);
    TrimIdempotent(meaning);
    TrimIdempotent(example);
  }

  /** The `showAddForm`, `newWord`, `newMeaning` and `newExample` state cells. */
  class FormState {
    var showAddForm: bool
    var newWord: string
    var newMeaning: string
    var newExample: string

    constructor ()
      ensures !showAddForm && newWord == "" && newMeaning == "" && newExample == ""
    {
      showAddForm := false;
      newWord, newMeaning, newExample := "", "", "";
    }

    /** The header button. */
    method ToggleAddForm()
      modifies this
      ensures showAddForm == !old(showAddForm)
      ensures newWord == old(newWord) && newMeaning == old(newMeaning) && newExample == old(newExample)
    {
      showAddForm := !showAddForm;
    }

    /** After a submission: the fields are emptied and the form closes. */
    method Reset()
      modifies this
      ensures newWord == "" && newMeaning == "" && newExample == "" && !showAddForm
    {
      newWord, newMeaning, newExample, showAddForm := "", "", "", false;
    }

    /** `handleSubmit`: returns what it passes to `onAddWord`, if anything. */
    method HandleSubmit() returns (submitted: Option<WordDraft>)
      modifies this
      ensures submitted == Normalise(old(newWord), old(newMeaning), old(newExample))
      ensures submitted.Some? ==> newWord == "" && newMeaning == "" && newExample == "" && !showAddForm
      ensures submitted.None? ==>
                (newWord == old(newWord) && newMeaning == old(newMeaning)
                 && newExample == old(newExample) && showAddForm == old(showAddForm))
    {
      submitted := Normalise(newWord, newMeaning, newExample);
      if submitted.Some? {
        Reset();
      }
    }
  }

  /** A submit wired to the App's `addWord`: the deck grows by one entry exactly when the form submits. */
  method SubmitToDeck(form: FormState, app: AppState)
    requires app.Valid()
    modifies form, app
    ensures app.Valid() && app.currentIndex == old(app.currentIndex)
    ensures var d := Normalise(old(form.newWord), old(form.newMeaning), old(form.newExample));
      if d.Some? then
        form.newWord == "" && form.newMeaning == "" && form.newExample == "" && !form.showAddForm
      else
        form.newWord == old(form.newWord) && form.newMeaning == old(form.newMeaning)
        && form.newExample == old(form.newExample) && form.showAddForm == old(form.showAddForm)
    ensures var d := Normalise(old(form.newWord), old(form.newMeaning), old(form.newExample));
      app.words == if d.Some? then old(app.words) + [WithId(d.value, NextId(old(app.words)))]
                   else old(app.words)
  {
    ghost var d := Normalise(form.newWord, form.newMeaning, form.newExample);
    var submitted := form.HandleSubmit();
    assert submitted == d;
    if submitted.Some? {
      app.AddWord(submitted.value);
    }
  }

  /** The delete button of entry `k` passes that entry's own id, which removes exactly that entry. */
  method ClickDelete(app: AppState, k: nat)
    requires app.Valid() && k < |app.words|
    modifies app
    ensures app.Valid()
    ensures app.words == old(app.words[..k] + app.words[k + 1..])
    ensures app.currentIndex == CursorAfterDelete(old(app.currentIndex), |old(app.words)|)
  {
    WithoutAt(app.words, k);
    app.DeleteWord(app.words[k].id);
  }
}
