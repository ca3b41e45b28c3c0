/**
 * The flashcard deck of src/App.tsx: the list of words, the cursor into it,
 * navigation with wrap-around, adding and deleting entries, and which screen
 * the card view shows. Each handler is one atomic step over the state as it was
 * before the call.
 */
module App {
  import opened Wrappers
  import opened JsBuiltins

  /** One flashcard entry; `example` is None where the source leaves it undefined. */
  datatype Word = Word(id: int, word: string, meaning: string, example: Option<string>)

  /** An entry as the add form hands it over, before it has an id. */
  datatype WordDraft = WordDraft(word: string, meaning: string, example: Option<string>)

  /** The eight entries the deck starts with. */
  const DefaultWords: seq<Word> := [
    Word(1, "Serendipity", "우연한 발견", Some("Finding this cafe was pure serendipity.")),
    Word(2, "Ephemeral", "일시적인, 덧없는", Some("The beauty of cherry blossoms is ephemeral.")),
    Word(3, "Ubiquitous", "어디에나 있는, 보편적인", Some("Smartphones have become ubiquitous.")),
    Word(4, "Eloquent", "웅변적인, 설득력 있는", Some("She gave an eloquent speech.")),
    Word(5, "Resilient", "탄력 있는, 회복력 있는", Some("Children are remarkably resilient.")),
    Word(6, "Perseverance", "인내, 끈기", Some("Success comes through perseverance.")),
    Word(7, "Authentic", "진정한, 진짜의", Some("This is an authentic Italian restaurant.")),
    Word(8, "Innovative", "혁신적인", Some("The company is known for innovative products."))
  ]

  ghost predicate UniqueIds(ws: seq<Word>) {
    forall i, j :: 0 <= i < j < |ws| ==> ws[i].id != ws[j].id
  }

  /** The cursor indexes an entry, or is 0 when there is none. */
  predicate CursorInRange(cursor: int, n: int) {
    0 <= cursor && (cursor < n || cursor == 0)
  }

  /** What every handler keeps: ids are unique and the cursor is in range. */
  ghost predicate DeckOk(ws: seq<Word>, cursor: int) {
    UniqueIds(ws) && CursorInRange(cursor, |ws|)
  }

  /** The initial deck numbers its entries 1 to 8 in order, so its ids are unique. */
  lemma DefaultDeckOk()
    ensures DeckOk(DefaultWords, 0)
    ensures forall i :: 0 <= i < |DefaultWords| ==> DefaultWords[i].id == i + 1
  {
    assert forall i :: 0 <= i < |DefaultWords| ==> DefaultWords[i].id == i + 1;
  }

  // ---------------------------------------------------------------------------
  // Navigation

  /** The cursor after `handleNext` on a deck of `n` entries. */
  function NextIndex(i: nat, n: nat): (r: nat)
    requires n > 0
    ensures r < n
    ensures i < n ==> r == (if i == n - 1 then 0 else i + 1)
  {
    (i + 1) % n
  }

  /** The cursor after `handlePrev` on a deck of `n` entries. */
  function PrevIndex(i: nat, n: nat): (r: nat)
    requires n > 0
    ensures r < n
    ensures i < n ==> r == (if i == 0 then n - 1 else i - 1)
  {
    if 0 < i < n then
      ModUnique(i - 1 + n, n, 1, i - 1);
      (i - 1 + n) % n
    else
      (i - 1 + n) % n
  }

  /** Next and previous undo each other. */
  lemma NextPrevInverse(i: nat, n: nat)
    requires i < n
    ensures PrevIndex(NextIndex(i, n), n) == i
    ensures NextIndex(PrevIndex(i, n), n) == i
  {
  }

  /** The cursor after `k` presses of next. */
  function NextTimes(i: nat, n: nat, k: nat): (r: nat)
    requires i < n
    ensures r < n
  {
    if k == 0 then i else NextIndex(NextTimes(i, n, k - 1), n)
  }

  /** The cursor after `k` presses of previous. */
  function PrevTimes(i: nat, n: nat, k: nat): (r: nat)
    requires i < n
    ensures r < n
  {
    if k == 0 then i else PrevIndex(PrevTimes(i, n, k - 1), n)
  }

  lemma {:induction false} NextTimesAdd(i: nat, n: nat, a: nat, b: nat)
    requires i < n
    ensures NextTimes(i, n, a + b) == NextTimes(NextTimes(i, n, a), n, b)
  {
    if b > 0 {
      NextTimesAdd(i, n, a, b - 1);
    }
  }

  lemma {:induction false} PrevTimesAdd(i: nat, n: nat, a: nat, b: nat)
    requires i < n
    ensures PrevTimes(i, n, a + b) == PrevTimes(PrevTimes(i, n, a), n, b)
  {
    if b > 0 {
      PrevTimesAdd(i, n, a, b - 1);
    }
  }

  /** Pressing next `k` times from `i` counts up without wrapping while it stays below `n`. */
  lemma {:induction false} NextTimesClimbs(i: nat, n: nat, k: nat)
    requires i + k < n
    ensures NextTimes(i, n, k) == i + k
  {
    if k > 0 {
      NextTimesClimbs(i, n, k - 1);
    }
  }

  /** Pressing next `n` times on a deck of `n` entries comes back to the start. */
  lemma NextCycle(i: nat, n: nat)
    requires i < n
    ensures NextTimes(i, n, n) == i
  {
    NextTimesClimbs(i, n, n - 1 - i);
    assert NextTimes(i, n, n - i) == 0;
    NextTimesAdd(i, n, n - i, i);
    NextTimesClimbs(0, n, i);
  }

  /** `k` presses of previous undo `k` presses of next. */
  lemma {:induction false} PrevTimesUndoesNextTimes(i: nat, n: nat, k: nat)
    requires i < n
    ensures PrevTimes(NextTimes(i, n, k), n, k) == i
  {
    if k > 0 {
      var j := NextTimes(i, n, k - 1);
      PrevTimesAdd(NextIndex(j, n), n, 1, k - 1);
      NextPrevInverse(j, n);
      PrevTimesUndoesNextTimes(i, n, k - 1);
    }
  }

  /** Pressing previous `n` times on a deck of `n` entries comes back to the start. */
  lemma PrevCycle(i: nat, n: nat)
    requires i < n
    ensures PrevTimes(i, n, n) == i
  {
    NextCycle(i, n);
    PrevTimesUndoesNextTimes(i, n, n);
  }

  /** On a deck of one entry, next and previous stay in place. */
  lemma SingleEntryNavigation(k: nat)
    ensures NextTimes(0, 1, k) == 0 && PrevTimes(0, 1, k) == 0
  {
  }

  // ---------------------------------------------------------------------------
  // Adding

  /** `Math.max(...ids, 0)`. */
  function MaxId(ws: seq<Word>): (m: int)
    ensures m >= 0
    ensures forall w :: w in ws ==> w.id <= m
    ensures m == 0 || exists w :: w in ws && w.id == m
  {
    if ws == [] then 0
    else
      var rest := MaxId(ws[1..]);
      assert forall w :: w in ws[1..] ==> w in ws;
      if ws[0].id > rest then ws[0].id else rest
  }

  /** The id `addWord` gives a new entry: above every id in the deck, and 1 on an empty deck. */
  function NextId(ws: seq<Word>): (r: int)
    ensures r >= 1
    ensures forall w :: w in ws ==> w.id < r
    ensures ws == [] ==> r == 1
  {
    MaxId(ws) + 1
  }

  function WithId(d: WordDraft, id: int): Word {
    Word(id, d.word, d.meaning, d.example)
  }

  /** Appending an entry under NextId keeps the ids unique. */
  lemma AddKeepsIdsUnique(ws: seq<Word>, d: WordDraft)
    requires UniqueIds(ws)
    ensures UniqueIds(ws + [WithId(d, NextId(ws))])
  {
    var ws' := ws + [WithId(d, NextId(ws))];
    forall i, j | 0 <= i < j < |ws'|
      ensures ws'[i].id != ws'[j].id
    {
      if j == |ws| {
        assert ws'[i] in ws;
      }
    }
  }

  // ---------------------------------------------------------------------------
  // Deleting

  /** `words.filter(word => word.id !== id)`. */
  function Without(ws: seq<Word>, id: int): (r: seq<Word>)
    ensures |r| <= |ws|
  {
    if ws == [] then []
    else if ws[0].id != id then [ws[0]] + Without(ws[1..], id)
    else Without(ws[1..], id)
  }

  /** The filter keeps exactly the entries whose id differs from `id`. */
  lemma {:induction false} WithoutMembers(ws: seq<Word>, id: int)
    ensures forall w :: w in Without(ws, id) <==> w in ws && w.id != id
  {
    if ws != [] {
      WithoutMembers(ws[1..], id);
      assert ws == [ws[0]] + ws[1..];
    }
  }

  /** Filtering works piecewise: what is kept stays in its original order. */
  lemma {:induction false} WithoutConcat(a: seq<Word>, b: seq<Word>, id: int)
    ensures Without(a + b, id) == Without(a, id) + Without(b, id)
  {
    if a == [] {
      assert a + b == b;
    } else {
      assert (a + b)[1..] == a[1..] + b;
      WithoutConcat(a[1..], b, id);
    }
  }

  /** Deleting an id that no entry has leaves the list as it is. */
  lemma {:induction false} WithoutAbsent(ws: seq<Word>, id: int)
    requires forall i :: 0 <= i < |ws| ==> ws[i].id != id
    ensures Without(ws, id) == ws
  {
    if ws != [] {
      WithoutAbsent(ws[1..], id);
    }
  }

  /** Deleting the id of entry `k`, which no other entry carries, removes exactly that entry. */
  lemma {:induction false} WithoutOnlyCarrier(ws: seq<Word>, k: nat)
    requires k < |ws| && forall i :: 0 <= i < |ws| && i != k ==> ws[i].id != ws[k].id
    ensures Without(ws, ws[k].id) == ws[..k] + ws[k + 1..]
  {
    var id := ws[k].id;
    if k == 0 {
      assert forall i :: 0 <= i < |ws| - 1 ==> ws[1..][i] == ws[i + 1];
      WithoutAbsent(ws[1..], id);
    } else {
      var tail := ws[1..];
      assert tail[k - 1] == ws[k];
      assert forall i :: 0 <= i < |tail| ==> tail[i] == ws[i + 1];
      WithoutOnlyCarrier(tail, k - 1);
      assert ws[..k] == [ws[0]] + tail[..k - 1];
      assert ws[k + 1..] == tail[k..];
    }
  }

  /** With unique ids, deleting the id of entry `k` removes exactly that entry. */
  lemma WithoutAt(ws: seq<Word>, k: nat)
    requires UniqueIds(ws) && k < |ws|
    ensures Without(ws, ws[k].id) == ws[..k] + ws[k + 1..]
  {
    assert forall i :: 0 <= i < |ws| && i != k ==> ws[i].id != ws[k].id by {
      forall i | 0 <= i < |ws| && i != k
        ensures ws[i].id != ws[k].id
      {
        if i < k {
          assert ws[i].id != ws[k].id;
        } else {
          assert ws[k].id != ws[i].id;
        }
      }
    }
    WithoutOnlyCarrier(ws, k);
  }

  /** Deleting keeps the remaining ids unique. */
  lemma {:induction false} WithoutKeepsIdsUnique(ws: seq<Word>, id: int)
    requires UniqueIds(ws)
    ensures UniqueIds(Without(ws, id))
  {
    if ws != [] {
      var rest := Without(ws[1..], id);
      WithoutKeepsIdsUnique(ws[1..], id);
      if ws[0].id != id {
        var r := [ws[0]] + rest;
        WithoutMembers(ws[1..], id);
        forall i, j | 0 <= i < j < |r|
          ensures r[i].id != r[j].id
        {
          if i == 0 {
            assert rest[j - 1] in ws[1..];
            var m :| 0 <= m < |ws| - 1 && ws[1..][m] == rest[j - 1];
            assert ws[m + 1] == r[j];
          } else {
            assert r[i] == rest[i - 1] && r[j] == rest[j - 1];
          }
        }
      }
    }
  }

  /** The cursor after `deleteWord` on a deck that had `oldLen` entries. */
  function CursorAfterDelete(cursor: int, oldLen: int): (r: int)
    ensures 0 <= cursor < oldLen ==> 0 <= r && (r < oldLen - 1 || r == 0)
    ensures cursor < oldLen - 1 ==> r == cursor
  {
    if cursor >= oldLen - 1 then (if 0 > oldLen - 2 then 0 else oldLen - 2) else cursor
  }

  /**
   * `deleteWord` keeps ids unique and the cursor in range, whether the id is
   * present or not.
   */
  lemma DeleteKeepsDeckOk(ws: seq<Word>, cursor: int, id: int)
    requires DeckOk(ws, cursor)
    ensures DeckOk(Without(ws, id), CursorAfterDelete(cursor, |ws|))
  {
    WithoutKeepsIdsUnique(ws, id);
    if k :| 0 <= k < |ws| && ws[k].id == id {
      WithoutAt(ws, k);
    } else {
      WithoutAbsent(ws, id);
    }
  }

  /**
   * Which entry the card shows after deleting entry `k` of a deck with at least
   * two entries. Deleting an entry before the cursor while the cursor is not on
   * the last entry moves the view to the following entry, since the cursor
   * stays where it was.
   */
  lemma ShownAfterDelete(ws: seq<Word>, cursor: nat, k: nat)
    requires UniqueIds(ws) && 1 < |ws| && cursor < |ws| && k < |ws|
    ensures var ws', c' := Without(ws, ws[k].id), CursorAfterDelete(cursor, |ws|);
      0 <= c' < |ws'| &&
      ws'[c'] == if cursor == |ws| - 1 then (if k == cursor then ws[cursor - 1] else ws[cursor])
                 else if k <= cursor then ws[cursor + 1]
                 else ws[cursor]
  {
    WithoutAt(ws, k);
    ShownAfterRemoval(ws, cursor, k);
  }

  /** ShownAfterDelete on the list with entry `k` taken out. */
  lemma ShownAfterRemoval(ws: seq<Word>, cursor: nat, k: nat)
    requires 1 < |ws| && cursor < |ws| && k < |ws|
    ensures var ws', c' := ws[..k] + ws[k + 1..], CursorAfterDelete(cursor, |ws|);
      0 <= c' < |ws'| &&
      ws'[c'] == if cursor == |ws| - 1 then (if k == cursor then ws[cursor - 1] else ws[cursor])
                 else if k <= cursor then ws[cursor + 1]
                 else ws[cursor]
  {
    var ws' := ws[..k] + ws[k + 1..];
    var c' := CursorAfterDelete(cursor, |ws|);
    assert c' == if cursor == |ws| - 1 then |ws| - 2 else cursor;
    if c' < k {
      assert ws'[c'] == ws[c'];
    } else {
      assert ws'[c'] == ws[c' + 1];
    }
  }

  /** Deleting a missing id still moves a cursor that sits on the last entry back by one. */
  lemma DeleteMissingIdMovesCursor(ws: seq<Word>, id: int)
    requires |ws| >= 2 && forall i :: 0 <= i < |ws| ==> ws[i].id != id
    ensures Without(ws, id) == ws
    ensures CursorAfterDelete(|ws| - 1, |ws|) == |ws| - 2
  {
    WithoutAbsent(ws, id);
  }

  // ---------------------------------------------------------------------------
  // The card view

  /** What the card view shows: the empty message, or the card, its counter and the arrows. */
  datatype Screen =
    | EmptyDeck
    | CardView(shown: Word, position: int, total: int, arrowsEnabled: bool)

  /** The card view for a deck and its cursor. */
  function Render(ws: seq<Word>, cursor: int): (s: Screen)
    requires CursorInRange(cursor, |ws|)
    ensures s.CardView? <==> |ws| > 0
    ensures s.CardView? ==> 1 <= s.position <= s.total == |ws| && s.shown == ws[s.position - 1]
    ensures s.CardView? ==> s.position == cursor + 1
    ensures s.CardView? ==> (s.arrowsEnabled <==> |ws| > 1)
    ensures s.CardView? && s.arrowsEnabled ==> |ws| > 0
  {
    if |ws| > 0 then CardView(ws[cursor], cursor + 1, |ws|, !(|ws| <= 1)) else EmptyDeck
  }

  // ---------------------------------------------------------------------------
  // The component's state

  /** The `words` and `currentIndex` state cells of the App component. */
  class AppState {
    var words: seq<Word>
    var currentIndex: int

    ghost predicate Valid()
      reads this
    {
      DeckOk(words, currentIndex)
    }

    constructor ()
      ensures Valid()
      ensures words == DefaultWords && currentIndex == 0
    {
      DefaultDeckOk();
      words := DefaultWords;
      currentIndex := 0;
    }

    /** The arrows that call it exist only on a non-empty deck. */
    method HandleNext()
      requires Valid() && |words| > 0
      modifies this
      ensures Valid() && words == old(words)
      ensures currentIndex == NextIndex(old(currentIndex), |words|)
    {
      currentIndex := (currentIndex + 1) % |words|;
    }

    method HandlePrev()
      requires Valid() && |words| > 0
      modifies this
      ensures Valid() && words == old(words)
      ensures currentIndex == PrevIndex(old(currentIndex), |words|)
    {
      currentIndex := (currentIndex - 1 + |words|) % |words|;
    }

    method HandleSwipeLeft()
      requires Valid() && |words| > 0
      modifies this
      ensures Valid() && words == old(words)
      ensures currentIndex == NextIndex(old(currentIndex), |words|)
    {
      HandleNext();
    }

    method HandleSwipeRight()
      requires Valid() && |words| > 0
      modifies this
      ensures Valid() && words == old(words)
      ensures currentIndex == PrevIndex(old(currentIndex), |words|)
    {
      HandlePrev();
    }

    method AddWord(d: WordDraft)
      requires Valid()
      modifies this
      ensures Valid()
      ensures words == old(words) + [WithId(d, NextId(old(words)))]
      ensures currentIndex == old(currentIndex)
    {
      AddKeepsIdsUnique(words, d);
      words := words + [WithId(d, MaxId(words) + 1)];
    }

    method DeleteWord(id: int)
      requires Valid()
      modifies this
      ensures Valid()
      ensures words == Without(old(words), id)
      ensures currentIndex == CursorAfterDelete(old(currentIndex), |old(words)|)
    {
      DeleteKeepsDeckOk(words, currentIndex, id);
      var oldLen := |words|;
      words := Without(words, id);
      if currentIndex >= oldLen - 1 {
        currentIndex := if 0 > oldLen - 2 then 0 else oldLen - 2;
      }
    }

    function View(): (s: Screen)
      requires Valid()
      reads this
      ensures s.CardView? <==> |words| > 0
      ensures s.CardView? ==> s.shown == words[currentIndex] && s.position == currentIndex + 1
    {
      Render(words, currentIndex)
    }
  }
}
