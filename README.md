# Flashcard deck and name-fortune page, modelled in Dafny

This project models the state logic of a small vocabulary flashcard app and of a
separate name-fortune page.

- **App** (`src/App.tsx`). The deck holds a list of words and a cursor.
  `handleNext` and `handlePrev` move the cursor with wrap-around. The swipe
  handlers are aliases of next and previous. `addWord` appends an entry under the
  id `max(ids, 0) + 1`. `deleteWord` filters the entry out and applies the
  cursor clamp exactly as written. The view shows either the empty-deck message
  or the card with its counter and arrows.
- **WordCard** (`src/components/WordCard.tsx`). One `isFlipped` flag, toggled by
  a click, and the fields each face shows. Because the App renders the card
  without a `key`, a new `word` prop reaches the same component and the flag
  carries over when the user navigates.
- **WordList** (`src/components/WordList.tsx`). The add form's state cells, the
  trim-and-validate normalisation of a submission, the button that opens and
  closes the form, and the delete button that passes its entry's own id.
- **NameFortune** (`script.js`). The module-level list of chosen hanja, with
  de-duplicated selection and removal by `splice`. `getFortune` has a guard,
  computes table indices from the birth date, and composes the reading.
- **JsBuiltins** states the JavaScript built-ins this code relies on:
  `String.prototype.trim`, `Array.prototype.join`,
  `Array.prototype.splice(start, 1)` and the truncating `%`.
- **Wrappers** holds `Option`, which stands for `undefined`.

State that the source updates in place is a class whose methods carry
`modifies` clauses: the App's state cells, the card's flag, the form's cells and
the page's list. Each method's postcondition ties the new state to a pure
function of the old state. Lemmas about those functions carry the properties:
the cursor stays in range, next and previous are cyclic and undo each other,
ids stay unique, deletion keeps order, submitted drafts are trimmed, the chosen
characters stay distinct, and the table indices stay in range.

Three behaviours of the code are worth stating plainly:

- Flipping does not reset to the front when the cursor changes. Nothing resets
  `isFlipped`, and the card has no `key`.
- Swipes are not suppressed while the card is flipped. `WordCard` never calls
  `onSwipeLeft` or `onSwipeRight`, so no swipe is recognised at all.
- The cursor clamp after a delete fires only when the cursor is at or past the
  old last index. Deleting an entry before the cursor therefore changes the
  entry on show, unless the cursor was on the last entry (`App.ShownAfterDelete`).
  Deleting an id that no entry has still moves a cursor that sits on the last
  entry (`App.DeleteMissingIdMovesCursor`).

Strings are sequences of Unicode scalar values. JavaScript numbers are
unbounded integers here: ids and dates never reach the range where
floating point loses precision.

## Model

| member | source | states |
|---|---|---|
| App.NextIndex | src/App.tsx:28-30 | on a non-empty deck the next cursor lies in [0, n); from index i < n it is i + 1, or 0 from the last entry |
| App.PrevIndex | src/App.tsx:32-34 | on a non-empty deck the previous cursor lies in [0, n); from index i < n it is i - 1, or n - 1 from the first entry |
| App.NextPrevInverse | src/App.tsx:28-34 | previous undoes next and next undoes previous |
| App.NextTimes | src/App.tsx:29 | any number of next presses keeps the cursor in [0, n) |
| App.PrevTimes | src/App.tsx:33 | any number of previous presses keeps the cursor in [0, n) |
| App.NextTimesAdd | src/App.tsx:29 | a + b next presses are a presses followed by b presses |
| App.PrevTimesAdd | src/App.tsx:33 | a + b previous presses are a presses followed by b presses |
| App.NextTimesClimbs | src/App.tsx:29 | next presses count up by one each while they stay below n |
| App.NextCycle | src/App.tsx:28-30 | n next presses on a deck of n entries return the cursor to its start |
| App.PrevTimesUndoesNextTimes | src/App.tsx:28-34 | k previous presses undo k next presses, for every k |
| App.PrevCycle | src/App.tsx:32-34 | n previous presses on a deck of n entries return the cursor to its start |
| App.SingleEntryNavigation | src/App.tsx:29-33 | on a one-entry deck next and previous stay on entry 0 |
| App.MaxId | src/App.tsx:52 | `Math.max(...ids, 0)` is at least 0, at least every id, and is 0 or one of the ids |
| App.NextId | src/App.tsx:52 | the new id is at least 1, above every existing id, and 1 on an empty deck |
| App.AddKeepsIdsUnique | src/App.tsx:49-55 | appending under the new id keeps all ids pairwise distinct |
| App.Without | src/App.tsx:58 | filtering never lengthens the list |
| App.WithoutMembers | src/App.tsx:58 | an entry is in the filtered list iff it was in the list and its id differs from the argument |
| App.WithoutConcat | src/App.tsx:58 | filtering distributes over concatenation, so kept entries stay in their original order |
| App.WithoutAbsent | src/App.tsx:58 | deleting an id no entry has leaves the list unchanged |
| App.WithoutOnlyCarrier | src/App.tsx:58 | when no other entry carries entry k's id, deleting that id yields the list minus entry k, the rest in order |
| App.WithoutAt | src/App.tsx:58 | with unique ids, deleting entry k's id yields the list minus entry k, the rest in order |
| App.WithoutKeepsIdsUnique | src/App.tsx:58 | deleting keeps the remaining ids pairwise distinct |
| App.CursorAfterDelete | src/App.tsx:59-61 | a cursor inside the old deck lands below the new last index oldLen - 1, or on 0; a cursor before the old last entry is left where it is |
| App.DeleteKeepsDeckOk | src/App.tsx:57-62 | from unique ids and an in-range cursor, delete keeps ids unique and the cursor below the new length, or 0 on an empty deck, whether or not the id is present |
| App.ShownAfterDelete | src/App.tsx:57-62 | which entry is on show after deleting entry k, in every position of k relative to the cursor, including the shift when an earlier entry is deleted |
| App.DeleteMissingIdMovesCursor | src/App.tsx:59-61 | deleting a missing id leaves the list but moves a cursor on the last entry back by one |
| App.Render | src/App.tsx:84-105 | the card and counter are shown iff the deck is non-empty; the card shows the entry under the cursor and the counter reads cursor + 1 of the length; the arrows are enabled iff there are two or more entries, so an enabled arrow never divides by 0 |
| App.DefaultDeckOk | src/App.tsx:12-21 | the default entries carry ids 1 to 8 in order, so the initial deck has unique ids and cursor 0 is in range |
| App.AppState.constructor | src/App.tsx:24-25 | the deck starts with the eight default words, unique ids and the cursor at 0 |
| App.AppState.HandleNext | src/App.tsx:28-30 | the cursor becomes NextIndex of the old cursor; the words do not change; the deck invariant holds |
| App.AppState.HandlePrev | src/App.tsx:32-34 | the cursor becomes PrevIndex of the old cursor; the words do not change; the deck invariant holds |
| App.AppState.HandleSwipeLeft | src/App.tsx:36-38 | a left swipe has exactly the effect of next |
| App.AppState.HandleSwipeRight | src/App.tsx:40-42 | a right swipe has exactly the effect of previous |
| App.AppState.AddWord | src/App.tsx:49-55 | the draft is appended under NextId of the old words; earlier entries and the cursor are unchanged; ids stay unique |
| App.AppState.DeleteWord | src/App.tsx:57-62 | the words become the filtered list and the cursor follows CursorAfterDelete; ids stay unique and the cursor in range |
| App.AppState.View | src/App.tsx:84-91 | the card shows the entry under the cursor, numbered cursor + 1, whenever the deck is non-empty |
| WordCard.FrontFace | src/components/WordCard.tsx:27 | the front face shows the term |
| WordCard.BackFace | src/components/WordCard.tsx:39-48 | the back face shows the meaning, and the example exactly when it is present and non-empty |
| WordCard.CardState.constructor | src/components/WordCard.tsx:9 | a mounted card starts unflipped |
| WordCard.CardState.HandleClick | src/components/WordCard.tsx:11-13 | a click negates the flag and keeps the word |
| WordCard.CardState.ReceiveWord | src/components/WordCard.tsx:8-9 | a new word prop leaves the flag as it was |
| WordCard.CardState.Visible | src/components/WordCard.tsx:17-48 | the back face is turned up iff the card is flipped; the face turned up is FrontFace or BackFace of the current word |
| WordCard.ClickTwice | src/components/WordCard.tsx:11-13 | two clicks restore the flag and the visible face |
| WordCard.NextKeepsFace | src/App.tsx:86-91 | after next, the same card shows the new entry under the cursor with its flag unchanged |
| WordCard.PrevKeepsFace | src/App.tsx:86-91 | after previous, the same card shows the new entry under the cursor with its flag unchanged |
| WordList.Normalise | src/components/WordList.tsx:18-22 | a draft is produced iff neither the term nor the meaning is all white space; term and meaning are trimmed; the example is absent iff it is all white space, and trimmed otherwise |
| WordList.SubmittedDraftIsClean | src/components/WordList.tsx:18-22 | a submitted term and meaning are non-empty with no white space at either end; so is a present example |
| WordList.NormaliseFixpoint | src/components/WordList.tsx:20-22 | typing a submitted draft back into the form submits the same draft |
| WordList.FormState.constructor | src/components/WordList.tsx:11-14 | the form starts closed with three empty fields |
| WordList.FormState.ToggleAddForm | src/components/WordList.tsx:39 | the header button negates showAddForm and keeps the fields |
| WordList.FormState.HandleSubmit | src/components/WordList.tsx:16-29 | returns Normalise of the fields; on success clears all fields and closes the form, otherwise changes nothing |
| WordList.FormState.Reset | src/components/WordList.tsx:24-27 | after a submission the three fields are empty and the form is closed |
| WordList.SubmitToDeck | src/components/WordList.tsx:16-29 | the deck grows by exactly the normalised draft under a fresh id when the form submits, and is unchanged otherwise; on a submit the fields are cleared and the form closes, otherwise the form is unchanged; the cursor stays |
| WordList.ClickDelete | src/components/WordList.tsx:123 | the delete button of entry k removes exactly entry k, keeps the rest in order, and clamps the cursor as deleteWord does |
| JsBuiltins.TrimStart | src/components/WordList.tsx:18 | the result is a suffix of the input, all white space before it, and starts with a non-space character when non-empty |
| JsBuiltins.TrimEnd | src/components/WordList.tsx:18 | the result is a prefix of the input, all white space after it, and ends with a non-space character when non-empty |
| JsBuiltins.Trim | src/components/WordList.tsx:18-22 | the input is a white-space prefix, then the trimmed text, then a white-space suffix; the trimmed text has no white space at either end, and is empty iff the input is all white space |
| JsBuiltins.TrimIdempotent | src/components/WordList.tsx:20-22 | trimming twice equals trimming once |
| JsBuiltins.Join | script.js:134 | joining no elements gives the empty text, one element gives that element |
| JsBuiltins.JoinSnoc | script.js:134 | joining one more element appends the separator and that element |
| JsBuiltins.Remainder | script.js:125-131 | JavaScript `%` with a positive divisor: in [0, b) and equal to the Euclidean remainder for a non-negative dividend, in (-b, 0] for a negative one |
| JsBuiltins.RemainderTruncates | script.js:125-131 | the dividend equals divisor times the truncated quotient plus the remainder |
| JsBuiltins.SpliceOne | script.js:64 | `splice(i, 1)` removes exactly element i and moves later ones down for 0 <= i < len; counts from the end for negative i; removes nothing for i >= len |
| NameFortune.Find | script.js:41 | finds nothing iff no chosen element has that character; otherwise returns a chosen element with that character |
| NameFortune.WithChoice | script.js:40-44 | selecting a present character leaves the list unchanged; a new one is appended at the end; the character is present afterwards; characters stay distinct |
| NameFortune.RemovalKeepsDistinct | script.js:64 | taking one element out of a list of distinct characters leaves them distinct |
| NameFortune.SpliceKeepsDistinct | script.js:63-66 | removing by any index keeps the chosen characters distinct |
| NameFortune.IndicesOf | script.js:125-131 | for non-negative year, month and day the four reading indices lie in [0, 5) and the stem index in [0, 10) |
| NameFortune.GanjiDeterminesDestiny | script.js:125-131 | the destiny index is the stem index's remainder by 5, for every date |
| NameFortune.Hanjas | script.js:138 | the list of characters, one per chosen element, in order |
| NameFortune.Meanings | script.js:134 | the list of meanings, one per chosen element, in order |
| NameFortune.Fortune | script.js:109-165 | the error is written iff the list or the date text is empty; the name joins the characters in selection order and the meanings are joined with ", "; each reading is the entry its index from IndicesOf selects, "undefined" when that index is negative; for non-negative dates every reading comes from its table |
| NameFortune.NameFollowsSelection | script.js:138 | selecting a new character appends it to the name written in the title, so the name follows the order of selection |
| NameFortune.MeaningsFollowSelection | script.js:134 | selecting a new character appends its meaning to the comma-separated meanings, after a separator unless it is the first |
| NameFortune.NamePage.constructor | script.js:5 | the list starts empty |
| NameFortune.NamePage.SelectHanja | script.js:40-47 | the list becomes WithChoice of the old list; characters stay distinct |
| NameFortune.NamePage.RemoveHanja | script.js:63-66 | the list becomes the old list after `splice(index, 1)`; characters stay distinct |
| NameFortune.NamePage.GetFortune | script.js:109-116 | the page writes Fortune of the current list and the given date |

## Left out

- Swipe gesture recognition: `WordCard` declares only the `word` prop and never calls `onSwipeLeft` or `onSwipeRight`, so the source has no threshold logic to model.
- Speech playback: `handlePlayAudio` only logs, and `WordCard` never calls `onPlayAudio`.
- The `showList` toggle between card view and list view: plain view routing. The card unmounts while the list is shown, which resets its flag on return; the model covers a mounted card only.
- The form's `onChange` handlers: each assigns one field, and the model lets a caller assign the field directly.
- App.AppState.HandleNext: requires a non-empty deck. The source's `% words.length` divides by 0 otherwise (giving NaN), but the arrows that call it are rendered only when the deck is non-empty.
- App.AppState.HandlePrev: requires a non-empty deck, for the same reason.
- React scheduling and stale closures: each handler is one atomic step over the state as it was before the call.
- `searchHanja`: network I/O, JSON parsing and page updates.
- Page markup: the `innerHTML` templates, class names and styling. The model keeps only which fields each face or section shows.
- Date parsing in `getFortune`: `new Date(birthdate)` is not modelled; the year, month and day are parameters. A date that does not parse (NaN fields) is not covered.
- The lucky number: it comes from `Math.random`.
- The text of the error message `getFortune` writes: the model returns `MissingInput` instead.
- NameFortune.Find: states that the result is a matching element, not that it is the first match. Only whether an element is found is used by `selectHanja`.
