# A verified model of the browser video library

The library keeps video files in the browser's IndexedDB store `videos`, lists them as cards
in a grid that can be searched, and plays one of them in an overlay. The file `app.js` is
mostly IndexedDB and DOM glue. This project models the deterministic rules inside that glue
and proves what they promise:

- `html.dfy` (module `Html`): `escapeHtml`, written as its chain of three `replaceAll`
  calls. It is proved equal to escaping each character on its own. Its output has no `<` or
  `>`, and every `&` in it starts `&amp;`, `&lt;` or `&gt;`. The length formula is proved,
  and so is the fact that the input comes back unchanged exactly when it holds none of
  `&`, `<`, `>`. An unescaping inverse recovers the input.
- `text.dfy` (module `Text`): `startsWith`, `includes`, `toLowerCase` and `trim`, the string
  primitives the filters use.
- `gallery.dfy` (module `Gallery`): the selection rule of `refreshGrid`. The query is
  trimmed and lower-cased. The empty-state message appears exactly when the store is empty.
  The store order is reversed. A record is kept when its lower-cased title or filename
  contains the query, with a missing field read as `""`. `Select` is the specification;
  `VisibleCards` is the card loop and `BuildGrid` the rest of `refreshGrid` after the store answers.
- `ingest.dfy` (module `Ingest`): the `video/` filter of the drop and picker handlers, the
  title fallback `prompt(...) || f.name`, and the records a batch produces.
- `library.dfy` (module `Library`): the object store as a map from key to record, plus the
  key generator of `autoIncrement`. The class `VideoLibrary` holds that store and the
  overlay's `currentPlaying`. Its methods are add, get-all, get, delete, `handleFiles`, the
  drop and picker handlers, the card's Remove button, `openPlayer`, and the close and delete
  buttons of the player.
- `scenarios.dfy` (module `Scenarios`): concrete checks of the gallery filter on two records
  ("Cat Jumping"/`a.mp4` and "Dog Running"/`b.mov`), and two client sessions that use only the
  class's contracts.
- `records.dfy` (module `Records`): the stored object and its blob.
- `seqs.dfy` and `wrappers.dfy`: reversal, filtering and subsequences, and `Option`.

Modelling choices:

- The answers of `prompt` and `confirm` are method parameters. So is the value of
  `Date.now()` for each record.
- A blob is an opaque value. `f.slice(0)` is the file's content, passed on unchanged.
- The store's key generator starts at 1 and only grows, as IndexedDB's does. `getAll` lists
  records in ascending key order, as IndexedDB defines it. The gallery's "newest first" order
  relies on this. Store operations always succeed in the model.
- `currentPlaying &&` is JavaScript truthiness, so a key 0 would count as "nothing open".
  The model writes that test out (`Truthy`). It proves from the class invariant that keys are
  never 0, so the test means "a record is open".
- `trim` removes exactly the ECMAScript WhiteSpace and LineTerminator code points.
  `toLowerCase` is modelled on ASCII letters only. Strings are sequences of Unicode scalar
  values, not UTF-16 code units.

Facts about the code the model relies on:

- `handleFiles` awaits each `addVideo` in turn (app.js:93-96). A rejected `addVideo` ends
  the batch at that file, and the final `refreshGrid` is then skipped.
- Object URLs made for the cards and the player (app.js:112, app.js:139) are never revoked.
- `getAll` returns records in ascending key order (app.js:37), and the newest-first order of
  the grid depends on it.

## Model

| member | source | states |
|---|---|---|
| `Html.ReplaceAll` | app.js:166 | replacing a character by a text that does not contain it removes every occurrence; other characters not in the replacement are present afterwards exactly when they were before |
| `Html.EscapeHtmlIsEscapeEach` | app.js:166 | the chain `&`, then `<`, then `>` equals replacing each input character by its own entity; the `&` of `&lt;` and `&gt;` is never escaped again |
| `Html.EscapeHtml` | app.js:166 | the output contains no `<` and no `>`; its other properties are the lemmas below, chiefly `EscapeHtmlIsEscapeEach` and `EscapeHtmlRoundTrip` |
| `Html.EscapeHtmlAmpersands` | app.js:166 | every `&` in the output begins `&amp;`, `&lt;` or `&gt;` |
| `Html.EscapeHtmlLength` | app.js:166 | output length is input length plus 4 per `&` and 3 per `<` or `>` |
| `Html.EscapeHtmlIdentity` | app.js:166 | the output equals the input if and only if the input has no `&`, `<` or `>` |
| `Html.EscapeHtmlAmpersandFirst` | app.js:166 | a leading `&` always becomes `&amp;`, whatever follows it |
| `Html.EscapeHtmlOfEntity` | app.js:166 | an `&` followed by text with no `&`, `<` or `>`, as in `&lt;`, becomes `&amp;` followed by that text (`&amp;lt;`): already-escaped text changes again |
| `Html.EscapeHtmlRoundTrip` | app.js:166 | unescaping the three entities gives back the original text, so escaping is injective |
| `Text.Contains` | app.js:108 | `includes`; what it means is stated by `Text.ContainsIff` |
| `Text.ContainsIff` | app.js:108 | `includes` holds exactly when the query occurs at some position of the text; the empty query is always included |
| `Text.LowerChar` | app.js:100 | the result is never an ASCII capital; an ASCII capital maps to the letter 32 code points above it, every other character is unchanged |
| `Text.ToLower` | app.js:100 | same length, and each character is lower-cased on its own |
| `Text.TrimStart` | app.js:100 | the result is a suffix; everything removed is whitespace; it does not start with whitespace |
| `Text.TrimEnd` | app.js:100 | the result is a prefix; everything removed is whitespace; it does not end with whitespace |
| `Text.Trim` | app.js:100 | the result is a contiguous slice with only whitespace cut away on both sides, and it neither starts nor ends with whitespace |
| `Text.TrimLower` | app.js:100 | trimming and lower-casing commute |
| `Seqs.Reverse` | app.js:107 | same length, and element k is the input's element counted k from the end |
| `Seqs.Filter` | app.js:78 | the kept elements are exactly the input elements satisfying the test |
| `Seqs.FilterCount` | app.js:78 | a value satisfying the test occurs in the output as often as in the input; any other value does not occur |
| `Gallery.NormalizeQuery` | app.js:100 | the normalized query has no ASCII capital letter and neither starts nor ends with whitespace |
| `Gallery.NormalizeQueryIgnoresCase` | app.js:100 | two queries that agree when lower-cased normalize to the same query |
| `Gallery.Visible` | app.js:108 | the negated `continue` test; its meaning is stated by `Gallery.VisibleIff` |
| `Gallery.VisibleIff` | app.js:108 | a record is kept if and only if the query is empty or occurs in its lower-cased title or filename (a missing field read as empty) |
| `Gallery.Select` | app.js:99-108 | the selection rule as one function; it is characterised by `SelectEmptyState`, `SelectEmptyQuery`, `SelectMembers`, `SelectSubsequence` and `SelectNewestFirst`, and `Gallery.BuildGrid` is proved equal to it |
| `Gallery.SelectEmptyState` | app.js:103-106 | the message appears if and only if the store returned no record; a nonempty store where nothing matches gives zero cards and no message |
| `Gallery.SelectEmptyQuery` | app.js:100-108 | a query that trims to nothing shows every record, in reverse store order |
| `Gallery.SelectMembers` | app.js:107-108 | a record gets a card if and only if it is stored and visible for the query |
| `Gallery.SelectSubsequence` | app.js:107-108 | the cards are a subsequence of the reversed store list, so filtering never reorders |
| `Gallery.SelectNewestFirst` | app.js:107 | when the store lists records by ascending key, the cards have strictly descending keys, newest first |
| `Gallery.VisibleCards` | app.js:107-127 | the loop over the reversed records keeps exactly the records passing the test of app.js:108, in loop order |
| `Gallery.BuildGrid` | app.js:99-128 | produces exactly `Select`: the message for an empty store, else exactly the visible records |
| `Ingest.IsVideo` | app.js:78 | `f.type.startsWith('video/')`: the media type begins with the six characters `video/` |
| `Ingest.AcceptedFiles` | app.js:78 | the accepted files are exactly the `video/` files, in input order, each as many times as it was given; none is accepted exactly when no file is a video |
| `Ingest.NewRecord` | app.js:25 | the object `addVideo` stores for a file; its fields are fixed through `Ingest.Title` and `Library.AddBatchRecords` |
| `Ingest.Title` | app.js:92 | a non-empty answer is the title; a cancelled or empty answer gives the file name; the title is empty only if the name is |
| `Library.ListBelowMembers` | app.js:37 | `getAll` lists exactly the stored records |
| `Library.ListBelowIncreasing` | app.js:37 | `getAll` lists records in strictly ascending key order, each once |
| `Library.Truthy` | app.js:154 | JavaScript truthiness of `currentPlaying`; `Library.VideoLibrary.DeleteFromPlayer` shows it means "a record is open" under the class invariant |
| `Library.VideoLibrary.constructor` | app.js:10 | a new store is empty, its key generator is at 1, and nothing is playing |
| `Library.VideoLibrary.Add` | app.js:20-30 | stores the record under a key not yet present, returns that key, advances the generator, appends the record to the listing, and changes nothing else |
| `Library.VideoLibrary.GetAll` | app.js:32-41 | returns every stored record and only those, by ascending key; empty exactly when the store is |
| `Library.VideoLibrary.Get` | app.js:134-137 | returns the record when the key is stored and nothing otherwise |
| `Library.VideoLibrary.Delete` | app.js:43-52 | removes exactly that key, leaves every other record, and accepts an absent key silently |
| `Library.VideoLibrary.RefreshGrid` | app.js:99-128 | the grid is `Select` of the listing: the message exactly when the store is empty, else the visible stored records with descending keys |
| `Library.AddBatchRecords` | app.js:90-97 | after a batch from key `first`, key `first + i` holds the record of file `i` with its name, content, fallback title and time; every other key is as before |
| `Library.AddBatchListing` | app.js:90-97 | a batch added above every existing key appends its records, in file order, to the end of what `getAll` lists |
| `Library.VideoLibrary.HandleFiles` | app.js:90-97 | one add per file in input order under consecutive fresh keys: the store becomes the old store plus the batch, the listing gains the batch's records at its end, nothing else changes; then one refresh of the new listing |
| `Library.VideoLibrary.Ingest` | app.js:76-86 | drop and picker: the store gains exactly the batch of accepted `video/` files, one record each, in order, and nothing when no file is a video; then one refresh |
| `Library.VideoLibrary.RemoveCard` | app.js:122 | a confirmed removal deletes that key and refreshes; a declined one changes nothing |
| `Library.VideoLibrary.OpenPlayer` | app.js:130-144 | sets `currentPlaying` to the key and shows its record only when the key is stored; otherwise nothing changes |
| `Library.VideoLibrary.ClosePlayer` | app.js:146-151 | clears `currentPlaying` and leaves the store alone |
| `Library.VideoLibrary.DeleteFromPlayer` | app.js:153-162 | while a record is open and the user confirms: removes that key, clears `currentPlaying`, refreshes; otherwise nothing changes |
| `Scenarios.FilterExample` | app.js:100-108 | with "Cat Jumping"/`a.mp4` and "Dog Running"/`b.mov`, the queries `cat` and `CAT` show only the first |
| `Scenarios.EmptyFilterExample` | app.js:100-108 | with two records, the empty query shows both, the later one first |

## Left out

- Opening and upgrading the database, the `title` and `filename` indices, transactions and request callbacks (app.js:4-52, app.js:130-135). These are browser API; only the map semantics they give are modelled.
- Interleaving of asynchronous handlers. Each handler is modelled as running to completion. In the code, a second drop while `await addVideo` is pending (app.js:94) can interleave its keys with the first batch's, and a `refreshGrid` started for an older query (app.js:101, app.js:164) can finish last and overwrite a newer grid.
- Storage errors and rejected promises. The model's store operations always succeed, so it does not capture that a failure ends a `handleFiles` batch early (app.js:93-94).
- All DOM work: building cards, `innerHTML`, the `Untitled` display fallback and the escaped card labels (app.js:117), class toggling, and pausing and clearing the video element. This is display only.
- Object URLs from `URL.createObjectURL`. The code never revokes them, so there is no release to model.
- The bytes inside a blob. A blob is an opaque value.
- Unicode lower-casing: `toLowerCase` is modelled on ASCII letters only.
- The `prompt` and `confirm` dialogs themselves, and the clock: their results are parameters.
- The modal overlay hides the grid while a video plays. The model does not, so `RemoveCard` may delete the open record; `DeleteFromPlayer` then deletes an absent key, which the store treats as success.
