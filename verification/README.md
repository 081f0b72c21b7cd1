# Study-notes app: the logic of its screens, in Dafny

This project models the pure logic of three screens of a React Native
study-notes app, and proves properties about it:

- **The note list** (`app/index.jsx`). Its derived view `filteredNotes` keeps
  the notes whose lower-cased title contains the lower-cased search text. The
  search text is used as typed. Filtering happens only when the search text
  trims to something non-empty. It then stably sorts a copy by
  `updatedAt || createdAt`: newest first for sort order `desc`, oldest first
  for any other value.
- **The new-note form** (`app/create.jsx`). The form holds a title, a
  description, a priority chip (`high`/`medium`/`low`, starting at `medium`)
  and a photo. `canSave` requires three things: a title that trims to at
  least three UTF-16 code units, a description that does not trim to empty, and a
  truthy image reference. `handleSave` passes the untrimmed draft to the note
  store's `addNote`, and only when `canSave` holds.
- **A list row** (`src/components/NoteItem.jsx`). It shows the priority label
  and badge colour, each with a catch-all fallback. It shows the note's image
  or an `IMG` placeholder, and the `updatedAt || createdAt` date.

Modules:

| file | module | contents |
|---|---|---|
| `js_values.dfy` | `JsValues` | `Option`, truthiness of optional strings, `a \|\| b` |
| `text.dfy` | `Text` | `trim` (ECMAScript white space), `toLowerCase`, `includes` |
| `stable_sort.dfy` | `StableSort` | stable sort by an integer key: insertion sort, its specification, uniqueness |
| `notes.dfy` | `Notes` | the `Note` record and its date key |
| `index_screen.dfy` | `IndexScreen` | the list's filter-then-sort view |
| `create_screen.dfy` | `CreateScreen` | the form as a state machine, `canSave`, `handleSave` |
| `note_item.dfy` | `NoteItem` | priority label, badge colour, thumbnail |

Modelling choices:

- Strings are sequences of Unicode characters. JavaScript's `length` counts
  UTF-16 code units, so the title's length is measured with
  `Text.Utf16Length`: a character outside the Basic Multilingual Plane, such
  as an emoji, counts as two. Trimming, lower-casing and substring search
  give the same answers over characters as over code units, because no
  white space, letter or well-formed substring splits a surrogate pair.
- Values that may be `null` or `undefined` (`imageUri`, `priority`,
  `createdAt`, `updatedAt`, a photo's `uri`) are `Option<string>`. A value is
  truthy when it is present and non-empty.
- `new Date(x).getTime()` is a parameter `time: Option<string> -> int` of the
  list view. The model does not say how a stored date becomes an instant.
- The sort follows `Array.prototype.sort` as specified since ECMAScript 2019.
  The result is ordered by the comparator, and elements that compare equal
  keep their order. `StableSort.IsStableSortOf` states this.
  `StableSort.StableSortUnique` proves that only one sequence satisfies it. So
  the model's insertion sort returns exactly what any conforming engine
  returns.
- Immutability of the notes collection is built into the model: every
  operation is a pure function over values. The app's code sorts the copy
  `[...list]`, so it does not mutate the collection either.
- The form's priority is a string, as in the app's code. The only way to set it
  is through a chip's index. That it stays in `high`/`medium`/`low` is a proved
  invariant (`CreateScreen.PriorityAlwaysAnOption`), not something the types
  guarantee.
- `addNote` is an opaque sink. `CreateScreen.HandleSave` returns the draft it
  would receive, or `None` when `handleSave` returns early.
- Three behaviours of the code are easy to miss:
  - The search term is not trimmed, so surrounding spaces take part in the
    match.
  - The title is checked after trimming, but it is passed to `addNote` untrimmed.
  - Any sort order other than `desc` sorts ascending.

## Model

| member | source | states |
|---|---|---|
| `JsValues.Or` | src/components/NoteItem.jsx:17 | `a \|\| b` is truthy iff either operand is; it is `a` when `a` is truthy and `b` otherwise |
| `Text.Trim` | app/index.jsx:27 | `trim()` leaves blanks, then the result, then blanks; the result neither starts nor ends with white space; it is empty iff the input is all white space |
| `Text.TrimUnique` | app/create.jsx:37-38 | any string satisfying that characterisation is the trimmed string, so `trim()` is fully specified |
| `Text.ToLower` | app/index.jsx:28-29 | `toLowerCase()` keeps the length and maps each character independently; lower-casing the result again changes nothing |
| `Text.Utf16Length` | app/create.jsx:37 | JavaScript's `length` lies between the number of characters and twice it, and is 0 iff the string is empty |
| `Text.Utf16LengthCountsUnits` | app/create.jsx:37 | `length` is the number of characters plus the number of characters at or above U+10000, i.e. the UTF-16 code-unit count |
| `Text.Includes` | app/index.jsx:29 | `includes(term)` holds iff `term` occurs at some position of the string |
| `StableSort.Sort` | app/index.jsx:32 | sorting the copy returns a permutation of the filtered list (same multiset, same length) |
| `StableSort.SortIsStableSort` | app/index.jsx:32-36 | the sorted list is ordered by the comparator `da - db` / `db - da`, and notes with equal keys keep their input order |
| `StableSort.StableSortUnique` | app/index.jsx:32-36 | two sequences that are both sorted and stable with respect to the same input are equal: a stable sort has one outcome |
| `Notes.DateKey` | app/index.jsx:33-34 | a note's date is `updatedAt` when that is truthy, else `createdAt` |
| `StableSort.CompareMeaning` | app/index.jsx:35 | the comparator `desc ? db - da : da - db` puts `a` first iff its date is later (`desc`) or earlier (otherwise), ties iff the dates are equal, and is antisymmetric |
| `IndexScreen.TitleMatches` | app/index.jsx:28-29 | a note matches iff its lower-cased title contains the lower-cased search text at some position |
| `IndexScreen.KeepMatching` | app/index.jsx:29 | the filter keeps exactly the matching notes, each as often as it occurs, and never grows the list |
| `IndexScreen.KeepMatchingAppend` | app/index.jsx:29 | `filter` keeps input order: filtering a concatenation concatenates the filtered parts |
| `IndexScreen.KeepMatchingWithKey` | app/index.jsx:29 | for any key value, filtering then selecting the notes with that key equals selecting then filtering |
| `IndexScreen.Filtered` | app/index.jsx:25-30 | a blank search (empty or only white space) leaves the collection as it is; any other search filters it |
| `IndexScreen.SortKey` | app/index.jsx:33-34 | a note's sort key is the instant of `updatedAt` when that is truthy, else of `createdAt` |
| `IndexScreen.FilteredNotes` | app/index.jsx:24-39 | a note is listed, as often as it occurs in the collection, iff the search is blank or its lower-cased title contains the lower-cased search text; otherwise it is absent; the list is never longer than the collection |
| `IndexScreen.BlankSearchKeepsEveryNote` | app/index.jsx:25-32 | a blank or all-white-space search yields a permutation of all the notes |
| `IndexScreen.ListedNotesMatch` | app/index.jsx:27-29 | with a non-blank search every listed note's lower-cased title contains the lower-cased, untrimmed search text |
| `IndexScreen.ListOrderedByDate` | app/index.jsx:32-36 | for `desc` dates are non-increasing down the list; for any other sort order they are non-decreasing |
| `IndexScreen.ListIsStable` | app/index.jsx:29-38 | for every date, the listed notes with that date are the collection's notes with that date that pass the filter, in their order in the collection |
| `IndexScreen.ListDeterminedBySortSpec` | app/index.jsx:32-38 | every list a stable engine sort could produce equals the modelled list, so the view is deterministic |
| `IndexScreen.FilteredNotesIdempotent` | app/index.jsx:24-39 | recomputing the view on its own output with the same search and sort order returns the same list |
| `IndexScreen.NewerFirstScenario` | app/index.jsx:35 | with two notes of different dates, `desc` lists the newer first and `asc` the older first |
| `CreateScreen.TakePictureStep` | app/create.jsx:62-64 | a photo with a truthy `uri` replaces `imageUri`; a missing photo or `uri` leaves the form unchanged; nothing else changes |
| `CreateScreen.Step` | app/create.jsx:107-136 | editing the title or description replaces exactly that field; choosing a chip sets the priority to that chip's value and nothing else; no other action touches the priority, and only taking a picture touches the image |
| `CreateScreen.TitleIsValid` | app/create.jsx:37 | whatever string the title trims to, the title is valid iff that string is at least 3 UTF-16 units long; a valid title is never all white space |
| `CreateScreen.CanSave` | app/create.jsx:38 | saving is allowed iff the title is valid, the description has a non-space character, and the image reference is truthy |
| `CreateScreen.ShowTitleError` | app/create.jsx:109-113 | the title error shows iff the title is non-empty and invalid (so never for an empty or a valid title, always for an all-blank one), and whenever it shows the form cannot be saved |
| `CreateScreen.HandleSave` | app/create.jsx:71-80 | no draft iff `canSave` is false; otherwise the draft carries exactly the form's title and description (untrimmed), image and priority |
| `CreateScreen.TitleValidityIgnoresPadding` | app/create.jsx:37 | white space around a title never changes whether it is valid |
| `CreateScreen.EmojiTitleIsValid` | app/create.jsx:37 | the title "😀a" is two characters but three UTF-16 units, and is valid, as in JavaScript |
| `CreateScreen.SavedDraftIsComplete` | app/create.jsx:37-38 | a saved draft's title is at least three UTF-16 units long and has a non-space character, its description has a non-space character, and its image reference is non-empty |
| `CreateScreen.RunKeepsPriorityValue` | app/create.jsx:127-136 | from a form whose priority is a chip value, any sequence of user actions keeps it a chip value |
| `CreateScreen.PriorityAlwaysAnOption` | app/create.jsx:18-30 | starting from `medium`, the priority is always `high`, `medium` or `low` |
| `NoteItem.PriorityLabel` | src/components/NoteItem.jsx:10-14 | `Alta` iff `high`, `Media` iff `medium`, `Baja` for every other value including a missing one |
| `NoteItem.BadgeColor` | src/components/NoteItem.jsx:37 | a listed priority gets its `PRIORITY_COLORS` entry; the fallback `#3f3f46` appears iff the priority is not listed |
| `NoteItem.ThumbnailOf` | src/components/NoteItem.jsx:21-27 | the note's image is shown iff `imageUri` is truthy, otherwise the placeholder |
| `NoteItem.LabelsMatchCreateOptions` | src/components/NoteItem.jsx:10-14 | each chip value's badge label equals that chip's label on the new-note screen |
| `NoteItem.SavedNoteShowsChosenPriority` | src/components/NoteItem.jsx:37-40 | a note saved from any sequence of form actions shows its chip's label, a non-fallback colour and its photo |

## Left out

- The note store (`useNotes`, `addNote`, `isLoading`, persistence) is not part of this model. Its notes are taken as given, and `addNote` is only the receiver of the draft. So is the error alert shown when `addNote` throws.
- Navigation (`router.push`, `router.replace`), `app/_layout.jsx` and `BottomTabs` are left out: they are configuration with no logic.
- Camera and permissions are left out because they are device I/O: `handleOpenCamera`, `isCameraOpen`, `CameraView`, and the early return when no camera is mounted. Only the `photo?.uri` rule for `imageUri` is modelled.
- Rendering is left out: styles, `FlatList`, the loading and empty-list messages, the form's photo preview and camera-button caption, and `toLocaleString` date formatting (locale-dependent).
- Date parsing is left out and becomes the parameter `time`, which always yields an integer. A date that fails to parse gives `NaN`, and ECMAScript's SortCompare treats a `NaN` comparator result as `+0`. Mixing such dates with valid ones makes the comparator inconsistent, and then the engine's order is implementation-defined. If every date is `NaN`, the input order is kept. Neither case is modelled.
- Text.ToLower: maps only A-Z and the Latin-1 capitals À-Þ (except ×) to lower case, because full Unicode case mapping can change a string's length. Titles using other scripts are lower-cased less than in the app's code.
- NoteItem.BadgeColor: treats `PRIORITY_COLORS` as holding only its three entries. In JavaScript, a priority named after an inherited object property such as `constructor` would find a non-colour value. Priorities written by the form are always one of the three chips.
- The priority label is called `caption` in the model, because `label` is a reserved word in Dafny.
