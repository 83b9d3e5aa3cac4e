# Oreganote workspace: a verified model of its persistence layer and form handlers

Oreganote is a single-page note-taking workspace. It keeps saved notes, daily calendar
notes, a to-do list and quick links in the browser's origin-scoped string store. It
offers a placeholder "rewrite" flow and an upload of the current note to Google Drive.
This project models the parts of it with behaviour that can be stated and proves that
behaviour in Dafny:

- **`LocalStorage`** models the persistence layer as the class `Storage`.
  - The store is a `map<string, string>` field, and `inBrowser` says whether a browser window exists.
  - Each of the four collections lives under its own fixed key.
  - The getters fall back to an empty default. The savers write one key and swallow failures.
  - `ClearAllOreganoteData` removes the four keys one after another.
  - JSON serialisation is a `Codec` value, and its round-trip law is a precondition of the lemmas that need it.
- **`RewriteNote`** models the placeholder rewrite. It builds the marker in a local variable, as the flow does.
- **`SaveToDrive`** models the deterministic parts of the Drive upload:
  - token cleaning;
  - the file name;
  - the request;
  - the check of the service's reply;
  - the mapping of every failure to the message the flow throws.
- **`LinksSection`**, **`NotesSection`**, **`FilesSection`** and **`CalendarSection`** model the event handlers of the four components.
  - Each component's state is a class, and its handlers are methods that update it.
  - The calls a handler makes to the parent's callbacks are returned as values.
  - `FilesSection` includes the in-place newest-first sort of the saved-notes array. It is proved equal to a functional stable insertion sort. That sort is proved ordered, a permutation, stable, and the only stable newest-first order.
- **`JsString`** holds the JavaScript string operations the handlers rely on (`trim`, `startsWith`). `trim` uses ECMAScript's whitespace set. **`NoteTypes`** holds the persisted entities. **`Wrappers`** holds `Option` and `Result`.

Browser and library facilities enter as parameters. These are the `confirm` answer, the
`prompt` answer, URL validity, the day-to-ISO-key conversion and `isToday`.

## Model

| member | source | states |
|---|---|---|
| LocalStorage.StorageKeys | src/lib/localStorage.ts:6-9 | the four keys are pairwise distinct (the set has four elements) and each is one of the keys |
| LocalStorage.Load | src/lib/localStorage.ts:12-23 | the default outside a browser, for a missing key, for a stored "" and for text that does not parse; otherwise the parsed value |
| LocalStorage.SaveThenLoad | src/lib/localStorage.ts:25-34 | writing the serialised collection under a key and loading that key gives the collection back, for a round-tripping codec |
| LocalStorage.WriteIsolated | src/lib/localStorage.ts:29-30 | a write under one key leaves what every other key loads unchanged |
| LocalStorage.ClearedReadsDefault | src/lib/localStorage.ts:116-120 | after the four keys are removed, each of them loads as its default |
| LocalStorage.Storage.GetSavedNotes | src/lib/localStorage.ts:12-23 | `[]` outside a browser, for an absent or empty entry and for unparsable text; otherwise the parsed notes |
| LocalStorage.Storage.GetDailyCalendarNotes | src/lib/localStorage.ts:37-48 | the empty map in the same three cases; otherwise the parsed map |
| LocalStorage.Storage.GetTasks | src/lib/localStorage.ts:62-73 | `[]` in the same three cases; otherwise the parsed tasks |
| LocalStorage.Storage.GetLinks | src/lib/localStorage.ts:87-98 | `[]` in the same three cases; otherwise the parsed links |
| LocalStorage.Storage.Write | src/lib/localStorage.ts:26-33 | outside a browser, or when `setItem` throws, the store is unchanged; otherwise exactly `key` is overwritten and every other key keeps its value |
| LocalStorage.Storage.SaveNotes | src/lib/localStorage.ts:25-34 | only the notes key changes, only in a browser and only when the write does not fail; afterwards `GetSavedNotes` returns the saved notes |
| LocalStorage.Storage.SaveDailyCalendarNotes | src/lib/localStorage.ts:50-59 | the same for the daily-notes key and `GetDailyCalendarNotes` |
| LocalStorage.Storage.SaveTasks | src/lib/localStorage.ts:75-84 | the same for `TasksKey` and `GetTasks` |
| LocalStorage.Storage.SaveLinks | src/lib/localStorage.ts:100-109 | the same for the links key and `GetLinks` |
| LocalStorage.Storage.ClearAllOreganoteData | src/lib/localStorage.ts:112-124 | in a browser, exactly the four keys are removed; every other key keeps its value; outside a browser nothing changes |
| RewriteNote.RewriteNote | src/ai/flows/rewrite-note.ts:26-36 | the output starts with the unchanged input, is longer and ends with ')'; an absent or empty tone gives the generic marker, a non-empty tone the marker naming it |
| SaveToDrive.CleanAccessToken | src/ai/flows/save-to-drive.ts:46 | a token starting with "Bearer " is that prefix plus the result; any other token is returned unchanged |
| SaveToDrive.CleanAccessTokenStripsOnce | src/ai/flows/save-to-drive.ts:46 | "Bearer Bearer x" becomes "Bearer x": the prefix is removed once |
| SaveToDrive.CleanAccessTokenIsCaseSensitive | src/ai/flows/save-to-drive.ts:46 | "bearer x" is not stripped |
| SaveToDrive.DriveFileName | src/ai/flows/save-to-drive.ts:51 | the trimmed title plus ".txt", or "Untitled Oreganote.txt" for a blank title; it is the generic name iff the title is blank or trims to "Untitled Oreganote"; it always ends in ".txt" |
| SaveToDrive.BuildRequest | src/ai/flows/save-to-drive.ts:46-60 | the request carries the token as `CleanAccessToken` leaves it, the name `DriveFileName` derives from the title, the note content, the Drive root as parent and plain text |
| SaveToDrive.ErrorMessage | src/ai/flows/save-to-drive.ts:84-87 | the authentication message iff the code is 401 or a reason is "authError"; otherwise the generic prefix plus the error's message |
| SaveToDrive.SaveOutcome | src/ai/flows/save-to-drive.ts:62-88 | a result iff the reply has a truthy id and name, carrying them and a truthy link or none; a reply missing either becomes the generic failure wrapping the missing-fields message; a thrown error becomes its mapped message |
| JsString.Trim | src/components/orga-note/LinksSection.tsx:41 | `trim` leaves no whitespace at either end, is no longer than its input, and is empty iff the input is blank |
| JsString.TrimIsFramed | src/components/orga-note/LinksSection.tsx:52 | the input is a blank prefix, then the trimmed result, then a blank suffix |
| JsString.TrimOfFramed | src/components/orga-note/LinksSection.tsx:52 | any blank prefix + edge-trimmed core + blank suffix trims to exactly that core |
| JsString.TrimIdempotent | src/components/orga-note/FilesSection.tsx:31 | trimming an already trimmed name changes nothing |
| LinksSection.EditedId | src/components/orga-note/LinksSection.tsx:52 | `editingLink?.id`: an id iff a link is being edited, and then that link's id |
| LinksSection.LinkDialog.constructor | src/components/orga-note/LinksSection.tsx:21-25 | the dialog starts closed with an empty form |
| LinksSection.LinkDialog.ResetForm | src/components/orga-note/LinksSection.tsx:34-38 | empty name and URL, nothing being edited, dialog flag unchanged |
| LinksSection.LinkDialog.SetName | src/components/orga-note/LinksSection.tsx:105 | only the name changes, inside the open dialog |
| LinksSection.LinkDialog.SetUrl | src/components/orga-note/LinksSection.tsx:109 | only the URL changes, inside the open dialog |
| LinksSection.LinkDialog.SaveLink | src/components/orga-note/LinksSection.tsx:40-61 | refused iff the name or URL is blank; then refused iff the untrimmed URL does not parse; otherwise one call with the trimmed name, the trimmed URL (both non-empty and trimmed) and the edited id, after which the form is reset and the dialog closed; a refusal changes nothing; a closed dialog always holds an empty form |
| LinksSection.LinkDialog.DeleteLink | src/components/orga-note/LinksSection.tsx:63-67 | `onDeleteLink` is called iff the user confirms, and with exactly the link's id |
| LinksSection.LinkDialog.EditLink | src/components/orga-note/LinksSection.tsx:69-74 | the form holds the link's name and URL, the link is recorded as edited, the dialog is open |
| LinksSection.LinkDialog.OpenDialog | src/components/orga-note/LinksSection.tsx:76-79 | an empty form in an open dialog |
| LinksSection.LinkDialog.OpenChange | src/components/orga-note/LinksSection.tsx:92 | the dialog flag follows the event; closing resets the form, opening keeps it |
| NotesSection.TaskInput.constructor | src/components/orga-note/NotesSection.tsx:19 | the input starts empty |
| NotesSection.TaskInput.SetText | src/components/orga-note/NotesSection.tsx:51 | the input holds the typed text |
| NotesSection.TaskInput.AddTask | src/components/orga-note/NotesSection.tsx:27-31 | blank input makes no call and stays as it is; otherwise one call with the trimmed text, which is non-empty and trimmed, and the input is cleared |
| FilesSection.FindIndex | src/components/orga-note/FilesSection.tsx:28 | the index of the first note with the id, or the length when there is none |
| FilesSection.PromptDefault | src/components/orga-note/FilesSection.tsx:28-29 | no default iff no note has the id; otherwise the name of the first note with that id, as `find` returns it |
| FilesSection.HandleRename | src/components/orga-note/FilesSection.tsx:27-33 | a call iff the prompt answers with a non-blank name; the call carries the note id and the trimmed name, which is non-empty and trimmed |
| FilesSection.InsertByRecency | src/components/orga-note/FilesSection.tsx:48 | inserting one note adds exactly one element |
| FilesSection.InsertIsPermutation | src/components/orga-note/FilesSection.tsx:48 | insertion adds the note and keeps every other note |
| FilesSection.SortByRecency | src/components/orga-note/FilesSection.tsx:48 | the sort keeps the length |
| FilesSection.WithTimestampMembers | src/components/orga-note/FilesSection.tsx:48 | a note is in a timestamp's group iff it is in the list with that timestamp |
| FilesSection.InsertKeepsOrder | src/components/orga-note/FilesSection.tsx:48 | insertion into a newest-first list keeps it newest-first |
| FilesSection.InsertKeepsGroups | src/components/orga-note/FilesSection.tsx:48 | insertion appends the new note to its timestamp's group and leaves every other group as it was |
| FilesSection.SortIsNewestFirst | src/components/orga-note/FilesSection.tsx:48 | the sorted list has non-increasing `lastModified` |
| FilesSection.SortIsPermutation | src/components/orga-note/FilesSection.tsx:48 | the sorted list has the same notes, each as many times |
| FilesSection.SortIsStable | src/components/orga-note/FilesSection.tsx:48 | notes with equal `lastModified` keep their relative order |
| FilesSection.StableOrderIsUnique | src/components/orga-note/FilesSection.tsx:48 | two newest-first lists with the same ordered group for every timestamp are equal |
| FilesSection.StableSortIsSortByRecency | src/components/orga-note/FilesSection.tsx:48 | any stable newest-first sort of the notes is exactly `SortByRecency` |
| FilesSection.InsertAt | src/components/orga-note/FilesSection.tsx:48 | one in-place pass places `savedNotes[i]` into the sorted prefix and leaves the rest of the array untouched |
| FilesSection.SortNewestFirst | src/components/orga-note/FilesSection.tsx:48 | the array, sorted in place, equals `SortByRecency` of its old contents |
| FilesSection.SortedRowsCoverNotes | src/components/orga-note/FilesSection.tsx:48-67 | after the sort the list renders one row per saved note, every saved note's id has a row, and every row's id is a saved note's |
| CalendarSection.NoteText | src/components/orga-note/CalendarSection.tsx:33 | the stored text, or "" when absent; it is non-empty iff the day has a note |
| CalendarSection.HasNoteMarker | src/components/orga-note/CalendarSection.tsx:93 | a day is marked iff its stored note is non-empty |
| CalendarSection.TodayWithNoteMarker | src/components/orga-note/CalendarSection.tsx:94 | only today is marked, and only when it has a note |
| CalendarSection.DayNoteEditor.constructor | src/components/orga-note/CalendarSection.tsx:19-22 | today is selected and the text is empty |
| CalendarSection.DayNoteEditor.SyncText | src/components/orga-note/CalendarSection.tsx:30-35 | with a day selected the text becomes its note or ""; with none nothing changes; the selection is kept |
| CalendarSection.DayNoteEditor.SelectDate | src/components/orga-note/CalendarSection.tsx:38-46 | the day becomes the selection and the text its note or ""; deselecting clears the text |
| CalendarSection.DayNoteEditor.SetText | src/components/orga-note/CalendarSection.tsx:163 | the text area holds the typed text while a day is selected |
| CalendarSection.DayNoteEditor.SaveDailyNote | src/components/orga-note/CalendarSection.tsx:52-59 | no call iff no day is selected; otherwise one call with the day and the text exactly as it stands, "" included |
| CalendarSection.DayNoteEditor.DeleteDailyNote | src/components/orga-note/CalendarSection.tsx:61-74 | no call without a selected day or when its note is absent or ""; otherwise a call with the day, after which the text is ""; the selection never changes |
| CalendarSection.DeleteButtonShown | src/components/orga-note/CalendarSection.tsx:169-171 | the delete button is shown iff a day is selected and it has a note, the condition under which the delete handler calls |
| CalendarSection.SavedTextReadsBack | src/components/orga-note/CalendarSection.tsx:30-35 | a property of the effect's read alone: after the notes map is updated with a text under a key, `NoteText` reads that text back, and the day has a note iff it is non-empty (whether the parent stores the text is outside this model) |

## Left out

- Storage access is modelled only as a map field.
  - `window.localStorage` is the `items` map.
  - Exceptions from `getItem` and `removeItem` are not modelled, and a throwing `setItem` is the `fails` parameter.
  - Console logging is left out.
- `JSON.stringify` and `JSON.parse` are the `Codec` parameter, not re-implemented.
  - A parse yields a typed value. The model does not check that the parsed JSON has the collection's shape, and the source does not either.
- `LocalStorage.SaveThenLoad` and the savers' read-back clause need the codec to round-trip. This is stated as a precondition (`RoundTrips`), not proved for real JSON.
- `lastModified` is an unbounded integer. JavaScript numbers are doubles, so NaN, infinities and rounding in `b.lastModified - a.lastModified` are not modelled.
- `FilesSection.SortNewestFirst` implements `Array.prototype.sort` as an insertion sort.
  - The engine's algorithm is not modelled.
  - `StableSortIsSortByRecency` shows that any stable newest-first sort gives the same array.
- The Google Drive call, the OAuth client and the error logging are left out as network I/O. The reply or thrown error is the `CreateReply` parameter.
- `err.code` is modelled as a number or absent. A non-numeric code never equals 401, so it is treated as absent.
- The AI summary handler in `src/app/page.tsx` is left out. It is an asynchronous wrapper around an external flow that is not part of this model.
- The note download in `src/components/orga-note/MainWindow.tsx` is left out. It is file and `prompt` I/O.
- Project snapshot export/import is left out, and so are the collection mutations the parent performs behind `onSaveLink`, `onDeleteLink`, `onAddTask`, `onToggleTask`, `onDeleteTask`, `onRenameNote`, `onLoadNote`, `onDeleteNote`, `onSaveDailyNote` and `onDeleteDailyNote`. Their implementations are not part of this model; the model states only the arguments each handler passes.
- Toasts, rendering, CSS classes, the mount flags and the calendar's month view are left out as presentation.
- URL validity (the WHATWG URL Standard's parser behind `new URL`), `confirm`, `prompt`, `formatISO` and `isToday` are parameters, not re-implemented.
- React's batching of state updates and the timing of effects are not modelled. Each handler is one atomic method, and the day-note effect is a method (`SyncText`) the caller runs after the selection or the notes change.
- `src/components/orga-note/ProjectFilesSection.tsx` repeats the sort of `FilesSection.tsx` and is not modelled separately.
- NotesSection.TaskRowIds: has no row above. The toggle and delete handlers (`src/components/orga-note/NotesSection.tsx:70` and `:80`) pass `task.id` straight through, so there is nothing to state beyond that expression.
- JavaScript strings are sequences of UTF-16 code units, while Dafny's `string` holds Unicode scalar values, so a lone surrogate cannot be represented. Nothing modelled depends on this: every character `trim` removes is in the Basic Multilingual Plane, and "Bearer " is ASCII.
