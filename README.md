# Beatrice dataset generator — a verified model of its core

The dataset generator is a single-page web application. It collects voice clips grouped by
*character* (one speaker identity each) and exports the chosen characters as one zip
archive, with one folder per character. This project models in Dafny the parts of the
application that decide state:

- **The application store** (`AppStateContext`): the closed set of actions, the reducer
  that maps a state and an action to a new state, the initial state, and the store that
  every dispatch replaces wholesale.
- **The audio-file panel** (`AudioFileList`):
  - the `audio/*` filter applied to dropped or picked files;
  - the sequential ingestion loop, with its cancel flag, its progress percentage and its
    create-or-overwrite decision by file name;
  - the two-step deletion of a file;
  - the byte-size and `m:ss` labels;
  - the table's pagination.
- **The export dialog** (`ExportDataset`):
  - the dialog's own copy of the per-character selection, and toggling it;
  - the count that enables the export button;
  - the loop that packs the selected characters' clips into an archive and tracks progress;
  - the three possible endings: nothing selected, archive saved, save failed.
- **The interface language** (`I18n`):
  - the 28 supported codes;
  - the start-up choice from the saved setting and the browser's language tag;
  - the switch that remembers a choice.
- **The character panel** (`CharacterList`):
  - adding a character under a trimmed, non-blank name;
  - the two-step delete;
  - focusing a character by clicking its row;
  - what each row shows.

The domain records (`Types`) are values. Each React component is modelled as a `class`:
its fields are the component's `useState` values and refs, and its methods are the event
handlers, each stated against the reducer over the shared `Store`. Helper modules model
`Array.prototype.filter` (`Seqs`), decimal rendering and `padStart` (`Decimal`), and the
`Math.round(p / t * 100)` progress percentage (`Percent`).

The browser is modelled by oracles, passed in as parameters:

- `processFiles` receives `io: nat -> FileIo`. For the i-th queued file, `io(i)` gives:
  - the object URL, or `None` when `URL.createObjectURL` throws;
  - the probed duration, or `None` when the metadata probe reports an error;
  - the UUID that `crypto.randomUUID()` would return;
  - whether the user pressed cancel while the loop awaited this file.
- `handleExport` receives two oracles:
  - `fetch(i, j)`: whether fetching file `j` of the `i`-th selected character, and reading
    its blob, succeeds;
  - `saveOk`: whether `generateAsync` and `saveAs` succeed.
- The i18n start-up choice takes the local-storage map and `navigator.language` as inputs.
- Character and file ids from `crypto.randomUUID()` are parameters.

The code behaves as follows in places where a reader might expect otherwise; the model
follows the code:

- An export whose selected characters have no files at all still builds and saves an
  archive; it holds only empty folders.
- `ADD_CHARACTER` builds a record without a `selected` field. The model stores `false`.
  The export dialog's readers of the flag (`ExportDataset.tsx:38` and `:62`) treat the
  missing value as false. The character panel's checkbox does not (see "## Left out").
- The wait for a clip's metadata has no bound:
  the wait at `AudioFileList.tsx:140-155` ends only on a `loadedmetadata` or an `error`
  event. The model assumes one of them always fires (see "## Left out").
- Export progress advances only after a successful fetch (`ExportDataset.tsx:86-91`), so a
  failed fetch leaves the bar short of 100 at the end: one failure out of three files shows
  67. `ExportDataset.FetchedAllIff` proves that every file counts as processed only when no
  fetch failed. `ExportDataset.FailedFetchStopsShort` proves that one failure in an export
  of fewer than 200 files ends below 100.
- `processFiles` has one failure path, the loop's `catch` branch. When `createObjectURL`
  throws, the file counts as processed but no action is dispatched.

## Model

| member | source | states |
|---|---|---|
| AppStateContext.InitialState | beatrice-dataset-generator/src/001_AppStateProvider/AppStateContext.tsx:38-41 | the store starts with no characters and no focused character |
| AppStateContext.Reduce | beatrice-dataset-generator/src/001_AppStateProvider/AppStateContext.tsx:44-119 | only a select or a delete can change the focus; only an add can grow the list, and then by exactly one |
| AppStateContext.AddCharacterAppends | beatrice-dataset-generator/src/001_AppStateProvider/AppStateContext.tsx:46-55 | ADD_CHARACTER appends one character with the given id and name and no files; earlier characters and the focus are unchanged |
| AppStateContext.AddThenDeleteRestores | beatrice-dataset-generator/src/001_AppStateProvider/AppStateContext.tsx:46-63 | adding a character under a fresh id, then deleting that id, gives back the original state |
| AppStateContext.DeleteCharacterRemoves | beatrice-dataset-generator/src/001_AppStateProvider/AppStateContext.tsx:58-63 | exactly the characters with the id disappear; the rest keep their order, and deletion distributes over any split of the list; the focus is cleared iff it was that id |
| AppStateContext.DeleteAbsentCharacterKeepsList | beatrice-dataset-generator/src/001_AppStateProvider/AppStateContext.tsx:58-63 | deleting an id that no character has leaves the list unchanged |
| AppStateContext.UpdateCharacterReplaces | beatrice-dataset-generator/src/001_AppStateProvider/AppStateContext.tsx:65-69 | every character with the payload's id becomes the payload; the others, the length and the focus stay; the update is idempotent |
| AppStateContext.UpdateAbsentCharacterIsNoOp | beatrice-dataset-generator/src/001_AppStateProvider/AppStateContext.tsx:65-69 | an update whose id no character has changes nothing |
| AppStateContext.SelectCharacterSetsFocus | beatrice-dataset-generator/src/001_AppStateProvider/AppStateContext.tsx:71-75 | the focus becomes the payload id, whether or not it exists or is null; the characters are untouched |
| AppStateContext.FileActionSparesOthers | beatrice-dataset-generator/src/001_AppStateProvider/AppStateContext.tsx:77-114 | a file action leaves every character other than the target identical and changes only the target's file list |
| AppStateContext.AddAudioFileAppends | beatrice-dataset-generator/src/001_AppStateProvider/AppStateContext.tsx:77-88 | the file is appended to the target without de-duplication, so the number of files with that name grows by one; other characters and the focus are unchanged |
| AppStateContext.NameCountAppend | beatrice-dataset-generator/src/001_AppStateProvider/AppStateContext.tsx:84 | the count of files with a given name is additive over concatenation |
| AppStateContext.AddThenDeleteAudioFileRestores | beatrice-dataset-generator/src/001_AppStateProvider/AppStateContext.tsx:77-101 | adding a file under an id new to the target, then deleting that file id, gives back the original state |
| AppStateContext.DeleteAudioFileKeepsOrder | beatrice-dataset-generator/src/001_AppStateProvider/AppStateContext.tsx:90-101 | on the target, removal distributes over any split of its file list, so the surviving files keep their order |
| AppStateContext.DeleteAudioFileRemoves | beatrice-dataset-generator/src/001_AppStateProvider/AppStateContext.tsx:90-101 | the target loses exactly its files with that id; other characters and the focus are unchanged |
| AppStateContext.UpdateAudioFileReplaces | beatrice-dataset-generator/src/001_AppStateProvider/AppStateContext.tsx:103-114 | the target's files with the payload's id become the payload, and every file count is kept; other characters are unchanged |
| AppStateContext.UpdateAbsentAudioFileIsNoOp | beatrice-dataset-generator/src/001_AppStateProvider/AppStateContext.tsx:103-114 | an update whose file id the target does not hold changes nothing |
| AppStateContext.UnrecognizedKeepsState | beatrice-dataset-generator/src/001_AppStateProvider/AppStateContext.tsx:116-117 | any other action type returns the state unchanged |
| AppStateContext.Store.constructor | beatrice-dataset-generator/src/001_AppStateProvider/AppStateContext.tsx:150 | the store starts in the initial state |
| AppStateContext.Store.Dispatch | beatrice-dataset-generator/src/001_AppStateProvider/AppStateContext.tsx:150-188 | the new state is the reducer applied to the old state and the action |
| AudioFileList.IsAudio | beatrice-dataset-generator/src/components/AudioFileList.tsx:74 | a file is audio iff its MIME type begins with the six characters `audio/` |
| AudioFileList.AudioOnly | beatrice-dataset-generator/src/components/AudioFileList.tsx:74 | the queued files are exactly the given ones whose MIME type starts with `audio/`; the result is empty iff none does |
| AudioFileList.FindCharacter | beatrice-dataset-generator/src/components/AudioFileList.tsx:53 | it returns the first character with the focused id, or None iff there is none |
| AudioFileList.FindByName | beatrice-dataset-generator/src/components/AudioFileList.tsx:126 | it returns the first index with that name, or None iff no file has it |
| AudioFileList.IngestAction | beatrice-dataset-generator/src/components/AudioFileList.tsx:124-163 | an action is dispatched iff the object URL was created; the payload carries the blob's name, size, URL and probed duration; the action is an update that reuses the id of the first same-named file in the batch-start snapshot; otherwise it is an add with the fresh UUID, and an add happens iff the snapshot has no file of that name |
| AudioFileList.Plan | beatrice-dataset-generator/src/components/AudioFileList.tsx:118-177 | the loop's plan has one slot per attempted file |
| AudioFileList.PlanSlots | beatrice-dataset-generator/src/components/AudioFileList.tsx:124-163 | a slot holds an action iff its file got an object URL |
| AudioFileList.EmptyPlanKeepsState | beatrice-dataset-generator/src/components/AudioFileList.tsx:157-163 | dispatching a plan with no action in it leaves the state unchanged |
| AudioFileList.FailedBatchKeepsState | beatrice-dataset-generator/src/components/AudioFileList.tsx:124-176 | a batch in which no file gets an object URL changes nothing in the store |
| AudioFileList.ApplyPlan | beatrice-dataset-generator/src/components/AudioFileList.tsx:157-163 | the store after each planned action is dispatched in order, empty slots skipped; its properties are ApplyPlanSnoc, EmptyPlanKeepsState, ApplyPlanSparesOthers and ApplyPlanFileCount |
| AudioFileList.ApplyPlanSnoc | beatrice-dataset-generator/src/components/AudioFileList.tsx:118-177 | dispatching one more planned slot applies at most that slot's action on top of the earlier ones |
| AudioFileList.PlanStep | beatrice-dataset-generator/src/components/AudioFileList.tsx:118-177 | one more loop iteration dispatches that file's action, if any, on top of the state so far |
| AudioFileList.Attempted | beatrice-dataset-generator/src/components/AudioFileList.tsx:118-122 | the loop attempts every file, or stops right after the first file during which cancel was pressed; a non-empty batch attempts at least one file |
| AudioFileList.AttemptedUnique | beatrice-dataset-generator/src/components/AudioFileList.tsx:118-122 | that characterisation of how many files are attempted has exactly one solution |
| AudioFileList.BatchRunsToEnd | beatrice-dataset-generator/src/components/AudioFileList.tsx:118-177 | a batch with no cancel attempts every file, and its progress ends at 100 |
| AudioFileList.CancelStopsAfter | beatrice-dataset-generator/src/components/AudioFileList.tsx:118-122 | a cancel pressed during file i stops the batch right after file i |
| AudioFileList.ApplyPlanSparesOthers | beatrice-dataset-generator/src/components/AudioFileList.tsx:157-163 | however far a batch gets, the character count, order and focus stay, characters other than the target are unchanged, and only the target's file list can change |
| AudioFileList.ApplyPlanFileCount | beatrice-dataset-generator/src/components/AudioFileList.tsx:126-163 | the target gains one file per batch file that got a URL and whose name the snapshot lacked; two same-named new files in one batch are both appended |
| AudioFileList.Tenths | beatrice-dataset-generator/src/components/AudioFileList.tsx:208-209 | `toFixed(1)` of n/unit, as a count of tenths: the nearest one, halves rounded up |
| AudioFileList.FormatFileSize | beatrice-dataset-generator/src/components/AudioFileList.tsx:206-210 | the unit is B iff below 1024 bytes, KB iff from 1024 up to but excluding 1024², MB from 1024² up |
| AudioFileList.FormatFileSizeBytes | beatrice-dataset-generator/src/components/AudioFileList.tsx:207 | a size below 1024 bytes is printed as the exact byte count |
| AudioFileList.FormatDuration | beatrice-dataset-generator/src/components/AudioFileList.tsx:213-218 | the label is "--:--" iff the duration is missing or zero |
| AudioFileList.ClockParts | beatrice-dataset-generator/src/components/AudioFileList.tsx:215-216 | minutes and remaining seconds recompose the whole seconds, with fewer than 60 remaining |
| AudioFileList.Clock | beatrice-dataset-generator/src/components/AudioFileList.tsx:217 | for remaining seconds below 60, which the floor of `seconds % 60` always is, the text is minute digits, a colon and two second digits, and it splits back into the two numbers |
| AudioFileList.FormatDurationClock | beatrice-dataset-generator/src/components/AudioFileList.tsx:213-218 | a known non-zero duration prints as minute digits, a colon and exactly two second digits; the two fields read back as the whole seconds, with the seconds field below 60 |
| AudioFileList.ClockFields | beatrice-dataset-generator/src/components/AudioFileList.tsx:217 | digits, a colon and two digits split back into the two digit strings |
| AudioFileList.TwoDigits | beatrice-dataset-generator/src/components/AudioFileList.tsx:217 | seconds below 60, padded to two places with "0", are two digits with that value |
| AudioFileList.PageSlice | beatrice-dataset-generator/src/components/AudioFileList.tsx:263 | a page has at most rowsPerPage rows; row k is file page·rows+k; a page that lies inside the list is full |
| AudioFileList.FirstPagesArePrefix | beatrice-dataset-generator/src/components/AudioFileList.tsx:263 | the first k pages laid end to end are exactly the first k·rows files, so pages neither overlap nor skip |
| AudioFileList.PagesCoverFiles | beatrice-dataset-generator/src/components/AudioFileList.tsx:263 | the ⌈n/rows⌉ pages together show every file once, in order |
| AudioFileList.Component.constructor | beatrice-dataset-generator/src/components/AudioFileList.tsx:40-50 | the panel starts with an empty queue, closed dialog, no upload, progress 0, page 0, 10 rows per page and no pending delete |
| AudioFileList.Component.SelectedCharacter | beatrice-dataset-generator/src/components/AudioFileList.tsx:53 | the panel's character is a listed character with the focused id, and is None iff no listed character has that id |
| AudioFileList.Component.QueueAudio | beatrice-dataset-generator/src/components/AudioFileList.tsx:74-80 | when there are audio files, they become the queue and the dialog opens; otherwise nothing changes |
| AudioFileList.Component.HandleDrop | beatrice-dataset-generator/src/components/AudioFileList.tsx:66-83 | with no focused character or no audio file nothing changes; otherwise the audio files are queued and the dialog opens |
| AudioFileList.Component.HandleFileSelect | beatrice-dataset-generator/src/components/AudioFileList.tsx:86-105 | a null file list, no focused character or no audio file changes nothing; otherwise the audio files are queued and the dialog opens |
| AudioFileList.Component.ProcessFiles | beatrice-dataset-generator/src/components/AudioFileList.tsx:108-182 | with no focus or an empty queue nothing changes; otherwise the store holds exactly the attempted files' actions; progress is the rounded share of attempted files; the cancel flag is whether the last attempted file was cancelled; the queue is empty and the dialog closed; paging and the pending delete are unchanged |
| AudioFileList.Component.RunBatch | beatrice-dataset-generator/src/components/AudioFileList.tsx:111-181 | the loop body against the batch-start snapshot: the actions of the attempted files in order, progress, cancel flag and the final reset |
| AudioFileList.Component.IngestOne | beatrice-dataset-generator/src/components/AudioFileList.tsx:124-176 | one loop pass: the store gains this file's planned action, progress becomes the rounded share of files done, and the cancel flag is whether cancel was pressed during this file |
| AudioFileList.Component.CancelUpload | beatrice-dataset-generator/src/components/AudioFileList.tsx:185-190 | the cancel flag is raised, uploading stops, the queue is emptied and the dialog closes |
| AudioFileList.Component.OpenDeleteDialog | beatrice-dataset-generator/src/components/AudioFileList.tsx:193-195 | the pending delete is the given character and file |
| AudioFileList.Component.HandleDeleteFile | beatrice-dataset-generator/src/components/AudioFileList.tsx:198-203 | a pending delete is dispatched as DELETE_AUDIO_FILE and then forgotten; with none pending nothing changes |
| AudioFileList.Component.CancelDeleteFile | beatrice-dataset-generator/src/components/AudioFileList.tsx:364-370 | the pending delete is forgotten |
| AudioFileList.Component.DisplayedFiles | beatrice-dataset-generator/src/components/AudioFileList.tsx:254-263 | at most rowsPerPage rows; row k is file page·rows+k of the focused character; nothing without a focused character |
| AudioFileList.Component.HandleChangePage | beatrice-dataset-generator/src/components/AudioFileList.tsx:245-247 | the page becomes the requested one |
| AudioFileList.Component.HandleChangeRowsPerPage | beatrice-dataset-generator/src/components/AudioFileList.tsx:249-252 | the page size becomes the chosen one and the table returns to page 0 |
| ExportDataset.SelectionMap | beatrice-dataset-generator/src/components/ExportDataset.tsx:36-39 | every character id is a key, and every key is the id of a character |
| ExportDataset.SelectionMapLastWins | beatrice-dataset-generator/src/components/ExportDataset.tsx:37-39 | when ids repeat, the last character with that id sets the recorded flag |
| ExportDataset.OpenSelectsFlags | beatrice-dataset-generator/src/components/ExportDataset.tsx:34-42 | with unique ids, opening the dialog includes exactly the characters whose own flag is set, in list order |
| ExportDataset.Toggled | beatrice-dataset-generator/src/components/ExportDataset.tsx:45-50 | the toggled id's truthiness flips; the id becomes a key; every other entry is unchanged |
| ExportDataset.ToggleTwice | beatrice-dataset-generator/src/components/ExportDataset.tsx:45-50 | toggling the same character twice gives back the same truthiness everywhere |
| ExportDataset.ToggleKeepsKeys | beatrice-dataset-generator/src/components/ExportDataset.tsx:45-50 | toggling a listed character keeps every key an id of the list |
| ExportDataset.SelectedCount | beatrice-dataset-generator/src/components/ExportDataset.tsx:53 | the number of true entries of the selection record; its properties are SelectedCountBound, SelectedCountZero and ToggleCount |
| ExportDataset.SelectedCountBound | beatrice-dataset-generator/src/components/ExportDataset.tsx:53 | the count of selected characters never exceeds the number of record entries |
| ExportDataset.SelectedCountZero | beatrice-dataset-generator/src/components/ExportDataset.tsx:53 | the count is zero iff no record entry is true |
| ExportDataset.ToggleCount | beatrice-dataset-generator/src/components/ExportDataset.tsx:45-53 | each toggle moves the count by exactly one: down from a selected id, up otherwise |
| ExportDataset.UpdateCount | beatrice-dataset-generator/src/components/ExportDataset.tsx:53 | writing a flag counts the other true entries, plus that id when the flag is true |
| ExportDataset.Included | beatrice-dataset-generator/src/components/ExportDataset.tsx:62 | exactly the characters whose id is truthy in the record are exported, and no more than there are |
| ExportDataset.CountZeroIffNothingIncluded | beatrice-dataset-generator/src/components/ExportDataset.tsx:53-67 | while the record only holds ids of the list, a zero count (export button disabled) holds iff the export would find nothing selected |
| ExportDataset.FileCount | beatrice-dataset-generator/src/components/ExportDataset.tsx:70 | totalFiles is zero iff none of the characters has a file |
| ExportDataset.FileCountMonotone | beatrice-dataset-generator/src/components/ExportDataset.tsx:70 | the running file total never decreases |
| ExportDataset.FetchedIn | beatrice-dataset-generator/src/components/ExportDataset.tsx:79-91 | a character's processed count is at most its file count, and equals it iff every fetch succeeded |
| ExportDataset.Fetched | beatrice-dataset-generator/src/components/ExportDataset.tsx:71-93 | processed files never exceed totalFiles |
| ExportDataset.FetchedAllIff | beatrice-dataset-generator/src/components/ExportDataset.tsx:70-93 | every file counts as processed iff every fetch succeeded |
| ExportDataset.FullExportShowsHundred | beatrice-dataset-generator/src/components/ExportDataset.tsx:87-88 | a fully fetched export with at least one file ends with the bar at 100 |
| ExportDataset.FailedFetchStopsShort | beatrice-dataset-generator/src/components/ExportDataset.tsx:80-91 | one failed fetch in an export of fewer than 200 files leaves the bar below 100 |
| ExportDataset.FolderEntries | beatrice-dataset-generator/src/components/ExportDataset.tsx:79-92 | a folder receives one write per fetched file, exactly the fetched ones |
| ExportDataset.AllEntries | beatrice-dataset-generator/src/components/ExportDataset.tsx:70-79 | listing every file gives totalFiles entries |
| ExportDataset.EntriesMatchProcessed | beatrice-dataset-generator/src/components/ExportDataset.tsx:84-88 | the archive has one entry per processed file, so it agrees with the progress counter |
| ExportDataset.ArchiveEntries | beatrice-dataset-generator/src/components/ExportDataset.tsx:74-93 | the fetched files' archive entries in character order, then file order; its properties are ArchiveEntriesExactly, EntriesMatchProcessed and AllFetchedWritesAll |
| ExportDataset.ArchiveEntriesExactly | beatrice-dataset-generator/src/components/ExportDataset.tsx:74-93 | the archive holds an entry exactly for each fetched file, filed under its character's name |
| ExportDataset.AllFetchedWritesAll | beatrice-dataset-generator/src/components/ExportDataset.tsx:74-93 | when no fetch fails, the archive is every file, in character order then file order |
| ExportDataset.AllFolderWritten | beatrice-dataset-generator/src/components/ExportDataset.tsx:79-92 | when no fetch of a character fails, its folder receives all its files in order |
| ExportDataset.Component.constructor | beatrice-dataset-generator/src/components/ExportDataset.tsx:27-31 | the dialog starts closed, named "dataset", with an empty record, not exporting, progress 0 |
| ExportDataset.Component.OpenDisabled | beatrice-dataset-generator/src/components/ExportDataset.tsx:110 | the page's export button is enabled iff there is at least one character |
| ExportDataset.Component.ExportDisabled | beatrice-dataset-generator/src/components/ExportDataset.tsx:169 | the dialog's export button is disabled iff an export is running or no record entry is true |
| ExportDataset.Component.HandleOpen | beatrice-dataset-generator/src/components/ExportDataset.tsx:34-42 | the record becomes every character's flag keyed by id, and the dialog opens |
| ExportDataset.Component.HandleToggleCharacter | beatrice-dataset-generator/src/components/ExportDataset.tsx:45-50 | the record becomes the toggled record |
| ExportDataset.Component.SetExportFileName | beatrice-dataset-generator/src/components/ExportDataset.tsx:28 | the file name field holds the typed name |
| ExportDataset.Component.Close | beatrice-dataset-generator/src/components/ExportDataset.tsx:114 | closing is ignored while exporting; otherwise the dialog closes |
| ExportDataset.Component.HandleExport | beatrice-dataset-generator/src/components/ExportDataset.tsx:56-106 | it always ends not exporting with progress 0. With nothing selected, no archive is made and the dialog stays as it was. Otherwise the bar last showed the rounded share of processed files. On success, `name.zip` is saved: one folder per selected character in order, one entry per fetched file; the dialog closes. On failure it reports failure and the dialog stays open |
| ExportDataset.Component.Pack | beatrice-dataset-generator/src/components/ExportDataset.tsx:69-93 | the character loop builds those folders and entries and leaves the bar at the rounded share of processed files |
| ExportDataset.Component.PackFolder | beatrice-dataset-generator/src/components/ExportDataset.tsx:79-92 | the file loop for one character adds its fetched files' entries and keeps the bar in step with the processed count |
| ExportDataset.ExportDisabledIff | beatrice-dataset-generator/src/components/ExportDataset.tsx:53-67 | while the record only holds ids of the list, the export button is disabled iff an export is running or the export would find nothing selected |
| I18n.LanguagesWellFormed | beatrice-dataset-generator/src/utils/i18n.ts:34-63 | there are 28 codes, each listed once; they are exactly the codes with translation resources, and the fallback is one of them |
| I18n.PrimarySubtag | beatrice-dataset-generator/src/utils/i18n.ts:75 | the primary subtag is a hyphen-free prefix of the tag, followed by a hyphen or the end |
| I18n.PrimarySubtagUnique | beatrice-dataset-generator/src/utils/i18n.ts:75 | that is the only such prefix |
| I18n.Saved | beatrice-dataset-generator/src/utils/i18n.ts:69 | the saved value is present iff storage has the key, and is then the stored string |
| I18n.GetUserLanguage | beatrice-dataset-generator/src/utils/i18n.ts:68-82 | the start-up language is always a supported code: the saved value, the browser's primary subtag or English |
| I18n.SavedChoiceWins | beatrice-dataset-generator/src/utils/i18n.ts:69-72 | a supported saved choice wins over any browser tag |
| I18n.NoEmptyCode | beatrice-dataset-generator/src/utils/i18n.ts:34-63 | the empty string is not a code, so the falsy check on the saved value changes nothing |
| I18n.UnsupportedSavedDefers | beatrice-dataset-generator/src/utils/i18n.ts:74-81 | a missing or unsupported saved value leaves the choice to the browser's primary subtag if supported, else English |
| I18n.RegionalTagPicksLanguage | beatrice-dataset-generator/src/utils/i18n.ts:75-78 | a regional tag such as "pt-BR" picks its language when nothing supported is saved |
| I18n.LanguageSettings.constructor | beatrice-dataset-generator/src/utils/i18n.ts:172 | i18next starts in the start-up choice, which is supported |
| I18n.LanguageSettings.ChangeLanguage | beatrice-dataset-generator/src/utils/i18n.ts:180-183 | the rendered language becomes the chosen one, and storage holds it under "language" |
| I18n.ChoiceSurvivesReload | beatrice-dataset-generator/src/utils/i18n.ts:68-72 | after a change, the next start-up chooses the same language whatever the browser says |
| CharacterList.Trim | beatrice-dataset-generator/src/components/CharacterList.tsx:34 | trimming never lengthens the name |
| CharacterList.TrimStart | beatrice-dataset-generator/src/components/CharacterList.tsx:34 | drops exactly the leading white space: the result is a suffix that does not start with white space |
| CharacterList.TrimEnd | beatrice-dataset-generator/src/components/CharacterList.tsx:34 | drops exactly the trailing white space: the result is a prefix that does not end with white space |
| CharacterList.TrimIsInnerSlice | beatrice-dataset-generator/src/components/CharacterList.tsx:34-35 | the trimmed name is the slice between the outer white space; everything cut is white space, and the result has no white space at either end |
| CharacterList.TrimSlice | beatrice-dataset-generator/src/components/CharacterList.tsx:34 | the trimmed name is the slice of the name that starts after its leading white space |
| CharacterList.TrimCutIsWhitespace | beatrice-dataset-generator/src/components/CharacterList.tsx:34 | every character cut off at either end is white space |
| CharacterList.TrimEdges | beatrice-dataset-generator/src/components/CharacterList.tsx:34 | a non-empty trimmed name neither starts nor ends with white space |
| CharacterList.TrimEmptyIff | beatrice-dataset-generator/src/components/CharacterList.tsx:34 | a name trims to nothing iff it is all white space |
| CharacterList.TrimIdempotent | beatrice-dataset-generator/src/components/CharacterList.tsx:35 | trimming a trimmed name changes nothing |
| CharacterList.AddCommand | beatrice-dataset-generator/src/components/CharacterList.tsx:33-39 | an add happens iff the name has a character that is not white space, and then it adds the trimmed name |
| CharacterList.DeleteCommand | beatrice-dataset-generator/src/components/CharacterList.tsx:48-53 | a delete happens iff the pending id is neither null nor empty, and then it deletes that id |
| CharacterList.AddedCharacterFromPanel | beatrice-dataset-generator/src/components/CharacterList.tsx:33-39 | a character added from the panel is appended unchecked, with no files, under a non-empty name with no outer white space; the focus is kept |
| CharacterList.SelectHighlightsClicked | beatrice-dataset-generator/src/components/CharacterList.tsx:56-58 | clicking a row highlights exactly the rows with that id |
| CharacterList.DeleteKeepsHighlightRule | beatrice-dataset-generator/src/components/CharacterList.tsx:48-53 | deleting the focused character leaves no row highlighted; deleting another keeps the highlight on the same rows |
| CharacterList.ConfirmDeleteRemovesPending | beatrice-dataset-generator/src/components/CharacterList.tsx:48-53 | confirming removes exactly the characters with the pending id, and clears the focus iff it was that id |
| CharacterList.SaveDisabledIff | beatrice-dataset-generator/src/components/CharacterList.tsx:33-39 | the save button is disabled iff pressing it would add nothing |
| CharacterList.Component.constructor | beatrice-dataset-generator/src/components/CharacterList.tsx:28-30 | the panel starts with an empty name, the add dialog closed and nothing pending |
| CharacterList.Component.SaveDisabled | beatrice-dataset-generator/src/components/CharacterList.tsx:131 | the save button is disabled iff the typed name is all white space |
| CharacterList.Component.DeleteDialogOpen | beatrice-dataset-generator/src/components/CharacterList.tsx:138 | the delete dialog is open iff confirming would dispatch a delete |
| CharacterList.Component.Row | beatrice-dataset-generator/src/components/CharacterList.tsx:96-100 | the checkbox shows the character's flag; a listed row is highlighted iff it has the id of the character the audio panel shows |
| CharacterList.Component.OpenAddDialog | beatrice-dataset-generator/src/components/CharacterList.tsx:77 | the add dialog opens |
| CharacterList.Component.CloseAddDialog | beatrice-dataset-generator/src/components/CharacterList.tsx:114-130 | the add dialog closes; the typed name is kept |
| CharacterList.Component.SetNewCharacterName | beatrice-dataset-generator/src/components/CharacterList.tsx:126 | the name field holds the typed text |
| CharacterList.Component.HandleAddCharacter | beatrice-dataset-generator/src/components/CharacterList.tsx:33-39 | a blank name changes nothing; otherwise the trimmed name is added, the field cleared and the dialog closed |
| CharacterList.Component.OpenDeleteDialog | beatrice-dataset-generator/src/components/CharacterList.tsx:42-45 | the clicked id becomes the pending delete |
| CharacterList.Component.HandleDeleteCharacter | beatrice-dataset-generator/src/components/CharacterList.tsx:48-53 | a truthy pending id is deleted and then forgotten; otherwise nothing changes |
| CharacterList.Component.CancelDelete | beatrice-dataset-generator/src/components/CharacterList.tsx:138-144 | the pending delete is forgotten |
| CharacterList.Component.HandleSelectCharacter | beatrice-dataset-generator/src/components/CharacterList.tsx:56-58 | the clicked id becomes the focus |
| Percent.Progress | beatrice-dataset-generator/src/components/AudioFileList.tsx:167 | the percentage is at most 100 and is the nearest integer to 100·p/t, halves rounded up |
| Percent.ProgressMonotone | beatrice-dataset-generator/src/components/ExportDataset.tsx:88 | more work done never shows less progress |
| Percent.ProgressFull | beatrice-dataset-generator/src/components/AudioFileList.tsx:167 | the bar shows 100 iff at most half a percent of the work is missing |
| Percent.ProgressEnds | beatrice-dataset-generator/src/components/AudioFileList.tsx:167 | all work done shows 100; none done shows 0 |
| Decimal.NatToString | beatrice-dataset-generator/src/components/AudioFileList.tsx:207 | a number renders as one or more digits without a leading zero |
| Decimal.ValueOfNatToString | beatrice-dataset-generator/src/components/AudioFileList.tsx:207 | reading the rendering of n back gives n |
| Decimal.PadStart | beatrice-dataset-generator/src/components/AudioFileList.tsx:217 | padding keeps the text at the end and fills the front up to the width |
| Seqs.Filter | beatrice-dataset-generator/src/001_AppStateProvider/AppStateContext.tsx:61 | filter keeps exactly the elements satisfying the predicate and never lengthens the list |
| Seqs.FilterAppend | beatrice-dataset-generator/src/001_AppStateProvider/AppStateContext.tsx:61 | filtering distributes over concatenation, so survivors keep their relative order |
| Seqs.FilterKeepsAll | beatrice-dataset-generator/src/001_AppStateProvider/AppStateContext.tsx:97 | nothing is dropped when every element passes |
| Seqs.FilterIdempotent | beatrice-dataset-generator/src/components/AudioFileList.tsx:74 | filtering twice by the same predicate is filtering once |

## Left out

- Rendering (JSX, Material UI, drag-over styling) is not modelled. Of the view, only the
  row highlight, the checkbox and the button and dialog conditions are kept, as functions.
- Clip playback (`togglePlayAudio`) is not modelled. It drives the browser's audio element
  and changes no application state.
- The browser's effects are oracles, not models: `URL.createObjectURL`, the metadata probe,
  `fetch`/`blob`, JSZip's `generateAsync` and `saveAs`. The oracles say only whether each
  call succeeded and what it returned.
- `crypto.randomUUID()` is a parameter. The model does not assume its ids are unique; the
  lemmas that need a fresh id say so in their `requires`.
- JSZip's own semantics are not modelled. The archive is the ordered list of folder and
  file writes, without JSZip's merging of equal folder names or overwriting of equal
  paths. `zip.folder` never returns null, so the `if (!folder) continue` branch is not
  modelled.
- `await`, `setTimeout` and React's batching of state updates are reduced to sequential
  steps. The cancel press is modelled as happening during the loop's awaits on a file,
  which only a file that got an object URL reaches.
- User events between the loop's awaits are not modelled. Once cancel closes the dialog
  (`AudioFileList.tsx:185-190`), the page accepts input while the current file's awaits
  finish. A new drop and "Add" then start a second `processFiles`, which resets the cancel
  flag (line 112), so the first loop goes on through the batch it was cancelled on. The
  model runs one batch at a time and does not capture two interleaved batches.
- AudioFileList.Component.ProcessFiles: assumes every metadata probe settles, with a
  duration or an error. The source waits for the `loadedmetadata` or `error` event with no
  timeout (`AudioFileList.tsx:140-155`). If neither fires, the batch stalls on that file:
  no later file is processed and the final reset never runs. The model does not capture
  this stall.
- The character panel's checkbox for a character added from the panel is not modelled as
  rendered. The source passes `checked={character.selected}` with the field absent, which
  gives an uncontrolled checkbox. `Row` reports `false` there.
- ProcessFiles sets the duration on the payload when it builds it. The source assigns
  `audioFile.duration` in the metadata callback; the value is the same.
- The file input reset after picking, and `event.preventDefault`/`stopPropagation`, are
  not modelled.
- `console.log`/`console.error` and the `alert` are not modelled. The alert appears only
  as the `NothingSelected` result.
- The export dialog's text field is modelled only as the stored file name; the name is not
  validated, as in the source.
- Storage and `navigator.language` are inputs, not modelled global state; i18next's own
  language resolution inside `changeLanguage` is not modelled.
- `toggleCharacterSelection`, which CharacterList calls from its checkbox, is not defined by
  the store, so the checkbox's click handler is not modelled.
- The context plumbing (`createContext`, `useAppState`, the provider's wrapper functions) is
  collapsed into `Store.Dispatch` with the matching action.
- Percent.Progress: computes exactly the rounded value of 100·p/t; it does not model the
  floating-point rounding of `(p / t) * 100` before `Math.round`, which can differ at
  exact halves.
- AudioFileList.Tenths: is exact for byte sizes below 2^53, where dividing by a power of
  two is exact in floating point.
- AudioFileList.FormatDurationClock: is stated for finite non-negative durations; NaN and
  Infinity from the metadata probe are not modelled.
- AudioFileList.Component.HandleChangeRowsPerPage: takes the parsed page size as a natural
  number; `parseInt` of the select's value is not modelled.
- The application shell (`App.tsx`, `main.tsx`, `MainLayout.tsx`), the lint configuration
  and the locale-update script are not part of this model.
