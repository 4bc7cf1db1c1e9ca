# File Collector, modelled in Dafny

File Collector is a desktop tool that keeps named projects. A project lists folders to collect, ignore lists and an output location. Its collection run walks each configured folder in turn and skips ignored subfolders, file names and extensions. Every other readable file becomes one record, `File: <path>\n<content>\n\n`, and the records are written across numbered output documents `output_1.txt`, `output_2.txt`, ... . Before each record the writer checks the size: when the bytes already in the open document plus the record's UTF-8 size exceed `max_file_size` KB, it closes the document and opens the next one.

This project models that run and the project operations around it:

- `seqs.dfy` and `wrappers.dfy`: generic sequence facts and an `Option` type.
- `str_ops.dfy` (`StrOps`): the Python string operations the program relies on:
  - `str.strip()`;
  - `str.split(",")` and `",".join(...)`;
  - `str(n)` and `int(s)` on the integers `str` writes.
- `path_ops.dfy` (`PathOps`): `os.path.join` and `os.path.splitext` for POSIX paths.
- `exclusion.dfy` (`Exclusion`): the two skip tests of a run.
- `dir_walk.dfy` (`DirWalk`): a top-down `os.walk` over a directory tree, with `dirs` pruned in place.
- `ignore_lists.dfy` (`IgnoreLists`): how saving turns each comma-separated ignore field into a list, and how loading turns the list back into text.
- `chunking.dfy` (`Chunking`): how records are laid out over documents.
  - The function `PlaceAll` is the specification of the layout.
  - The class `ChunkWriter` holds a run's writing state: `collected_size` (in bytes), `file_index`, `output_file_paths` and the document texts.
  - `ChunkWriter.Write` is proved to follow `PlaceAll` one record at a time.
- `collector.dfy` (`Collector`): the projects and the application state.
  - The class `FileCollectorApp` has the operations to create, delete, load and save a project and to run a collection.
  - The run's loops are methods proved against the function `CollectionRun`.

The environment is given to the model as parameters:

- The filesystem is a map from each configured folder to its directory tree.
- Reading a file is a function from its path to its text, or `None` when opening or decoding fails.
- Whether the first output document can be opened is a flag.
- What the user types or confirms in a dialog is a method argument.

The code differs in a few places from a natural reading of the program's description. The model follows the code:

- Documents go directly under `output_path` as `output_<i>.txt`. There is no `outputs` subdirectory and no project name in the file name (main.py:698-700, 731-733).
- A record is always written whole and never split across documents. A record larger than the budget gets a document of its own (main.py:728-739).
- The output directory is not excluded from the walk. A run whose output lies below a configured folder can read earlier outputs.
- A maximum size that is not an integer is rejected when the project is saved; it does not fall back to 1024 (main.py:604-610).
- A first record larger than the budget leaves `output_1.txt` empty.

## Model

| member | source | states |
|---|---|---|
| StrOps.IsSpace | main.py:616 | The whitespace set `str.strip()` removes: Python's `str.isspace()` for one character |
| StrOps.Strip | main.py:616-618 | The result of `x.strip()` has no whitespace at either end and holds only characters of `x` |
| StrOps.StripKeepsInfix | main.py:616-618 | `x.strip()` is a contiguous piece of `x`, and everything removed around it is whitespace |
| StrOps.StripOfPadded | main.py:616-618 | Stripping whitespace-padded stripped text gives exactly that text back |
| StrOps.JoinWith | main.py:469-471 | `sep.join(parts)`: the parts in order with one separator between neighbours; `SplitOn` and `SplitOnJoinWith` are its inverse |
| StrOps.SplitOn | main.py:617 | `s.split(",")` has at least one piece, no piece holds a comma, and joining the pieces with the comma gives `s` back |
| StrOps.SplitOnJoinWith | main.py:469-471 | Splitting the `,`-join of comma-free pieces gives those pieces back |
| StrOps.SplitOnConcat | main.py:617 | Splitting `a,b` gives the pieces of `a` followed by the pieces of `b` |
| StrOps.DecimalString | main.py:474 | `str(n)` of a natural number is a non-empty run of decimal digits |
| StrOps.DecimalRoundTrip | main.py:474 | Reading back the digits of `str(n)` gives `n` |
| StrOps.DecimalStringInjective | main.py:699 | Different indices have different decimal strings |
| StrOps.IntString | main.py:474 | `str(n)` is non-empty and starts with `-` exactly when `n` is negative |
| StrOps.ParseInt | main.py:605 | `int(s)` succeeds exactly on an optional `-` followed by at least one digit; without the `-` the value is not negative |
| StrOps.IntRoundTrip | main.py:605 | `int(str(n)) == n` for every integer, so the size shown by loading is saved back unchanged |
| PathOps.JoinPath | main.py:714 | `os.path.join(a, b)` ends with `b`; for a relative `b` it starts with `a` and is at most one character longer than `a` and `b` together |
| PathOps.JoinPathShape | main.py:714 | An absolute `b` is the whole result; a relative `b` follows `a` directly when `a` is empty or ends in `/`, and otherwise after exactly one inserted `/` |
| PathOps.JoinPathInjective | main.py:731-733 | Joining two different relative names onto the same directory gives two different paths |
| PathOps.LastDot | main.py:715 | Finds the position of the last `.` in a name, or reports that there is none |
| PathOps.Extension | main.py:715 | `splitext(name)[1]` runs from the last `.` to the end when a non-dot character comes before that dot; otherwise it is empty |
| PathOps.ExtensionOfStemAndSuffix | main.py:715 | A stem with a non-dot character, a dot and a dot-free suffix has the dot and the suffix as its extension |
| PathOps.DotFileHasNoExtension | main.py:715 | A dot-file such as `.bashrc` has an empty extension |
| Exclusion.IsSkippedFile | main.py:715-719 | A file is skipped when its base name is in `ignore_filenames` or its `splitext` extension is in `ignore_filetypes`, both by exact membership |
| Exclusion.IsPrunedDir | main.py:712 | A subdirectory is pruned when its bare name is in `ignore_folders` |
| Exclusion.SkippedByExtension | main.py:715-719 | For a name with a real extension whose base name is not listed, the file is skipped exactly when the dot and the suffix are listed as a file type |
| Exclusion.DotFileExample | main.py:715-719 | `.bashrc` has the empty extension, so `ignore_filetypes` skips it exactly when it holds the empty entry, which no saved list does |
| Exclusion.SuffixExamples | main.py:715 | `file.` has the extension `.`, and `archive.tar.gz` has `.gz` |
| Exclusion.NoGlobbingExample | main.py:716-718 | Matching is exact set membership: `*.py` and `py` skip nothing, while `.py` skips `main.py` |
| DirWalk.Prune | main.py:712 | The subdirectories kept are exactly those whose name is not in `ignore_folders` |
| DirWalk.PruneNothing | main.py:712 | An empty ignore set prunes nothing |
| DirWalk.WalkDir | main.py:710-714 | Every file the walk reaches lies below the subdirectories descended through |
| DirWalk.WalkSubdirs | main.py:710-712 | Files reached through a subdirectory lie strictly below it |
| DirWalk.KeptAreAllowed | main.py:712 | The reference filter keeps only files below no ignored subdirectory |
| DirWalk.PruningDropsIgnoredSubtrees | main.py:710-712 | Pruning `dirs` in place gives exactly the full walk with every file below an ignored subdirectory dropped, in the same order |
| DirWalk.PruningDropsIgnoredKids | main.py:710-712 | The same equality for the walks of the subdirectories of one directory |
| DirWalk.WalkFindsTreeFiles | main.py:710-714 | Without pruning, a visit is walked exactly when the names it went through lead to a directory listing its file, and its path is the `join` of those names |
| DirWalk.KidsFindTreeFiles | main.py:710-714 | The walks of some subdirectories reach exactly the files of those subdirectories |
| DirWalk.InTreeBelow | main.py:710 | A file lying deeper than a directory is a file of one of its subdirectories |
| DirWalk.WalkFindsEveryFile | main.py:709-714 | From a configured folder, the walk without ignored folders reaches exactly the files of the tree, each with the path `os.walk` and `join` give it |
| DirWalk.WalkVisitsEachFileOnce | main.py:709-714 | The walk without ignored folders has exactly one visit per file listed anywhere in the tree |
| DirWalk.KidsVisitEachFileOnce | main.py:710-713 | The walks of some subdirectories have one visit per file of those subdirectories |
| DirWalk.NothingBelowIgnoredFolders | main.py:710-712 | No file below a subdirectory named in `ignore_folders` is reached |
| DirWalk.RootFilesComeFirst | main.py:709-713 | The configured folder's own files are reached first, in listing order, whatever the folder's name |
| DirWalk.PruneKeepsDistinctNames | main.py:712 | Subdirectory names that were distinct are still distinct after pruning |
| DirWalk.WalkRepeatsNoVisit | main.py:709-714 | On a tree a filesystem can hold (no name listed twice in one directory), the walk, with or without ignored folders, reaches every file at most once |
| DirWalk.KidsRepeatNoVisit | main.py:710-714 | The walks of distinctly named subdirectories repeat no visit, and each visit passes through one of them |
| IgnoreLists.Clean | main.py:616-618 | Each kept piece is non-empty and stripped; if no piece held a comma, every entry is a valid ignore entry |
| IgnoreLists.CleanCons | main.py:616-618 | A piece that strips to nothing is dropped; any other piece contributes its stripped form in front of the rest |
| IgnoreLists.CleanAppend | main.py:616-618 | Cleaning works piece by piece, keeping order |
| IgnoreLists.CleanKeepsEntries | main.py:616-618 | Pieces that are already valid entries pass through unchanged |
| IgnoreLists.FormatIgnoreList | main.py:469-471 | Loading shows a list as its entries joined with `,`; `ParseFormatRoundTrip` makes saving its inverse |
| IgnoreLists.ParseIgnoreList | main.py:615-619 | A saved ignore list has no empty entry, no outer whitespace and no comma |
| IgnoreLists.ParseFormatRoundTrip | main.py:615-629 | Saving the text that loading shows for a saved list gives the same list back |
| IgnoreLists.ParseKeepsOrder | main.py:615-619 | The entries of `a,b` are those of `a` followed by those of `b` |
| IgnoreLists.ParseIsIdempotent | main.py:615-629 | Parsing, showing and parsing again gives what the first parse gave |
| Chunking.Record | main.py:723-724 | The record one readable file becomes: `f"File: {file_path}\n{content}\n\n"` |
| Chunking.RecordFormat | main.py:723-724 | A record is the header `File: <path>`, a newline, the content as read, and a blank line: nine characters of framing |
| Chunking.Utf8Length | main.py:725-727 | The UTF-8 size of a string is between one and four bytes per character |
| Chunking.Utf8LengthAppend | main.py:740 | The UTF-8 size of two consecutive writes is the sum of their sizes |
| Chunking.TextsConcat | main.py:739 | Reading the documents one after another gives the records one after another |
| Chunking.Place | main.py:728-740 | One write on the layout: rotate when the open document's bytes plus the record's exceed the budget, then append the record |
| Chunking.PlaceShape | main.py:728-739 | A write rotates exactly when the record does not fit; it then opens one new document holding just the record, otherwise the record ends the open document; closed documents are never touched |
| Chunking.PlaceAppends | main.py:728-740 | A write adds its record after all records so far, and `collected` stays the UTF-8 size of the open document |
| Chunking.PlaceAll | main.py:709-740 | Every record lands in exactly one document, in order, with nothing lost or duplicated; there is always an open document, and `collected` is its size |
| Chunking.PlaceAllSnoc | main.py:713-740 | Writing one more record is one more step of the layout |
| Chunking.RotateKeepsGreedy | main.py:728-738 | Rotating when the record does not fit keeps the rotation rule over the whole layout |
| Chunking.AppendKeepsGreedy | main.py:739-740 | Appending a record that fits keeps the rotation rule over the whole layout |
| Chunking.AppendKeepsClosed | main.py:739 | Appending leaves the closed documents alone, and no document but the first is empty |
| Chunking.AppendKeepsFitted | main.py:728 | After appending a record that fits, every prefix of the open document is within the budget |
| Chunking.PlaceKeepsGreedy | main.py:728-740 | Each write keeps the rotation rule |
| Chunking.PlaceAllIsGreedy | main.py:709-740 | Every reachable layout follows the rotation rule: only the first document can be empty, a document was closed only when the next record did not fit, and every written prefix fitted |
| Chunking.DocumentsWithinBudget | main.py:725-740 | A document exceeds the budget only when it holds a single record that alone exceeds it |
| Chunking.FirstDocumentEmptyIff | main.py:728-738 | The first document stays empty exactly when there is no record or the first record alone exceeds the budget; later documents are never empty |
| Chunking.TextsWithinBudget | main.py:725-740 | Each document's text is within the budget, or is one over-budget record, or is the empty first document |
| Chunking.FirstTextEmptyIff | main.py:728-738 | With non-empty records, the first document's text is empty exactly when no record fitted in it |
| Chunking.DocPaths | main.py:696-701 | There is one path per document |
| Chunking.DocPath | main.py:698-700 | The path of document `i` starts with `output_path` and ends with `output_<i>.txt` |
| Chunking.DocPathsIndex | main.py:729-734 | Entry `i` of the path list is `output_path/output_{i+1}.txt` |
| Chunking.DocPathInjective | main.py:731-733 | Different indices give different document paths |
| Chunking.DocPathsDistinct | main.py:696-734 | No two documents of a run share a path |
| Chunking.DocPathsDiffer | main.py:696-734 | Two given documents of a run have different paths |
| Chunking.PlaceTexts | main.py:728-739 | On rotation the record is the whole text of a new document; otherwise it is appended to the text of the open document |
| Chunking.Step | main.py:728-740 | One write on the writer's fields: on rotation `file_index` goes up by one, the next path is appended and the record starts the new document with `collected` its size; otherwise the record is appended and its size added |
| Chunking.StepWritesRecord | main.py:728-740 | A step keeps `file_index` equal to the number of documents, adds exactly the record to what the documents hold, and appends the path `output_{file_index}.txt` exactly when it rotates |
| Chunking.ViewPlace | main.py:728-740 | Placing a record is one `Step` on the writer's visible state: rotate and open the next path, or append, and update `collected` |
| Chunking.ChunkWriter.constructor | main.py:695-703 | A new writer has `output_1.txt` open and empty, index 1, nothing collected, and one path |
| Chunking.ChunkWriter.Write | main.py:725-740 | Writing a record takes exactly one `Step` of the rotation rule, and the writer keeps following the layout `PlaceAll` specifies |
| Collector.NewProject | main.py:445-454 | Definition: a new project has no folders, empty ignore lists and output path, size 1024, preset `None` and auto-run off |
| Collector.NewProjectSurvivesSave | main.py:445-454 | A new project is already in saved form: loading it into the form and saving it back gives the same project |
| Collector.AsSet | main.py:683-685 | Definition: `set(list)`, the set of the list's entries |
| Collector.HasSelection | main.py:677 | Definition: the negation of `not self.current_project`, so a selection counts only when it is present and not the empty name |
| Collector.Included | main.py:713-722 | Definition: a visited file becomes a record when `IsSkippedFile` rejects it on neither list and reading it succeeds |
| Collector.MaxBytes | main.py:725-728 | Definition: the budget in bytes, `max_file_size` times 1024 |
| Collector.KbComparison | main.py:725-728 | In exact arithmetic, the kilobyte test `collected/1024 + size/1024 > max_file_size` holds exactly when `collected + size` bytes exceed `MaxBytes` |
| Collector.FolderWalk | main.py:710 | The walk of one configured folder; a folder missing from the filesystem yields nothing |
| Collector.Visits | main.py:709-710 | The walks of the configured folders, one after another, in the configured order |
| Collector.Records | main.py:713-724 | A walk yields at most one record per visited file, and no record is empty |
| Collector.RunRecords | main.py:709-724 | The records of a run come from the walks of its configured folders: at most one per visited file, none empty |
| Collector.RecordsAppend | main.py:709-710 | The records of consecutive walks follow one another |
| Collector.RecordsSnoc | main.py:713-742 | A file that is included adds its one record; an ignored or unreadable file adds nothing |
| Collector.VisitsSnoc | main.py:709-710 | Each configured folder's records follow those of the folders before it |
| Collector.RecordsComeFromIncludedVisits | main.py:713-724 | A record is collected exactly when some visited file is not ignored, can be read, and produced it |
| Collector.CollectionRun | main.py:676-744 | What a run ends with: the three early stops in order, or the path list and documents `PlaceAll` gives for the run's records |
| Collector.RunStopsEarly | main.py:676-707 | The run stops before writing in exactly three cases, checked in this order: no project selected, then no folders or no output path, then the first document cannot be opened |
| Collector.CollectedDocuments | main.py:696-744 | A completed run names its documents `output_1.txt`, `output_2.txt`, ..., all different and one per document; the documents read in order give the records in walk order |
| Collector.CollectedWithinBudget | main.py:725-740 | Every document of a completed run is within the budget or is one record over it on its own; the first is empty exactly when there is no record or the first record is too large |
| Collector.CollectedFilesAreAllowed | main.py:709-724 | Every collected record comes from a readable file whose name and extension are not ignored and that lies below no ignored subdirectory |
| Collector.VisitsAreAllowed | main.py:709-712 | The walks of all configured folders reach nothing below an ignored subdirectory |
| Collector.FormOf | main.py:460-478 | Loading shows the project's folders, output path, preset and auto-run as they are |
| Collector.ProjectFromForm | main.py:604-634 | A form can be saved exactly when its size field parses as an integer |
| Collector.LoadThenSaveKeepsProject | main.py:469-474 | Loading a saved project into the form and saving it again gives the same project |
| Collector.SaveIsIdempotent | main.py:600-634 | Whatever a save stores, loading and saving again stores the same |
| Collector.WriteFile | main.py:713-742 | An included file is written as one record, following `PlaceAll`; an ignored or unreadable file leaves the writer's state unchanged |
| Collector.WriteWalk | main.py:710-742 | The loop over one walk leaves the writer laid out as `PlaceAll` of the records so far followed by the walk's records |
| Collector.CollectFolders | main.py:709-742 | The loop over the configured folders leaves the writer laid out as `PlaceAll` of all the run's records |
| Collector.Collect | main.py:695-743 | The run's path list and documents are those of `PlaceAll` over the run's records |
| Collector.FileCollectorApp.constructor | main.py:42-49 | The app starts with the loaded projects, an empty output list and no pending change |
| Collector.FileCollectorApp.CreateNewProject | main.py:435-458 | A cancelled or empty name changes nothing; a name in use is refused; a new name gets the default project, becomes the selection and, its settings being loaded, clears the change flag |
| Collector.FileCollectorApp.DeleteProject | main.py:133-149 | Without a selection nothing happens; unconfirmed, nothing changes; confirmed, exactly the selected project is removed and the selection cleared |
| Collector.FileCollectorApp.LoadProjectSettings | main.py:460-481 | When the selection names a project, the form shows it and the change flag is cleared; otherwise nothing changes |
| Collector.FileCollectorApp.SaveProject | main.py:600-637 | Without a selection or with a non-integer size, nothing is stored; otherwise exactly the selected project is replaced by the form's |
| Collector.FileCollectorApp.RunFileCollection | main.py:676-753 | The result is `CollectionRun`; a completed run stores its path list as `output_files` and clears the change flag; an early stop leaves both alone |

## Left out

- The customtkinter GUI: widgets, tabs, dialogs, message boxes, `root.after` scheduling, the change indicator and the timestamped status text. Dialog answers are method arguments instead.
- The watchdog observer, the file-change handler and the auto-run thread. They are OS event delivery and concurrency.
- The folder-list edits `add_folder` and `remove_folder` (main.py:500-523). They add or remove a folder widget, set `files_changed` and restart file monitoring. The folder list reaches a project only when it is saved, through the form.
- Setting `files_changed` to true. The file-change handler (main.py:31), `add_folder` (main.py:509) and `remove_folder` (main.py:517) do it, and none of them is modelled, so no `FileCollectorApp` method sets `filesChanged`. The model only clears it.
- JSON persistence of projects and presets, copying to the clipboard, opening the output folder, and `apply_preset`. These are I/O or plain field copying.
- Real filesystem access and symlinks. Listing order is the order in the given tree.
- Each configured folder's tree is given on its own, so overlapping folders are not related to each other.
- Errors during the walk, which `os.walk` ignores by default.
- Rotation when the next document cannot be opened. That failure is swallowed by the per-file `except` and leaves a closed handle behind, so every open after the first is taken to succeed.
- Windows path joining; only POSIX `os.path.join` is modelled.
- Newline translation when writing in text mode, and how the platform encodes a path.
- The float rounding of `collected_size`. Sizes are exact byte counts compared against `max_file_size * 1024`. `KbComparison` proves that this is the kilobyte comparison of main.py:725-728 computed exactly, Every size is a whole number of bytes divided by 1024, which a double holds exactly, so the float sums and the comparison are exact while `collected_size` stays below 2^43 KB.
- Failing writes and closes of output documents. An exception from `output_file.write` (main.py:739) is caught by the per-file `except` (main.py:741). That file is then passed over like an unreadable one, without adding to `collected_size`. A failing `output_file.close()` (main.py:743) is outside any `try`, so the run ends without storing `output_files` or clearing `files_changed`. The model takes every write and close to succeed.
- Contents read at different times: the read function is fixed for the whole run.
- StrOps.ParseInt: accepts only an optional `-` followed by ASCII digits. It does not model the whitespace, `+`, underscores or non-ASCII digits that Python's `int` also accepts.
- Collector.FileCollectorApp.constructor: does not select the first loaded project by default (main.py:57-61), because the model's project map has no order. It starts with no selection.
- The `project.get(..., 1024)` fallbacks for keys missing from a stored project. Every project in the model has all its fields.
