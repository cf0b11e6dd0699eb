# FileScanner, modelled in Dafny

FileScanner is a desktop tool that finds duplicate files. The user picks
folders. A background thread walks them and hashes every file with SHA-256.
It sends one `(digest, path)` signal per file back to the main window. The
window files the paths into a dictionary keyed by digest. When the counter
of received results reaches the total counted before the scan, the window:

- shows the buckets with more than one path as numbered, coloured groups in
  a table;
- fills three stat cards: files scanned, duplicate groups, and files that
  could be reclaimed.

The user can tick rows and then delete or move those files.

The model has six modules:

- `ScanResults`: one `(digest, path)` result. A digest is *truthy* unless it
  is absent or empty.
- `GroupIndex`: the `duplicates` dictionary and the two figures computed from
  it.
  - The dictionary is an `Index` of the insertion-ordered `keys` and the
    `buckets` map.
  - `Build` folds one insertion per result.
  - `DuplicateBuckets`, `GroupCount` and `Reclaimable` are the table's groups
    and the two card figures.
- `Table`: `populate_table` as a method over an `Index`, proved equal to
  `Layout`, a reference definition of the table. Lemmas then give the
  table's shape.
- `Actions`: `any_files_selected` and the row loop shared by
  `delete_selected_files` and `move_selected_files`. Rows are visited from
  the last one down. Every checked row is attempted and removed. Successes
  are counted.
- `ScanThread`: `ScanThread.run` as three nested loops, proved to emit
  exactly `Emitted(AllPaths(...))` and to count `TotalFiles`.
- `Window`: the `FileScanner` window as a class whose fields are the
  program's state:
  - the folder list;
  - `files_scanned` and `total_files`;
  - the dictionary;
  - `total_duplicate_files`;
  - the table rows;
  - the three card values.

  A ghost field `received` keeps the results delivered since the scan
  started. `Valid()` says that the dictionary is `Build(received)` and the
  counter is `|received|`.

Operating-system services are parameters:

- `walk` for `os.walk`: the same listing in both passes;
- `join` for `os.path.join`;
- `hash` for `get_file_hash`: returns a digest or `None`. Its third
  outcome, `RaisesOSError`, stands for reaching the `except OSError`
  handler in `run` (lines 376-377). `get_file_hash` as written never gets
  there: everything in it that can raise `OSError` sits inside its own
  `try`, whose handler returns `None` (lines 383-389);
- `size` for `os.path.getsize`;
- `attempt(i)` for whether `os.remove` or `shutil.move` succeeds on the file
  of row `i`.

The folder dialog's answer is a string parameter. Message boxes become the
`Report` value that states which box would be shown. The one exception is
`NoTargetFolder`: a cancelled target dialog returns without any box (lines
317-319).

Three behaviours of the code that a reader might not expect, all kept in
the model:

- **A scan with no file never completes.** Completion is checked only inside
  `process_scan_result` (lines 229-243). That method runs once per result, so
  it never runs when the folders hold no file. `Window.FileScanner.ScanFolders`
  proves that completion fires exactly when `total_files > 0` and no hashing
  raised. No hashing raises in the code as written (`ScanThread.NoneRaised`).
  So, with a file system that does not change during the scan, completion
  fires exactly when `total_files > 0`.
- **Folders are not de-duplicated.** `select_folders` appends the chosen
  folder without looking for it in the list (lines 194-201). The same folder
  can then be scanned twice, and its paths land twice in the same bucket.
- **The table and cards are not reset when a scan starts.** `scan_folders`
  resets only the dictionary and the counters (lines 214-219). The table and
  the three cards keep the previous scan's values until the next completion.

## Model

| member | source | states |
|---|---|---|
| ScanResults.Truthy | FileScanner.py:231 | the test `if file_hash:`: a digest is filed unless it is absent or the empty string |
| GroupIndex.Insert | FileScanner.py:231-234 | filing one result: a falsy digest leaves the dictionary as it was. A truthy digest's bucket becomes its previous contents (empty if new) with the path appended at the end |
| GroupIndex.InsertValid | FileScanner.py:231-234 | filing one result keeps the dictionary well formed: keys distinct, keys exactly the map's domain, no bucket empty. Earlier keys keep their order. A key is added exactly for a new truthy digest |
| GroupIndex.BuildValid | FileScanner.py:216 | the dictionary built from any sequence of results, starting from `{}`, is well formed |
| GroupIndex.BuildSnoc | FileScanner.py:229-234 | the dictionary after one more result is the previous dictionary with that result filed |
| GroupIndex.BuildStep | FileScanner.py:229-234 | filing a result into a well-formed dictionary built from `rs` gives the well-formed dictionary built from `rs` plus that result |
| GroupIndex.InsertValues | FileScanner.py:231-234 | how `duplicates.values()` changes: unchanged for a falsy digest; one new one-path bucket at the end for a new digest; the path appended to exactly the existing bucket of that digest |
| GroupIndex.DuplicateBuckets | FileScanner.py:241 | the buckets with more than one path, in insertion order; never more of them than buckets |
| GroupIndex.DupAtLeastTwo | FileScanner.py:241 | every bucket kept as a duplicate group holds two or more paths |
| GroupIndex.GroupCount | FileScanner.py:241 | the "Duplicate Groups" figure, the number of buckets with more than one path; at most the number of buckets |
| GroupIndex.Reclaimable | FileScanner.py:237 | the "Duplicate Files" figure, the sum over buckets with more than one path of their size minus one; never more than the paths filed |
| GroupIndex.ReclaimablePlusGroups | FileScanner.py:237-241 | reclaimable files plus duplicate groups equals the number of paths in duplicate groups |
| GroupIndex.ReclaimableAtLeastGroups | FileScanner.py:237-241 | there are never fewer reclaimable files than duplicate groups |
| GroupIndex.NoGroups | FileScanner.py:237-241 | both card figures are 0 exactly when no bucket holds two or more paths (both directions) |
| GroupIndex.BucketPartition | FileScanner.py:237-241 | with no empty bucket, every path is either in a duplicate group or in a single-path bucket |
| GroupIndex.BuildMembers | FileScanner.py:229-234 | the buckets together hold one path per result with a truthy digest: their total size plus the results with a falsy digest equals the results received |
| GroupIndex.BuildBuckets | FileScanner.py:229-234 | a digest is a key exactly when it is non-empty and some result carried it. Its bucket is exactly the paths that arrived with that digest, in arrival order, so every member of a group has the group's digest |
| GroupIndex.PathsWithMember | FileScanner.py:231-234 | a path in the paths filed under a digest came with a result carrying that digest |
| GroupIndex.OneBucketPerPath | FileScanner.py:229-234 | when all results for one path carry the same digest, no path sits in two buckets |
| GroupIndex.ScanAccounting | FileScanner.py:229-241 | paths in duplicate groups, plus unique files, plus results with a falsy digest, equal the results received. The buckets never hold more paths than results received |
| GroupIndex.ThreeFileBuild | FileScanner.py:229-234 | results a.txt, b.txt (the same digest) and c.txt build the dictionary with one two-path bucket and one one-path bucket, in arrival order |
| GroupIndex.ThreeFileFigures | FileScanner.py:237-241 | that dictionary shows one group \[a.txt, b.txt\], one duplicate group, one reclaimable file and one single |
| Table.Colour | FileScanner.py:247-252 | the colour index of a group is always a valid index into the four-colour palette |
| Table.PopulateTable | FileScanner.py:245-283 | the rows built by walking the buckets in insertion order are exactly `Layout` of the dictionary's values |
| Table.AddGroupRows | FileScanner.py:253-282 | one group's loop appends one row per path, in bucket order, with that group's id and colour |
| Table.LayoutLength | FileScanner.py:250-253 | the table has exactly as many rows as there are paths in duplicate groups |
| Table.LayoutRowShape | FileScanner.py:252-279 | every row has: a group id between 1 and the number of groups; the colour `(id - 1) % 4`; an unchecked checkbox; the size of its own path divided by 1024 |
| Table.LayoutIdEnds | FileScanner.py:248-283 | the table is empty exactly when there is no duplicate group. Otherwise the first row has id 1 and the last row the number of groups |
| Table.LayoutIdsConsecutive | FileScanner.py:248-283 | from one row to the next, the group id stays the same or goes up by one |
| Table.LayoutGroupPaths | FileScanner.py:250-283 | the rows with id `g` list exactly the paths of the `g`-th duplicate bucket, in bucket order. No other id occurs |
| Actions.AnyFilesSelected | FileScanner.py:344-353 | the answer is true exactly when some row has a checkbox and it is ticked. Rows without a checkbox are skipped |
| Actions.RemoveCheckedRows | FileScanner.py:290-304 | the table left is the unchecked rows in order. The files attempted are the checked rows' paths from the last row up. The count is the checked rows whose attempt succeeded |
| Actions.UncheckedAppend | FileScanner.py:291-304 | removing checked rows commutes with concatenation, so surviving rows keep their order |
| Actions.UncheckedExact | FileScanner.py:291-304 | no survivor is checked; every unchecked row survives; survivors plus checked rows are all the rows |
| Actions.NothingChecked | FileScanner.py:291-304 | with no checked row, nothing is removed and nothing is attempted |
| Actions.SuccessesBound | FileScanner.py:299-304 | the reported count is at most the number of checked rows, and equal to it when every attempt succeeds. One attempt is made per checked row |
| ScanThread.TotalFiles | FileScanner.py:218 | `total_files`, the number of file names `os.walk` lists over all folders. It is 0 exactly when no folder's walk lists a file |
| ScanThread.Run | FileScanner.py:364-379 | the counter ends at the total of `os.walk` over all folders. The results emitted are, in walk order, one per path whose hashing did not raise |
| ScanThread.ScanWalk | FileScanner.py:369-379 | one folder's walk: counter and results as in `Run`, over that walk's triples |
| ScanThread.ScanFiles | FileScanner.py:370-377 | one directory: one count per file. A result `(digest, join(root, file))` is emitted unless hashing raised |
| ScanThread.EmittedAppend | FileScanner.py:368-377 | results for concatenated path lists are the concatenated results |
| ScanThread.EmittedDigests | FileScanner.py:372-375 | every result is a visited path paired with the digest `get_file_hash` returns for that path |
| ScanThread.AllPathsLength | FileScanner.py:366-371 | the scan visits exactly `total_files` paths |
| ScanThread.EmittedCount | FileScanner.py:373-377 | results emitted plus paths whose hashing raised equals the paths visited |
| ScanThread.NoneRaised | FileScanner.py:381-389 | a `hash` that never raises, as `get_file_hash` is written, gives a raised count of 0 over any paths |
| ScanThread.EmittedNoneRaised | FileScanner.py:373-375 | when no hashing raises, the i-th result is the i-th path with its digest, absent digests included |
| Window.FileScanner.constructor | FileScanner.py:38-40 | a new window has no folder, an empty table, every card at 0, and an empty, well-formed dictionary |
| Window.FileScanner.SelectFolders | FileScanner.py:194-201 | a non-empty dialog answer is appended to the folder list, even when already present. A cancelled dialog changes nothing |
| Window.FileScanner.RemoveSelectedFolder | FileScanner.py:203-207 | the selected folder is removed, keeping the others in order. With no selection nothing changes |
| Window.FileScanner.ResetScan | FileScanner.py:214-219 | an empty dictionary; counter and reclaimable count at 0; the total counted over the walk. Folders, table and cards unchanged |
| Window.FileScanner.ProcessScanResult | FileScanner.py:229-243 | the result is counted and filed, and the dictionary stays the one built from the results received. Completion happens exactly when the counter reaches the total. It then sets the table to `Layout` of the values and the cards to the counter and the two figures; otherwise they keep their values |
| Window.FileScanner.Record | FileScanner.py:230-234 | the counter goes up by one. The three cases of filing a digest: falsy ignored; new key appended with a one-path bucket; existing bucket extended |
| Window.FileScanner.Complete | FileScanner.py:236-242 | the reclaimable count, the table and the three cards are set to the figures of the current dictionary |
| Window.FileScanner.DeliverResults | FileScanner.py:229-243 | delivering results in order fires completion on the result whose count equals the total, and only there. The final dictionary is built from all results received. After completion the reclaimable count, table and cards are the final dictionary's figures; without it they keep their values |
| Window.FileScanner.ScanFolders | FileScanner.py:209-224 | with no folder nothing changes. Otherwise the dictionary is built from the thread's results, and no path sits in two buckets. Completion fires only on the last result, and fires exactly when there is at least one file and no hashing raised. The reclaimable count, table and cards are then the figures of the final dictionary. Otherwise the reclaimable count is 0 and the table and cards are unchanged |
| Window.ScanBucketsDisjoint | FileScanner.py:229-234 | after a scan no path sits in two buckets, since every result for a path carries that path's digest |
| Window.FiresOnce | FileScanner.py:229-243 | completion is reached exactly when the total is positive and no result is missing, and then on the last result |
| Window.FileScanner.DeleteSelectedFiles | FileScanner.py:285-310 | with nothing checked: "no files selected", nothing attempted. Otherwise the checked rows are removed, their files attempted from the last row up, and the successes reported |
| Window.FileScanner.MoveSelectedFiles | FileScanner.py:312-342 | as for delete, after the selection check. A cancelled target dialog returns with nothing attempted and nothing removed |

## Left out

- Widgets, layout, styling, the window icon and the PyInstaller path: presentation only.
- Message boxes: `Report` records which box `delete_selected_files` and `move_selected_files` would show. The exception is `NoTargetFolder`, which records a cancelled target dialog that shows no box. The "Scan Complete" box is the completion branch itself.
- Progress reporting (`update_progress`, the `progress` signal, the integer percentage): floating-point display that does not change the core's state.
- Concurrency: `ScanThread.run` runs to its end, and then its results are delivered in order. The lists and the dictionary are shared only by reference inside the window; aliasing with the thread's folder list is not modelled.
- Window.FileScanner.ScanFolders: assumes that `os.walk` gives the same listing in both passes. If the file system changes during the scan, completion can fire early or never, and this is not captured. It also assumes that `hash` gives each path one digest for the whole scan. `Window.ScanBucketsDisjoint` and the `OneBucketEach(Groups())` ensures rest on that. A path is visited twice when a folder is selected twice or two selected folders are nested. If the file changes between the two visits, the program puts the path into two buckets, and this is not captured.
- SHA-256 and file reading: `get_file_hash` is the `hash` parameter, so digests are uninterpreted strings. Content equality is not modelled.
- The file-name column (`os.path.basename`) and the move destination (`os.path.join(target_folder, ...)`): these are display and path strings outside the core. `attempt(i)` stands for the whole file operation.
- `os.path.getsize` raising inside `populate_table`: `size` is total, so a file that vanishes before the table is built is not modelled.
- The error `print`s in `run`, `delete_selected_files` and `move_selected_files`: output only.
- `file_hashes`: assigned at line 215 and never read.
- Window.FileScanner.constructor: initialises the scan counters, the dictionary and the reclaimable count. The program creates them at the first scan instead; before that, no method of the model reads them.
- The row loops of `ScanThread.run` and `populate_table` are split into one method per loop level. The sequence of operations is the same.
