/** The state the main window keeps between user actions and scan results:
    the folder list, the scan counters, the `duplicates` dictionary, the
    duplicates table and the three stat cards. */
module Window {
  import opened ScanResults
  import opened GroupIndex
  import opened Table
  import opened Actions
  import opened ScanThread

  class FileScanner {
    var folderPaths: seq<string>
    var filesScanned: nat
    var totalFiles: nat
    /** `duplicates`: its insertion order and its contents. */
    var keys: seq<string>
    var duplicates: map<string, seq<string>>
    var totalDuplicateFiles: nat
    /** The duplicates table. */
    var rows: seq<TableRow>
    /** The values shown on the "Files Scanned", "Duplicate Groups" and
        "Duplicate Files" cards. */
    var shownFilesScanned: nat
    var shownGroups: nat
    var shownDuplicateFiles: nat
    /** The results received since the last scan started. */
    ghost var received: seq<ScanResult>

    /** The dictionary is the one built from the results received, and the
        counter counts them. */
    ghost predicate Valid()
      reads this
    {
      && Index(keys, duplicates) == Build(received)
      && Index(keys, duplicates).Valid()
      && filesScanned == |received|
    }

    /** The `duplicates` dictionary as a value. */
    function Groups(): Index
      reads this
    {
      Index(keys, duplicates)
    }

    /** A fresh window: no folder, an empty table, every card at 0. */
    constructor ()
      ensures Valid()
      ensures folderPaths == [] && rows == [] && received == []
      ensures filesScanned == 0 && totalFiles == 0 && totalDuplicateFiles == 0
      ensures shownFilesScanned == 0 && shownGroups == 0 && shownDuplicateFiles == 0
    {
      folderPaths := [];
      filesScanned, totalFiles, totalDuplicateFiles := 0, 0, 0;
      keys, duplicates := [], map[];
      rows := [];
      shownFilesScanned, shownGroups, shownDuplicateFiles := 0, 0, 0;
      received := [];
    }

    /** `select_folders`: `chosen` is what the folder dialog returned; an
        empty answer (dialog cancelled) adds nothing. Duplicates are kept. */
    method SelectFolders(chosen: string)
      modifies this`folderPaths
      ensures folderPaths == if chosen != "" then old(folderPaths) + [chosen] else old(folderPaths)
    {
      if chosen != "" {
        folderPaths := folderPaths + [chosen];
      }
    }

    /** `remove_selected_folder`: `currentRow` is the folder table's current
        row, -1 when none is selected; the folder table has one row per
        folder, so the row is below the length. */
    method RemoveSelectedFolder(currentRow: int)
      requires currentRow < |folderPaths|
      modifies this`folderPaths
      ensures currentRow >= 0 ==>
        folderPaths == old(folderPaths)[..currentRow] + old(folderPaths)[currentRow + 1..]
      ensures currentRow < 0 ==> folderPaths == old(folderPaths)
    {
      if currentRow >= 0 {
        folderPaths := folderPaths[..currentRow] + folderPaths[currentRow + 1..];
      }
    }

    /** The reset at the start of `scan_folders`: empty dictionary, zero
        counter, and the total counted over the same walk the thread does.
        The table and the cards keep what they show. */
    method ResetScan(walk: string -> seq<WalkEntry>)
      modifies this`keys, this`duplicates, this`filesScanned, this`totalFiles, this`totalDuplicateFiles,
        this`received
      ensures Valid()
      ensures received == [] && filesScanned == 0 && keys == [] && duplicates == map[]
      ensures totalFiles == TotalFiles(folderPaths, walk) && totalDuplicateFiles == 0
      ensures folderPaths == old(folderPaths) && rows == old(rows)
      ensures shownFilesScanned == old(shownFilesScanned) && shownGroups == old(shownGroups)
      ensures shownDuplicateFiles == old(shownDuplicateFiles)
    {
      keys, duplicates := [], map[];
      filesScanned := 0;
      totalFiles := TotalFiles(folderPaths, walk);
      totalDuplicateFiles := 0;
      received := [];
    }

    /** `process_scan_result`: counts the result, files a truthy digest, and
        on the result that brings the counter to the total fills the table
        and the cards. `size` stands for `os.path.getsize`. */
    method ProcessScanResult(fileHash: Option<string>, filePath: string, size: string -> nat)
      returns (completed: bool)
      requires Valid()
      modifies this`filesScanned, this`keys, this`duplicates, this`received, this`totalDuplicateFiles,
        this`rows, this`shownFilesScanned, this`shownGroups, this`shownDuplicateFiles
      ensures Valid()
      ensures received == old(received) + [ScanResult(fileHash, filePath)]
      ensures filesScanned == old(filesScanned) + 1
      ensures !Truthy(fileHash) ==> keys == old(keys) && duplicates == old(duplicates)
      ensures Truthy(fileHash) && fileHash.value in old(duplicates) ==>
        keys == old(keys) &&
        duplicates == old(duplicates)[fileHash.value := old(duplicates)[fileHash.value] + [filePath]]
      ensures Truthy(fileHash) && fileHash.value !in old(duplicates) ==>
        keys == old(keys) + [fileHash.value] && duplicates == old(duplicates)[fileHash.value := [filePath]]
      ensures completed == (filesScanned == totalFiles)
      ensures completed ==>
        && totalDuplicateFiles == Reclaimable(Values(Groups()))
        && rows == Layout(Values(Groups()), size)
        && shownFilesScanned == filesScanned
        && shownGroups == GroupCount(Values(Groups()))
        && shownDuplicateFiles == totalDuplicateFiles
      ensures !completed ==>
        && totalDuplicateFiles == old(totalDuplicateFiles) && rows == old(rows)
        && shownFilesScanned == old(shownFilesScanned) && shownGroups == old(shownGroups)
        && shownDuplicateFiles == old(shownDuplicateFiles)
      ensures folderPaths == old(folderPaths) && totalFiles == old(totalFiles)
    {
      Record(fileHash, filePath);
      completed := filesScanned == totalFiles;
      if completed {
        Complete(size);
      }
    }

    /** The counting and filing part of `process_scan_result`. */
    method Record(fileHash: Option<string>, filePath: string)
      requires Valid()
      modifies this`filesScanned, this`keys, this`duplicates, this`received
      ensures Valid()
      ensures received == old(received) + [ScanResult(fileHash, filePath)]
      ensures filesScanned == old(filesScanned) + 1
      ensures !Truthy(fileHash) ==> keys == old(keys) && duplicates == old(duplicates)
      ensures Truthy(fileHash) && fileHash.value in old(duplicates) ==>
        keys == old(keys) &&
        duplicates == old(duplicates)[fileHash.value := old(duplicates)[fileHash.value] + [filePath]]
      ensures Truthy(fileHash) && fileHash.value !in old(duplicates) ==>
        keys == old(keys) + [fileHash.value] && duplicates == old(duplicates)[fileHash.value := [filePath]]
    {
      ghost var r := ScanResult(fileHash, filePath);
      ghost var ix := Groups();
      var order, dict := keys, duplicates;
      if Truthy(fileHash) {
        var h := fileHash.value;
        if h !in dict {
          order := order + [h];
          dict := dict[h := []];
        }
        dict := dict[h := dict[h] + [filePath]];
        assert h !in ix.buckets ==> dict == ix.buckets[h := [filePath]] by {
          assert [] + [filePath] == [filePath];
        }
      }
      assert Index(order, dict) == Insert(ix, r);
      BuildStep(received, ix, r);
      filesScanned, keys, duplicates := filesScanned + 1, order, dict;
      received := received + [r];
    }

    /** The completion part of `process_scan_result`: the reclaimable count,
        the table, and the three cards. */
    method Complete(size: string -> nat)
      requires Valid()
      modifies this`totalDuplicateFiles, this`rows, this`shownFilesScanned, this`shownGroups,
        this`shownDuplicateFiles
      ensures totalDuplicateFiles == Reclaimable(Values(Groups()))
      ensures rows == Layout(Values(Groups()), size)
      ensures shownFilesScanned == filesScanned
      ensures shownGroups == GroupCount(Values(Groups()))
      ensures shownDuplicateFiles == totalDuplicateFiles
    {
      var ix := Groups();
      var values := Values(ix);
      totalDuplicateFiles := Reclaimable(values);
      rows := PopulateTable(ix, size);
      shownFilesScanned := filesScanned;
      shownGroups := GroupCount(values);
      shownDuplicateFiles := totalDuplicateFiles;
    }

    /** The `result` signals of one scan, delivered in order. Completion
        fires on the result whose count reaches the total, and only there. */
    method DeliverResults(results: seq<ScanResult>, size: string -> nat) returns (fired: seq<bool>)
      requires Valid()
      modifies this`filesScanned, this`keys, this`duplicates, this`received, this`totalDuplicateFiles,
        this`rows, this`shownFilesScanned, this`shownGroups, this`shownDuplicateFiles
      ensures Valid()
      ensures received == old(received) + results
      ensures filesScanned == old(filesScanned) + |results|
      ensures |fired| == |results|
      ensures forall i :: 0 <= i < |results| ==> fired[i] == (old(filesScanned) + i + 1 == totalFiles)
      ensures (forall i :: 0 <= i < |results| ==> !fired[i]) ==>
        && totalDuplicateFiles == old(totalDuplicateFiles)
        && rows == old(rows) && shownFilesScanned == old(shownFilesScanned)
        && shownGroups == old(shownGroups) && shownDuplicateFiles == old(shownDuplicateFiles)
      ensures results != [] && fired[|results| - 1] ==>
        && totalDuplicateFiles == Reclaimable(Values(Groups()))
        && rows == Layout(Values(Groups()), size)
        && shownFilesScanned == filesScanned
        && shownGroups == GroupCount(Values(Groups()))
        && shownDuplicateFiles == Reclaimable(Values(Groups()))
      ensures folderPaths == old(folderPaths) && totalFiles == old(totalFiles)
    {
      fired := [];
      for i := 0 to |results|
        invariant Valid()
        invariant received == old(received) + results[..i]
        invariant filesScanned == old(filesScanned) + i
        invariant |fired| == i
        invariant forall j :: 0 <= j < i ==> fired[j] == (old(filesScanned) + j + 1 == totalFiles)
        invariant !(old(filesScanned) < totalFiles <= old(filesScanned) + i) ==>
          && totalDuplicateFiles == old(totalDuplicateFiles)
          && rows == old(rows) && shownFilesScanned == old(shownFilesScanned)
          && shownGroups == old(shownGroups) && shownDuplicateFiles == old(shownDuplicateFiles)
        invariant i > 0 && fired[i - 1] ==>
          && totalDuplicateFiles == Reclaimable(Values(Groups()))
          && rows == Layout(Values(Groups()), size)
          && shownFilesScanned == filesScanned
          && shownGroups == GroupCount(Values(Groups()))
          && shownDuplicateFiles == Reclaimable(Values(Groups()))
        invariant folderPaths == old(folderPaths) && totalFiles == old(totalFiles)
      {
        assert results[..i + 1] == results[..i] + [results[i]];
        var completed := ProcessScanResult(results[i].hash, results[i].path, size);
        fired := fired + [completed];
      }
      assert results[..|results|] == results;
      if old(filesScanned) < totalFiles <= old(filesScanned) + |results| {
        assert fired[totalFiles - old(filesScanned) - 1];
      }
    }

    /** `scan_folders` with the scan thread run to its end and each of its
        results delivered to `process_scan_result`. With no folder nothing
        happens. Completion fires at most once, on the last result, and
        fires exactly when there is at least one file and no hashing
        raised. */
    method ScanFolders(walk: string -> seq<WalkEntry>, join: (string, string) -> string,
                       hash: string -> HashCall, size: string -> nat)
      returns (started: bool, fired: seq<bool>)
      requires Valid()
      modifies this`filesScanned, this`keys, this`duplicates, this`received, this`totalDuplicateFiles,
        this`rows, this`shownFilesScanned, this`shownGroups, this`shownDuplicateFiles, this`totalFiles
      ensures Valid()
      ensures started == (old(folderPaths) != [])
      ensures !started ==> fired == [] && unchanged(this)
      ensures folderPaths == old(folderPaths)
      ensures started ==> totalFiles == TotalFiles(folderPaths, walk)
      ensures started ==> received == Emitted(AllPaths(folderPaths, walk, join), hash)
      ensures started ==> |fired| == |received|
      ensures started ==> forall i :: 0 <= i < |fired| ==> fired[i] == (i + 1 == totalFiles)
      ensures started ==>
        ((exists i :: 0 <= i < |fired| && fired[i]) <==>
          totalFiles > 0 && Raised(AllPaths(folderPaths, walk, join), hash) == 0)
      ensures started ==> OneBucketEach(Groups())
      ensures started && (exists i :: 0 <= i < |fired| && fired[i]) ==>
        && totalDuplicateFiles == Reclaimable(Values(Groups()))
        && rows == Layout(Values(Groups()), size)
        && shownFilesScanned == totalFiles
        && shownGroups == GroupCount(Values(Groups()))
        && shownDuplicateFiles == Reclaimable(Values(Groups()))
      ensures started && (forall i :: 0 <= i < |fired| ==> !fired[i]) ==>
        && totalDuplicateFiles == 0
        && rows == old(rows) && shownFilesScanned == old(shownFilesScanned)
        && shownGroups == old(shownGroups) && shownDuplicateFiles == old(shownDuplicateFiles)
    {
      if folderPaths == [] {
        return false, [];
      }
      started := true;
      ResetScan(walk);
      var results, _ := Run(folderPaths, walk, join, hash);
      fired := DeliverResults(results, size);
      ghost var paths := AllPaths(folderPaths, walk, join);
      AllPathsLength(folderPaths, walk, join);
      EmittedCount(paths, hash);
      FiresOnce(fired, totalFiles, Raised(paths, hash));
      ScanBucketsDisjoint(paths, hash);
    }

    /** `delete_selected_files`; `attempt(i)` is whether `os.remove`
        succeeds on the file of row `i`, and `attempted` lists the files
        handed to it, in order. */
    method DeleteSelectedFiles(attempt: nat -> bool) returns (report: Report, attempted: seq<string>)
      modifies this`rows
      ensures (forall i :: 0 <= i < |old(rows)| ==> !IsChecked(old(rows)[i])) ==>
        report == NoFilesSelected && rows == old(rows) && attempted == []
      ensures (exists i :: 0 <= i < |old(rows)| && IsChecked(old(rows)[i])) ==>
        && report == Done(Successes(old(rows), attempt, 0))
        && rows == Unchecked(old(rows))
        && attempted == CheckedPathsFromLast(old(rows))
    {
      var any := AnyFilesSelected(rows);
      if !any {
        return NoFilesSelected, [];
      }
      var table, deletedFilesCount;
      table, attempted, deletedFilesCount := RemoveCheckedRows(rows, attempt);
      rows := table;
      report := Done(deletedFilesCount);
    }

    /** `move_selected_files`; `targetFolder` is what the folder dialog
        returned, `attempt(i)` whether `shutil.move` succeeds on the file of
        row `i`. */
    method MoveSelectedFiles(targetFolder: string, attempt: nat -> bool)
      returns (report: Report, attempted: seq<string>)
      modifies this`rows
      ensures (forall i :: 0 <= i < |old(rows)| ==> !IsChecked(old(rows)[i])) ==>
        report == NoFilesSelected && rows == old(rows) && attempted == []
      ensures (exists i :: 0 <= i < |old(rows)| && IsChecked(old(rows)[i])) && targetFolder == "" ==>
        report == NoTargetFolder && rows == old(rows) && attempted == []
      ensures (exists i :: 0 <= i < |old(rows)| && IsChecked(old(rows)[i])) && targetFolder != "" ==>
        && report == Done(Successes(old(rows), attempt, 0))
        && rows == Unchecked(old(rows))
        && attempted == CheckedPathsFromLast(old(rows))
    {
      var any := AnyFilesSelected(rows);
      if !any {
        return NoFilesSelected, [];
      }
      if targetFolder == "" {
        return NoTargetFolder, [];
      }
      var table, movedFilesCount;
      table, attempted, movedFilesCount := RemoveCheckedRows(rows, attempt);
      rows := table;
      report := Done(movedFilesCount);
    }
  }

  /** Completion fires on the result numbered `total`, if it arrives: with
      `raised` results missing, it arrives exactly when there is at least one
      file and none is missing, and then it is the last one delivered. */
  lemma FiresOnce(fired: seq<bool>, total: nat, raised: nat)
    requires |fired| + raised == total
    requires forall i :: 0 <= i < |fired| ==> fired[i] == (i + 1 == total)
    ensures (exists i :: 0 <= i < |fired| && fired[i]) <==> total > 0 && raised == 0
    ensures (exists i :: 0 <= i < |fired| && fired[i]) ==> fired[|fired| - 1]
  {
    if total > 0 && raised == 0 {
      assert fired[|fired| - 1];
    }
  }
  /** After a scan, no path sits in two buckets: all the results for one
      path carry the digest `hash` gives that path. */
  lemma ScanBucketsDisjoint(paths: seq<string>, hash: string -> HashCall)
    ensures OneBucketEach(Build(Emitted(paths, hash)))
  {
    var rs := Emitted(paths, hash);
    EmittedDigests(paths, hash);
    assert forall i, j :: 0 <= i < |rs| && 0 <= j < |rs| && rs[i].path == rs[j].path ==> rs[i].hash == rs[j].hash by {
      forall i, j | 0 <= i < |rs| && 0 <= j < |rs| && rs[i].path == rs[j].path
        ensures rs[i].hash == rs[j].hash
      {
        assert rs[i] in rs && rs[j] in rs;
      }
    }
    var ix := Build(rs);
    forall h1, h2, p | h1 in ix.buckets && h2 in ix.buckets && p in ix.buckets[h1] && p in ix.buckets[h2]
      ensures h1 == h2
    {
      OneBucketPerPath(rs, h1, h2, p);
    }
  }
}
