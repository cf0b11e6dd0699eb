/** The background scan: a walk of every selected folder, one digest per
    file, one result per file that did not raise. */
module ScanThread {
  import opened ScanResults

  /** One triple of `os.walk`, without the sub-directory names (unused). */
  datatype WalkEntry = WalkEntry(root: string, files: seq<string>)

  /** What a call of `get_file_hash` does: return a digest, or `None` when
      its handler caught an `OSError`. `RaisesOSError` stands for reaching
      the handler in `run` instead; `get_file_hash` as written never does,
      since every call that can raise sits inside its own `try`
      (`NoneRaised`), but the branch keeps that handler in the model. */
  datatype HashCall = Hashed(digest: Option<string>) | RaisesOSError

  /** `sum(len(files) for _, _, files in entries)`. */
  function FolderTotal(entries: seq<WalkEntry>): nat
  {
    if entries == [] then 0 else FolderTotal(entries[..|entries| - 1]) + |entries[|entries| - 1].files|
  }

  /** `total_files`: the file count over every folder's walk. */
  function TotalFiles(folders: seq<string>, walk: string -> seq<WalkEntry>): (t: nat)
    ensures t == 0 <==> forall i :: 0 <= i < |folders| ==> FolderTotal(walk(folders[i])) == 0
  {
    if folders == [] then 0 else TotalFiles(folders[..|folders| - 1], walk) + FolderTotal(walk(folders[|folders| - 1]))
  }

  /** `os.path.join(root, file)` for every name, in order. */
  function Joined(root: string, files: seq<string>, join: (string, string) -> string): seq<string>
  {
    if files == [] then [] else Joined(root, files[..|files| - 1], join) + [join(root, files[|files| - 1])]
  }

  /** Every path of one folder's walk, in walk order. */
  function WalkPaths(entries: seq<WalkEntry>, join: (string, string) -> string): seq<string>
  {
    if entries == [] then []
    else
      var e := entries[|entries| - 1];
      WalkPaths(entries[..|entries| - 1], join) + Joined(e.root, e.files, join)
  }

  /** Every path visited by the scan, folder by folder. */
  function AllPaths(folders: seq<string>, walk: string -> seq<WalkEntry>, join: (string, string) -> string): seq<string>
  {
    if folders == [] then []
    else AllPaths(folders[..|folders| - 1], walk, join) + WalkPaths(walk(folders[|folders| - 1]), join)
  }

  /** The results emitted for `paths`: one per path whose hashing returned,
      none for a path whose hashing raised. */
  function Emitted(paths: seq<string>, hash: string -> HashCall): seq<ScanResult>
  {
    if paths == [] then []
    else
      var p := paths[|paths| - 1];
      Emitted(paths[..|paths| - 1], hash) + (match hash(p) case Hashed(d) => [ScanResult(d, p)] case RaisesOSError => [])
  }

  /** Number of paths whose hashing raised. */
  function Raised(paths: seq<string>, hash: string -> HashCall): nat
  {
    if paths == [] then 0
    else Raised(paths[..|paths| - 1], hash) + (if hash(paths[|paths| - 1]).RaisesOSError? then 1 else 0)
  }

  /** `ScanThread.run`: the counter goes up once per file and a result is
      emitted per file unless hashing raised. `walk` stands for `os.walk`
      (the same listing in both passes), `join` for `os.path.join` and
      `hash` for `get_file_hash`. The loop over the folders is here; the
      loops over a folder's walk and over one directory's files are
      `ScanWalk` and `ScanFiles`. */
  method Run(folders: seq<string>, walk: string -> seq<WalkEntry>, join: (string, string) -> string,
             hash: string -> HashCall)
    returns (results: seq<ScanResult>, filesScanned: nat)
    ensures filesScanned == TotalFiles(folders, walk)
    ensures results == Emitted(AllPaths(folders, walk, join), hash)
  {
    filesScanned := 0;
    results := [];
    for i := 0 to |folders|
      invariant filesScanned == TotalFiles(folders[..i], walk)
      invariant results == Emitted(AllPaths(folders[..i], walk, join), hash)
    {
      FoldersStep(folders, i, walk, join, hash);
      var more, count := ScanWalk(walk(folders[i]), join, hash);
      results := results + more;
      filesScanned := filesScanned + count;
    }
    assert folders[..|folders|] == folders;
  }

  /** The loop over the triples of one folder's walk. */
  method ScanWalk(entries: seq<WalkEntry>, join: (string, string) -> string, hash: string -> HashCall)
    returns (results: seq<ScanResult>, filesScanned: nat)
    ensures filesScanned == FolderTotal(entries)
    ensures results == Emitted(WalkPaths(entries, join), hash)
  {
    filesScanned := 0;
    results := [];
    for j := 0 to |entries|
      invariant filesScanned == FolderTotal(entries[..j])
      invariant results == Emitted(WalkPaths(entries[..j], join), hash)
    {
      EntriesStep(entries, j, join, hash);
      var more, count := ScanFiles(entries[j].root, entries[j].files, join, hash);
      results := results + more;
      filesScanned := filesScanned + count;
    }
    assert entries[..|entries|] == entries;
  }

  /** The loop over the files of one directory: count, join, hash, emit. */
  method ScanFiles(root: string, files: seq<string>, join: (string, string) -> string, hash: string -> HashCall)
    returns (results: seq<ScanResult>, filesScanned: nat)
    ensures filesScanned == |files|
    ensures results == Emitted(Joined(root, files, join), hash)
  {
    filesScanned := 0;
    results := [];
    for k := 0 to |files|
      invariant filesScanned == k
      invariant results == Emitted(Joined(root, files[..k], join), hash)
    {
      filesScanned := filesScanned + 1;
      var filePath := join(root, files[k]);
      FilesStep(root, files, k, join, hash);
      match hash(filePath)
      case Hashed(fileHash) =>
        results := results + [ScanResult(fileHash, filePath)];
      case RaisesOSError =>
    }
    assert files[..|files|] == files;
  }

  lemma FoldersStep(folders: seq<string>, i: nat, walk: string -> seq<WalkEntry>,
                    join: (string, string) -> string, hash: string -> HashCall)
    requires i < |folders|
    ensures Emitted(AllPaths(folders[..i + 1], walk, join), hash) ==
      Emitted(AllPaths(folders[..i], walk, join), hash) + Emitted(WalkPaths(walk(folders[i]), join), hash)
    ensures TotalFiles(folders[..i + 1], walk) == TotalFiles(folders[..i], walk) + FolderTotal(walk(folders[i]))
  {
    assert folders[..i + 1][..i] == folders[..i];
    EmittedAppend(AllPaths(folders[..i], walk, join), WalkPaths(walk(folders[i]), join), hash);
  }

  lemma EntriesStep(entries: seq<WalkEntry>, j: nat, join: (string, string) -> string, hash: string -> HashCall)
    requires j < |entries|
    ensures Emitted(WalkPaths(entries[..j + 1], join), hash) ==
      Emitted(WalkPaths(entries[..j], join), hash) + Emitted(Joined(entries[j].root, entries[j].files, join), hash)
    ensures FolderTotal(entries[..j + 1]) == FolderTotal(entries[..j]) + |entries[j].files|
  {
    assert entries[..j + 1][..j] == entries[..j];
    EmittedAppend(WalkPaths(entries[..j], join), Joined(entries[j].root, entries[j].files, join), hash);
  }

  lemma FilesStep(root: string, files: seq<string>, k: nat, join: (string, string) -> string, hash: string -> HashCall)
    requires k < |files|
    ensures var p := join(root, files[k]);
      Emitted(Joined(root, files[..k + 1], join), hash) ==
        Emitted(Joined(root, files[..k], join), hash) +
        (match hash(p) case Hashed(d) => [ScanResult(d, p)] case RaisesOSError => [])
  {
    assert files[..k + 1][..k] == files[..k];
    var prev := Joined(root, files[..k], join);
    assert (prev + [join(root, files[k])])[..|prev|] == prev;
  }

  lemma {:induction false} EmittedAppend(a: seq<string>, b: seq<string>, hash: string -> HashCall)
    ensures Emitted(a + b, hash) == Emitted(a, hash) + Emitted(b, hash)
  {
    if b == [] {
      assert a + b == a;
    } else {
      var b' := b[..|b| - 1];
      assert (a + b)[..|a + b| - 1] == a + b';
      EmittedAppend(a, b', hash);
    }
  }

  lemma {:induction false} JoinedLength(root: string, files: seq<string>, join: (string, string) -> string)
    ensures |Joined(root, files, join)| == |files|
  {
    if files != [] {
      JoinedLength(root, files[..|files| - 1], join);
    }
  }

  lemma {:induction false} WalkPathsLength(entries: seq<WalkEntry>, join: (string, string) -> string)
    ensures |WalkPaths(entries, join)| == FolderTotal(entries)
  {
    if entries != [] {
      var e := entries[|entries| - 1];
      WalkPathsLength(entries[..|entries| - 1], join);
      JoinedLength(e.root, e.files, join);
    }
  }

  /** The scan visits exactly `total_files` paths. */
  lemma {:induction false} AllPathsLength(folders: seq<string>, walk: string -> seq<WalkEntry>, join: (string, string) -> string)
    ensures |AllPaths(folders, walk, join)| == TotalFiles(folders, walk)
  {
    if folders != [] {
      AllPathsLength(folders[..|folders| - 1], walk, join);
      WalkPathsLength(walk(folders[|folders| - 1]), join);
    }
  }

  /** One result per visited path, except the paths whose hashing raised. */
  lemma {:induction false} EmittedCount(paths: seq<string>, hash: string -> HashCall)
    ensures |Emitted(paths, hash)| + Raised(paths, hash) == |paths|
  {
    if paths != [] {
      EmittedCount(paths[..|paths| - 1], hash);
    }
  }

  /** A `hash` that never raises, as `get_file_hash` is written, leaves no
      path behind in the raised count. */
  lemma {:induction false} NoneRaised(paths: seq<string>, hash: string -> HashCall)
    requires forall p :: !hash(p).RaisesOSError?
    ensures Raised(paths, hash) == 0
  {
    if paths != [] {
      NoneRaised(paths[..|paths| - 1], hash);
    }
  }

  /** When no hashing raises, the i-th result is the i-th path with its
      digest, absent digests included. */
  lemma {:induction false} EmittedNoneRaised(paths: seq<string>, hash: string -> HashCall)
    requires Raised(paths, hash) == 0
    ensures |Emitted(paths, hash)| == |paths|
    ensures forall i :: 0 <= i < |paths| ==>
      hash(paths[i]).Hashed? && Emitted(paths, hash)[i] == ScanResult(hash(paths[i]).digest, paths[i])
  {
    if paths != [] {
      var init := paths[..|paths| - 1];
      EmittedNoneRaised(init, hash);
      assert forall i :: 0 <= i < |init| ==> init[i] == paths[i];
    }
  }
  /** Every result is a visited path with the digest `hash` gives it, so two
      results for the same path carry the same digest. */
  lemma {:induction false} EmittedDigests(paths: seq<string>, hash: string -> HashCall)
    ensures forall e :: e in Emitted(paths, hash) ==> e.path in paths && hash(e.path) == Hashed(e.hash)
  {
    if paths != [] {
      var init := paths[..|paths| - 1];
      EmittedDigests(init, hash);
      assert forall p :: p in init ==> p in paths;
    }
  }
}
