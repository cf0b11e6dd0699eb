/** The `duplicates` dictionary built while results arrive, and the two
    numbers computed from it when a scan completes. */
module GroupIndex {
  import opened ScanResults

  /** A Python dict from digest to the list of paths having it: `keys` is the
      dict's insertion order, `buckets` its contents. */
  datatype Index = Index(keys: seq<string>, buckets: map<string, seq<string>>)
  {
    /** Keys are distinct, are exactly the map's domain, and no bucket is
        empty (a bucket is only created together with its first path). */
    ghost predicate Valid()
    {
      && (forall i, j :: 0 <= i < j < |keys| ==> keys[i] != keys[j])
      && (forall k :: k in buckets <==> k in keys)
      && (forall k :: k in buckets ==> buckets[k] != [])
    }
  }

  const Empty: Index := Index([], map[])

  /** The dictionary update of one result: a truthy digest appends the path to
      its bucket, creating the bucket at the end of the key order if new. */
  function Insert(ix: Index, r: ScanResult): (ix': Index)
    ensures !Truthy(r.hash) ==> ix' == ix
    ensures Truthy(r.hash) ==>
      var h := r.hash.value;
      && h in ix'.buckets
      && ix'.buckets[h] == (if h in ix.buckets then ix.buckets[h] else []) + [r.path]
  {
    if !Truthy(r.hash) then ix
    else
      var h := r.hash.value;
      if h in ix.buckets then Index(ix.keys, ix.buckets[h := ix.buckets[h] + [r.path]])
      else Index(ix.keys + [h], ix.buckets[h := [r.path]])
  }

  /** The dictionary after a scan that started empty and received `rs`. */
  function Build(rs: seq<ScanResult>): Index
  {
    if rs == [] then Empty else Insert(Build(rs[..|rs| - 1]), rs[|rs| - 1])
  }

  /** An insertion keeps the dictionary well formed, keeps the earlier keys
      in their order, and adds a key only for a new truthy digest. */
  lemma InsertValid(ix: Index, r: ScanResult)
    requires ix.Valid()
    ensures Insert(ix, r).Valid()
    ensures var ix' := Insert(ix, r);
      |ix.keys| <= |ix'.keys| <= |ix.keys| + 1 && ix'.keys[..|ix.keys|] == ix.keys
    ensures |Insert(ix, r).keys| == |ix.keys| + 1 <==> Truthy(r.hash) && r.hash.value !in ix.buckets
  {
  }

  lemma {:induction false} BuildValid(rs: seq<ScanResult>)
    ensures Build(rs).Valid()
  {
    if rs != [] {
      BuildValid(rs[..|rs| - 1]);
      InsertValid(Build(rs[..|rs| - 1]), rs[|rs| - 1]);
    }
  }

  lemma BuildSnoc(rs: seq<ScanResult>, r: ScanResult)
    ensures Build(rs + [r]) == Insert(Build(rs), r)
  {
    assert (rs + [r])[..|rs|] == rs;
  }

  /** One more result received: its insertion into the dictionary built so
      far is the dictionary built from all of them, still well formed. */
  lemma BuildStep(rs: seq<ScanResult>, ix: Index, r: ScanResult)
    requires ix == Build(rs) && ix.Valid()
    ensures Insert(ix, r) == Build(rs + [r]) && Insert(ix, r).Valid()
  {
    BuildSnoc(rs, r);
    InsertValid(ix, r);
  }

  /** `duplicates.values()`, in insertion order. */
  function Values(ix: Index): seq<seq<string>>
    requires ix.Valid()
  {
    seq(|ix.keys|, i requires 0 <= i < |ix.keys| => ix.buckets[ix.keys[i]])
  }

  /** The buckets with more than one member, in order. */
  function DuplicateBuckets(vs: seq<seq<string>>): (d: seq<seq<string>>)
    ensures |d| <= |vs|
  {
    if vs == [] then []
    else DuplicateBuckets(vs[..|vs| - 1]) + (if |vs[|vs| - 1]| > 1 then [vs[|vs| - 1]] else [])
  }

  /** Every bucket kept has two or more paths. */
  lemma {:induction false} DupAtLeastTwo(vs: seq<seq<string>>)
    ensures forall g :: g in DuplicateBuckets(vs) ==> |g| > 1
  {
    if vs != [] {
      DupAtLeastTwo(vs[..|vs| - 1]);
    }
  }

  /** The "Duplicate Groups" figure: `len([g for g in values if len(g) > 1])`. */
  function GroupCount(vs: seq<seq<string>>): (c: nat)
    ensures c <= |vs|
  {
    |DuplicateBuckets(vs)|
  }

  /** The "Duplicate Files" figure: `sum(len(l) - 1 for l in values if len(l) > 1)`. */
  function Reclaimable(vs: seq<seq<string>>): (n: nat)
    ensures n <= Members(vs)
  {
    if vs == [] then 0
    else Reclaimable(vs[..|vs| - 1]) + (if |vs[|vs| - 1]| > 1 then |vs[|vs| - 1]| - 1 else 0)
  }

  /** Sum of the bucket lengths. */
  function Members(vs: seq<seq<string>>): nat
  {
    if vs == [] then 0 else Members(vs[..|vs| - 1]) + |vs[|vs| - 1]|
  }

  /** Number of buckets with exactly one member. */
  function Singles(vs: seq<seq<string>>): nat
  {
    if vs == [] then 0 else Singles(vs[..|vs| - 1]) + (if |vs[|vs| - 1]| == 1 then 1 else 0)
  }

  /** Number of results whose digest is falsy. */
  function Unhashed(rs: seq<ScanResult>): nat
  {
    if rs == [] then 0 else Unhashed(rs[..|rs| - 1]) + (if Truthy(rs[|rs| - 1].hash) then 0 else 1)
  }

  /** The paths of the results whose digest is `h`, in arrival order. */
  function PathsWith(rs: seq<ScanResult>, h: string): seq<string>
  {
    if rs == [] then []
    else PathsWith(rs[..|rs| - 1], h) + (if rs[|rs| - 1].hash == Some(h) then [rs[|rs| - 1].path] else [])
  }

  /** What the dictionary holds: a digest is a key exactly when it is truthy
      and some result carried it, and its bucket is exactly the paths that
      arrived with it, in arrival order. So every member of a bucket has that
      bucket's digest. */
  lemma {:induction false} BuildBuckets(rs: seq<ScanResult>, h: string)
    ensures h in Build(rs).buckets <==> h != "" && PathsWith(rs, h) != []
    ensures h in Build(rs).buckets ==> Build(rs).buckets[h] == PathsWith(rs, h)
  {
    if rs != [] {
      BuildBuckets(rs[..|rs| - 1], h);
    }
  }

  lemma {:induction false} PathsWithMember(rs: seq<ScanResult>, h: string, p: string)
    requires p in PathsWith(rs, h)
    ensures exists i :: 0 <= i < |rs| && rs[i] == ScanResult(Some(h), p)
  {
    var init := rs[..|rs| - 1];
    if p in PathsWith(init, h) {
      PathsWithMember(init, h, p);
      var i :| 0 <= i < |init| && init[i] == ScanResult(Some(h), p);
      assert rs[i] == init[i];
    } else {
      assert rs[|rs| - 1] == ScanResult(Some(h), p);
    }
  }

  /** No path sits in two different buckets. */
  ghost predicate OneBucketEach(ix: Index)
  {
    forall h1, h2, p :: h1 in ix.buckets && h2 in ix.buckets && p in ix.buckets[h1] && p in ix.buckets[h2] ==> h1 == h2
  }

  /** When every result for a path carries the same digest, a path sits in
      at most one bucket. */
  lemma OneBucketPerPath(rs: seq<ScanResult>, h1: string, h2: string, p: string)
    requires forall i, j :: 0 <= i < |rs| && 0 <= j < |rs| && rs[i].path == rs[j].path ==> rs[i].hash == rs[j].hash
    requires h1 in Build(rs).buckets && h2 in Build(rs).buckets
    requires p in Build(rs).buckets[h1] && p in Build(rs).buckets[h2]
    ensures h1 == h2
  {
    BuildBuckets(rs, h1);
    BuildBuckets(rs, h2);
    PathsWithMember(rs, h1, p);
    PathsWithMember(rs, h2, p);
    var i :| 0 <= i < |rs| && rs[i] == ScanResult(Some(h1), p);
    var j :| 0 <= j < |rs| && rs[j] == ScanResult(Some(h2), p);
    assert rs[i].hash == rs[j].hash;
  }

  lemma {:induction false} ReclaimablePlusGroups(vs: seq<seq<string>>)
    ensures Reclaimable(vs) + GroupCount(vs) == Members(DuplicateBuckets(vs))
  {
    if vs != [] {
      var init, last := vs[..|vs| - 1], vs[|vs| - 1];
      ReclaimablePlusGroups(init);
      var d := DuplicateBuckets(init);
      if |last| > 1 {
        assert (d + [last])[..|d|] == d;
      } else {
        assert d + [] == d;
      }
    }
  }

  lemma {:induction false} ReclaimableAtLeastGroups(vs: seq<seq<string>>)
    ensures Reclaimable(vs) >= GroupCount(vs)
  {
    if vs != [] {
      ReclaimableAtLeastGroups(vs[..|vs| - 1]);
    }
  }

  /** Both figures are zero exactly when no bucket has two or more members. */
  lemma {:induction false} NoGroups(vs: seq<seq<string>>)
    ensures GroupCount(vs) == 0 <==> forall i :: 0 <= i < |vs| ==> |vs[i]| <= 1
    ensures Reclaimable(vs) == 0 <==> forall i :: 0 <= i < |vs| ==> |vs[i]| <= 1
  {
    if vs != [] {
      var init := vs[..|vs| - 1];
      NoGroups(init);
      assert forall i :: 0 <= i < |init| ==> init[i] == vs[i];
    }
  }

  /** Every non-empty bucket is either a duplicate group or a single. */
  lemma {:induction false} BucketPartition(vs: seq<seq<string>>)
    requires forall i :: 0 <= i < |vs| ==> vs[i] != []
    ensures Members(vs) == Members(DuplicateBuckets(vs)) + Singles(vs)
  {
    if vs != [] {
      var init, last := vs[..|vs| - 1], vs[|vs| - 1];
      assert forall i :: 0 <= i < |init| ==> init[i] == vs[i];
      BucketPartition(init);
      var d := DuplicateBuckets(init);
      if |last| > 1 {
        assert (d + [last])[..|d|] == d;
      } else {
        assert d + [] == d;
      }
    }
  }

  /** Appending one path to one bucket adds one member. */
  lemma {:induction false} MembersAppend(vs: seq<seq<string>>, pos: nat, p: string)
    requires pos < |vs|
    ensures Members(vs[pos := vs[pos] + [p]]) == Members(vs) + 1
  {
    var ws := vs[pos := vs[pos] + [p]];
    var n := |vs| - 1;
    if pos == n {
      assert ws[..n] == vs[..n];
    } else {
      assert ws[..n] == vs[..n][pos := vs[..n][pos] + [p]];
      MembersAppend(vs[..n], pos, p);
    }
  }

  /** How one insertion changes `duplicates.values()`. */
  lemma InsertValues(ix: Index, r: ScanResult)
    requires ix.Valid()
    ensures Insert(ix, r).Valid()
    ensures !Truthy(r.hash) ==> Values(Insert(ix, r)) == Values(ix)
    ensures Truthy(r.hash) && r.hash.value !in ix.buckets ==>
              Values(Insert(ix, r)) == Values(ix) + [[r.path]]
    ensures Truthy(r.hash) && r.hash.value in ix.buckets ==>
              exists pos :: 0 <= pos < |ix.keys| && ix.keys[pos] == r.hash.value &&
                Values(Insert(ix, r)) == Values(ix)[pos := Values(ix)[pos] + [r.path]]
  {
    InsertValid(ix, r);
    if Truthy(r.hash) {
      var h := r.hash.value;
      if h in ix.buckets {
        var pos :| 0 <= pos < |ix.keys| && ix.keys[pos] == h;
        ValuesAppendAt(ix, pos, r.path);
      } else {
        ValuesAppendNew(ix, h, r.path);
      }
    }
  }

  lemma ValuesAppendAt(ix: Index, pos: nat, p: string)
    requires ix.Valid() && pos < |ix.keys|
    ensures var h := ix.keys[pos];
      var ix' := Index(ix.keys, ix.buckets[h := ix.buckets[h] + [p]]);
      ix'.Valid() && Values(ix') == Values(ix)[pos := Values(ix)[pos] + [p]]
  {
    var h := ix.keys[pos];
    var ix' := Index(ix.keys, ix.buckets[h := ix.buckets[h] + [p]]);
    assert ix'.Valid();
    assert forall i :: 0 <= i < |ix.keys| && i != pos ==> ix.keys[i] != h;
  }

  lemma ValuesAppendNew(ix: Index, h: string, p: string)
    requires ix.Valid() && h !in ix.buckets
    ensures var ix' := Index(ix.keys + [h], ix.buckets[h := [p]]);
      ix'.Valid() && Values(ix') == Values(ix) + [[p]]
  {
    var ix' := Index(ix.keys + [h], ix.buckets[h := [p]]);
    assert ix'.Valid();
    assert forall i :: 0 <= i < |ix.keys| ==> ix.keys[i] != h;
  }

  /** Every result with a truthy digest lands in exactly one bucket slot. */
  lemma {:induction false} BuildMembers(rs: seq<ScanResult>)
    ensures Build(rs).Valid() && Members(Values(Build(rs))) + Unhashed(rs) == |rs|
  {
    BuildValid(rs);
    if rs != [] {
      var init, r := rs[..|rs| - 1], rs[|rs| - 1];
      var ix := Build(init);
      BuildMembers(init);
      InsertValues(ix, r);
      var vs := Values(ix);
      if Truthy(r.hash) {
        if r.hash.value in ix.buckets {
          var pos :| 0 <= pos < |ix.keys| && ix.keys[pos] == r.hash.value &&
            Values(Insert(ix, r)) == vs[pos := vs[pos] + [r.path]];
          MembersAppend(vs, pos, r.path);
        } else {
          assert (vs + [[r.path]])[..|vs|] == vs;
        }
      }
    }
  }

  /** After a scan: files in duplicate groups, plus unique files, plus files
      whose digest is falsy, account for every result received. In particular
      the bucket lengths never add up to more than the results received. */
  lemma ScanAccounting(rs: seq<ScanResult>)
    ensures Build(rs).Valid()
    ensures var vs := Values(Build(rs));
      Members(DuplicateBuckets(vs)) + Singles(vs) + Unhashed(rs) == |rs|
    ensures Members(Values(Build(rs))) <= |rs|
  {
    BuildValid(rs);
    var ix := Build(rs);
    var vs := Values(ix);
    assert forall i :: 0 <= i < |vs| ==> vs[i] == ix.buckets[ix.keys[i]] && vs[i] != [];
    BucketPartition(vs);
    BuildMembers(rs);
  }
  /** Three files, two with the same content: the dictionary holds one
      bucket of two paths and one of a single path, in arrival order. */
  lemma ThreeFileBuild()
    ensures Build([ScanResult(Some("h1"), "a.txt"), ScanResult(Some("h1"), "b.txt"),
                   ScanResult(Some("h2"), "c.txt")])
      == Index(["h1", "h2"], map["h1" := ["a.txt", "b.txt"], "h2" := ["c.txt"]])
  {
    var r0, r1, r2 := ScanResult(Some("h1"), "a.txt"), ScanResult(Some("h1"), "b.txt"),
                      ScanResult(Some("h2"), "c.txt");
    assert Build([r0]) == Index(["h1"], map["h1" := ["a.txt"]]) by {
      BuildSnoc([], r0);
      assert [] + [r0] == [r0];
    }
    assert Build([r0, r1]) == Index(["h1"], map["h1" := ["a.txt", "b.txt"]]) by {
      BuildSnoc([r0], r1);
      assert [r0] + [r1] == [r0, r1];
      assert ["a.txt"] + ["b.txt"] == ["a.txt", "b.txt"];
    }
    BuildSnoc([r0, r1], r2);
    assert [r0, r1] + [r2] == [r0, r1, r2];
  }

  /** Those buckets make one group, one single and one reclaimable file. */
  lemma ThreeFileFigures()
    ensures var ix := Index(["h1", "h2"], map["h1" := ["a.txt", "b.txt"], "h2" := ["c.txt"]]);
      && ix.Valid()
      && DuplicateBuckets(Values(ix)) == [["a.txt", "b.txt"]]
      && GroupCount(Values(ix)) == 1
      && Reclaimable(Values(ix)) == 1
      && Singles(Values(ix)) == 1
  {
    var ix := Index(["h1", "h2"], map["h1" := ["a.txt", "b.txt"], "h2" := ["c.txt"]]);
    assert ix.Valid();
    var vs := Values(ix);
    assert vs == [["a.txt", "b.txt"], ["c.txt"]];
    assert vs[..1] == [["a.txt", "b.txt"]] && vs[..1][..0] == [];
    assert |vs[1]| == 1 && |vs[0]| == 2;
    assert DuplicateBuckets(vs[..1]) == [vs[0]];
    assert DuplicateBuckets(vs) == DuplicateBuckets(vs[..1]) + [];
  }
}
