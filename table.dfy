/** The duplicates table: one row per member of every duplicate group, as
    `populate_table` lays it out. */
module Table {
  import opened GroupIndex

  /** Column 0 of a row: no checkbox widget (or an empty layout), or a
      checkbox with its state. */
  datatype CheckBox = NoBox | Box(checked: bool)

  /** A table row: checkbox, group id (column 1), path (column 3), size in KB
      (column 4) and the index into `Palette` of its background colour. */
  datatype TableRow = TableRow(check: CheckBox, groupId: nat, path: string, sizeKb: nat, colour: nat)

  const Palette: seq<string> := ["#8A4F7D", "#7EBDC2", "#679436", "#BA2D0B"]

  /** The colour index of a group: `(group_id - 1) % len(colors)`. */
  function Colour(groupId: nat): (c: nat)
    requires groupId >= 1
    ensures c < |Palette|
  {
    (groupId - 1) % |Palette|
  }

  /** The rows of one group, one per member in bucket order; `size` stands
      for `os.path.getsize`. */
  function GroupRows(groupId: nat, files: seq<string>, size: string -> nat): seq<TableRow>
    requires groupId >= 1
  {
    seq(|files|, i requires 0 <= i < |files| =>
      TableRow(Box(false), groupId, files[i], size(files[i]) / 1024, Colour(groupId)))
  }

  /** The whole table for the buckets `vs`, walked in insertion order. */
  function Layout(vs: seq<seq<string>>, size: string -> nat): seq<TableRow>
  {
    if vs == [] then []
    else
      var init, last := vs[..|vs| - 1], vs[|vs| - 1];
      Layout(init, size) + (if |last| > 1 then GroupRows(GroupCount(init) + 1, last, size) else [])
  }

  /** The paths of the rows carrying group id `g`, in row order. */
  function PathsOfGroup(rows: seq<TableRow>, g: nat): seq<string>
  {
    if rows == [] then []
    else PathsOfGroup(rows[..|rows| - 1], g) + (if rows[|rows| - 1].groupId == g then [rows[|rows| - 1].path] else [])
  }

  /** `populate_table`: clears the table, then walks the buckets in insertion
      order; every bucket with more than one path gets the next id, starting
      at 1, and one row per path. */
  method PopulateTable(duplicates: Index, size: string -> nat) returns (rows: seq<TableRow>)
    requires duplicates.Valid()
    ensures rows == Layout(Values(duplicates), size)
  {
    ghost var vs := Values(duplicates);
    rows := [];
    var groupId := 1;
    for i := 0 to |duplicates.keys|
      invariant rows == Layout(vs[..i], size)
      invariant groupId == GroupCount(vs[..i]) + 1
    {
      var files := duplicates.buckets[duplicates.keys[i]];
      LayoutStep(vs, i, size);
      if |files| > 1 {
        rows := AddGroupRows(rows, groupId, files, size);
        groupId := groupId + 1;
      }
    }
    assert vs[..|duplicates.keys|] == vs;
  }

  /** The inner loop of `populate_table`: one row per path of a group, all
      in the group's colour. */
  method AddGroupRows(rows: seq<TableRow>, groupId: nat, files: seq<string>, size: string -> nat)
    returns (rows': seq<TableRow>)
    requires groupId >= 1
    ensures rows' == rows + GroupRows(groupId, files, size)
  {
    var colour := Colour(groupId);
    rows' := rows;
    for j := 0 to |files|
      invariant rows' == rows + GroupRows(groupId, files[..j], size)
    {
      var path := files[j];
      GroupRowsSnoc(groupId, files, j, size);
      rows' := rows' + [TableRow(Box(false), groupId, path, size(path) / 1024, colour)];
    }
    assert files[..|files|] == files;
  }

  lemma LayoutStep(vs: seq<seq<string>>, i: nat, size: string -> nat)
    requires i < |vs|
    ensures Layout(vs[..i + 1], size) ==
      Layout(vs[..i], size) + (if |vs[i]| > 1 then GroupRows(GroupCount(vs[..i]) + 1, vs[i], size) else [])
    ensures GroupCount(vs[..i + 1]) == GroupCount(vs[..i]) + (if |vs[i]| > 1 then 1 else 0)
  {
    assert vs[..i + 1][..i] == vs[..i];
  }

  lemma GroupRowsSnoc(id: nat, files: seq<string>, j: nat, size: string -> nat)
    requires id >= 1 && j < |files|
    ensures GroupRows(id, files[..j + 1], size) ==
      GroupRows(id, files[..j], size) + [TableRow(Box(false), id, files[j], size(files[j]) / 1024, Colour(id))]
  {
  }

  lemma {:induction false} LayoutLength(vs: seq<seq<string>>, size: string -> nat)
    ensures |Layout(vs, size)| == Members(DuplicateBuckets(vs))
  {
    if vs != [] {
      var init, last := vs[..|vs| - 1], vs[|vs| - 1];
      LayoutLength(init, size);
      var d := DuplicateBuckets(init);
      if |last| > 1 {
        assert (d + [last])[..|d|] == d;
      } else {
        assert d + [] == d;
      }
    }
  }

  /** Every row has a group id in 1..GroupCount, the colour of its id, an
      unchecked checkbox, and the size of its own path. */
  lemma {:induction false} LayoutRowShape(vs: seq<seq<string>>, size: string -> nat)
    ensures forall row :: row in Layout(vs, size) ==>
      && 1 <= row.groupId <= GroupCount(vs)
      && row.colour == (row.groupId - 1) % 4 < 4
      && row.check == Box(false)
      && row.sizeKb == size(row.path) / 1024
  {
    if vs != [] {
      var init, last := vs[..|vs| - 1], vs[|vs| - 1];
      LayoutRowShape(init, size);
      var a := Layout(init, size);
      var n := GroupCount(init);
      if |last| > 1 {
        var b := GroupRows(n + 1, last, size);
        assert Layout(vs, size) == a + b;
        assert GroupCount(vs) == n + 1;
        assert |Palette| == 4;
        forall row: TableRow | row in a + b
          ensures && 1 <= row.groupId <= n + 1
                  && row.colour == (row.groupId - 1) % 4 < 4
                  && row.check == Box(false)
                  && row.sizeKb == size(row.path) / 1024
        {
          if row !in a {
            var j :| 0 <= j < |b| && b[j] == row;
          }
        }
      } else {
        assert Layout(vs, size) == a;
        assert GroupCount(vs) == n;
      }
    }
  }

  /** Consecutive rows have the same group id or the next one. */
  predicate IdsStepByOne(rows: seq<TableRow>)
  {
    forall i :: 0 <= i < |rows| - 1 ==> rows[i].groupId <= rows[i + 1].groupId <= rows[i].groupId + 1
  }

  lemma StepByOneAppend(a: seq<TableRow>, b: seq<TableRow>)
    requires IdsStepByOne(a) && IdsStepByOne(b)
    requires a != [] && b != [] ==>
      a[|a| - 1].groupId <= b[0].groupId <= a[|a| - 1].groupId + 1
    ensures IdsStepByOne(a + b)
  {
    var rows := a + b;
    forall i | 0 <= i < |rows| - 1
      ensures rows[i].groupId <= rows[i + 1].groupId <= rows[i].groupId + 1
    {
      if i < |a| - 1 {
        assert rows[i] == a[i] && rows[i + 1] == a[i + 1];
      } else if i == |a| - 1 {
        assert rows[i] == a[|a| - 1] && rows[i + 1] == b[0];
      } else {
        assert rows[i] == b[i - |a|] && rows[i + 1] == b[i + 1 - |a|];
      }
    }
  }

  /** The table is empty exactly when there is no group; otherwise the first
      row has id 1 and the last row the id of the last group. */
  lemma {:induction false} LayoutIdEnds(vs: seq<seq<string>>, size: string -> nat)
    ensures var rows := Layout(vs, size);
      && (rows == [] <==> GroupCount(vs) == 0)
      && (rows != [] ==> rows[0].groupId == 1 && rows[|rows| - 1].groupId == GroupCount(vs))
  {
    if vs != [] {
      var init, last := vs[..|vs| - 1], vs[|vs| - 1];
      LayoutIdEnds(init, size);
      var a := Layout(init, size);
      var n := GroupCount(init);
      if |last| > 1 {
        var b := GroupRows(n + 1, last, size);
        var rows := a + b;
        assert GroupCount(vs) == n + 1;
        assert Layout(vs, size) == rows;
        assert rows[0].groupId == 1 by {
          if a != [] {
            assert rows[0] == a[0];
          } else {
            assert rows[0] == b[0];
          }
        }
        assert rows[|rows| - 1] == b[|b| - 1];
      } else {
        assert GroupCount(vs) == n;
        assert Layout(vs, size) == a;
      }
    }
  }

  /** All the rows of one group carry its id. */
  lemma GroupRowsOneId(id: nat, files: seq<string>, size: string -> nat)
    requires id >= 1
    ensures IdsStepByOne(GroupRows(id, files, size))
    ensures GroupRows(id, files, size) != [] ==> GroupRows(id, files, size)[0].groupId == id
  {
  }

  /** Group ids never decrease and never skip a number from one row to the
      next. */
  lemma {:induction false} LayoutIdsConsecutive(vs: seq<seq<string>>, size: string -> nat)
    ensures IdsStepByOne(Layout(vs, size))
  {
    if vs != [] {
      var init, last := vs[..|vs| - 1], vs[|vs| - 1];
      LayoutIdsConsecutive(init, size);
      LayoutIdEnds(init, size);
      var a := Layout(init, size);
      var n := GroupCount(init);
      if |last| > 1 {
        var b := GroupRows(n + 1, last, size);
        GroupRowsOneId(n + 1, last, size);
        StepByOneAppend(a, b);
        assert Layout(vs, size) == a + b;
      } else {
        assert Layout(vs, size) == a;
      }
    }
  }

  lemma {:induction false} PathsOfGroupAppend(a: seq<TableRow>, b: seq<TableRow>, g: nat)
    ensures PathsOfGroup(a + b, g) == PathsOfGroup(a, g) + PathsOfGroup(b, g)
  {
    if b == [] {
      assert a + b == a;
    } else {
      var b' := b[..|b| - 1];
      assert (a + b)[..|a + b| - 1] == a + b';
      PathsOfGroupAppend(a, b', g);
    }
  }

  lemma {:induction false} PathsOfGroupRows(id: nat, files: seq<string>, size: string -> nat, g: nat)
    requires id >= 1
    ensures PathsOfGroup(GroupRows(id, files, size), g) == if g == id then files else []
  {
    if files != [] {
      var f' := files[..|files| - 1];
      assert GroupRows(id, files, size)[..|files| - 1] == GroupRows(id, f', size);
      PathsOfGroupRows(id, f', size, g);
    }
  }

  /** The rows with id g list exactly the paths of the g-th duplicate
      bucket, in bucket order; no other id occurs. */
  lemma {:induction false} LayoutGroupPaths(vs: seq<seq<string>>, size: string -> nat, g: nat)
    ensures PathsOfGroup(Layout(vs, size), g) ==
      if 1 <= g <= GroupCount(vs) then DuplicateBuckets(vs)[g - 1] else []
  {
    if vs != [] {
      var init, last := vs[..|vs| - 1], vs[|vs| - 1];
      var a := Layout(init, size);
      var d := DuplicateBuckets(init);
      var b := if |last| > 1 then GroupRows(|d| + 1, last, size) else [];
      var e := if |last| > 1 then [last] else [];
      assert Layout(vs, size) == a + b && DuplicateBuckets(vs) == d + e;
      assert PathsOfGroup(a + b, g) == PathsOfGroup(a, g) + PathsOfGroup(b, g) by {
        PathsOfGroupAppend(a, b, g);
      }
      assert PathsOfGroup(b, g) == if |last| > 1 && g == |d| + 1 then last else [] by {
        if |last| > 1 {
          PathsOfGroupRows(|d| + 1, last, size, g);
        }
      }
      LayoutGroupPaths(init, size, g);
      SelectGroup(PathsOfGroup(a, g), PathsOfGroup(b, g), d, e, g);
    }
  }

  lemma SelectGroup(pa: seq<string>, pb: seq<string>, d: seq<seq<string>>, e: seq<seq<string>>, g: nat)
    requires |e| <= 1
    requires pa == if 1 <= g <= |d| then d[g - 1] else []
    requires pb == if e != [] && g == |d| + 1 then e[0] else []
    ensures pa + pb == if 1 <= g <= |d + e| then (d + e)[g - 1] else []
  {
    if e != [] && g == |d| + 1 {
      assert pa + pb == pb;
    } else {
      assert pa + pb == pa;
    }
  }
}
