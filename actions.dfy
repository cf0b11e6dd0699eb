/** Deleting or moving the files of the checked rows, and the check that at
    least one row is checked. */
module Actions {
  import opened Table

  /** A row whose checkbox exists and is ticked. */
  predicate IsChecked(row: TableRow)
  {
    row.check == Box(true)
  }

  /** The rows that survive removal of every checked row, in their order. */
  function Unchecked(rows: seq<TableRow>): seq<TableRow>
  {
    if rows == [] then []
    else (if IsChecked(rows[0]) then [] else [rows[0]]) + Unchecked(rows[1..])
  }

  function CheckedCount(rows: seq<TableRow>): nat
  {
    if rows == [] then 0 else (if IsChecked(rows[0]) then 1 else 0) + CheckedCount(rows[1..])
  }

  /** The paths of the checked rows, last row first: the files handed to the
      file operation, in the order it is attempted. */
  function CheckedPathsFromLast(rows: seq<TableRow>): seq<string>
  {
    if rows == [] then []
    else CheckedPathsFromLast(rows[1..]) + (if IsChecked(rows[0]) then [rows[0].path] else [])
  }

  /** Number of checked rows at index `from` or later whose operation
      succeeds; `attempt(i)` is the outcome of the operation on row `i`. */
  function Successes(rows: seq<TableRow>, attempt: nat -> bool, from: nat): nat
    decreases |rows| - from
  {
    if from >= |rows| then 0
    else (if IsChecked(rows[from]) && attempt(from) then 1 else 0) + Successes(rows, attempt, from + 1)
  }

  /** What a delete or move reports to the user. */
  datatype Report = NoFilesSelected | NoTargetFolder | Done(succeeded: nat)

  /** `any_files_selected`: rows without a checkbox are skipped. */
  method AnyFilesSelected(rows: seq<TableRow>) returns (found: bool)
    ensures found <==> exists i :: 0 <= i < |rows| && IsChecked(rows[i])
  {
    for i := 0 to |rows|
      invariant forall j :: 0 <= j < i ==> !IsChecked(rows[j])
    {
      var check := rows[i].check;
      if check.NoBox? {
        continue;
      }
      if check.checked {
        return true;
      }
    }
    return false;
  }

  /** The row loop shared by `delete_selected_files` and
      `move_selected_files`: rows are visited from the last index down; a
      checked row has its operation attempted and is removed whatever the
      outcome; only successes are counted. */
  method RemoveCheckedRows(rows: seq<TableRow>, attempt: nat -> bool)
    returns (table: seq<TableRow>, attempted: seq<string>, succeeded: nat)
    ensures table == Unchecked(rows)
    ensures attempted == CheckedPathsFromLast(rows)
    ensures succeeded == Successes(rows, attempt, 0)
  {
    table, attempted, succeeded := rows, [], 0;
    var rowIdx := |rows|;
    while rowIdx > 0
      invariant 0 <= rowIdx <= |rows|
      invariant table == rows[..rowIdx] + Unchecked(rows[rowIdx..])
      invariant attempted == CheckedPathsFromLast(rows[rowIdx..])
      invariant succeeded == Successes(rows, attempt, rowIdx)
    {
      rowIdx := rowIdx - 1;
      assert rows[rowIdx..][1..] == rows[rowIdx + 1..];
      assert table[rowIdx] == rows[rowIdx];
      var check := table[rowIdx].check;
      if check.NoBox? {
        continue;
      }
      if check.checked {
        var filePath := table[rowIdx].path;
        attempted := attempted + [filePath];
        if attempt(rowIdx) {
          succeeded := succeeded + 1;
        }
        assert table[..rowIdx] == rows[..rowIdx] && table[rowIdx + 1..] == Unchecked(rows[rowIdx + 1..]);
        table := table[..rowIdx] + table[rowIdx + 1..];
      } else {
        assert rows[..rowIdx + 1] == rows[..rowIdx] + [rows[rowIdx]];
      }
    }
    assert rows[0..] == rows;
  }

  /** Removal commutes with concatenation: surviving rows keep their order. */
  lemma {:induction false} UncheckedAppend(a: seq<TableRow>, b: seq<TableRow>)
    ensures Unchecked(a + b) == Unchecked(a) + Unchecked(b)
  {
    if a != [] {
      assert (a + b)[1..] == a[1..] + b;
      UncheckedAppend(a[1..], b);
    } else {
      assert a + b == b;
    }
  }

  /** Exactly the unchecked rows survive: none of the survivors is checked,
      every unchecked row survives, and the checked ones are the rest. */
  lemma {:induction false} UncheckedExact(rows: seq<TableRow>)
    ensures forall row :: row in Unchecked(rows) ==> row in rows && !IsChecked(row)
    ensures forall i :: 0 <= i < |rows| && !IsChecked(rows[i]) ==> rows[i] in Unchecked(rows)
    ensures |Unchecked(rows)| + CheckedCount(rows) == |rows|
  {
    if rows != [] {
      UncheckedExact(rows[1..]);
      forall i | 0 <= i < |rows| && !IsChecked(rows[i])
        ensures rows[i] in Unchecked(rows)
      {
        if i > 0 {
          assert rows[i] == rows[1..][i - 1];
        }
      }
    }
  }

  /** With no checked row, nothing is removed and nothing is attempted. */
  lemma {:induction false} NothingChecked(rows: seq<TableRow>)
    requires forall i :: 0 <= i < |rows| ==> !IsChecked(rows[i])
    ensures Unchecked(rows) == rows
    ensures CheckedPathsFromLast(rows) == []
  {
    if rows != [] {
      assert forall i :: 0 <= i < |rows[1..]| ==> rows[1..][i] == rows[i + 1];
      NothingChecked(rows[1..]);
      assert [rows[0]] + rows[1..] == rows;
    }
  }

  /** One attempt per checked row, so the count of successes is at most the
      number of checked rows, and equal to it when every attempt succeeds. */
  lemma {:induction false} SuccessesBound(rows: seq<TableRow>, attempt: nat -> bool, from: nat)
    requires from <= |rows|
    ensures Successes(rows, attempt, from) <= CheckedCount(rows[from..])
    ensures (forall i :: from <= i < |rows| ==> attempt(i)) ==>
              Successes(rows, attempt, from) == CheckedCount(rows[from..])
    ensures |CheckedPathsFromLast(rows[from..])| == CheckedCount(rows[from..])
    decreases |rows| - from
  {
    if from < |rows| {
      assert rows[from..][1..] == rows[from + 1..];
      SuccessesBound(rows, attempt, from + 1);
    }
  }
}
