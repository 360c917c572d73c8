/** A two-dimensional table kept in a flat array, as the splitter keeps its mode map. */
module FlatMap {

  /** Where row i starts: i * step, by repeated addition. */
  function Off(step: nat, i: nat): nat {
    if i == 0 then 0 else Off(step, i - 1) + step
  }

  lemma {:induction false} OffIsProduct(step: nat, i: nat)
    ensures Off(step, i) == i * step
  {
    if i > 0 {
      OffIsProduct(step, i - 1);
      assert (i - 1) * step + step == i * step;
    }
  }

  lemma {:induction false} RowOrder(step: nat, i: nat, j: nat)
    requires i < j
    ensures Off(step, i) + step <= Off(step, j)
    decreases j
  {
    if i < j - 1 {
      RowOrder(step, i, j - 1);
    }
  }

  lemma RowInside(step: nat, i: nat, n: nat)
    requires i < n
    ensures 0 <= Off(step, i) && Off(step, i) + step <= Off(step, n)
  {
  }

  lemma OffInside(step: nat, i: nat, n: nat)
    requires i < n
    ensures Off(step, i) + step <= Off(step, n)
  {
  }

  ghost function RowAt(flat: seq<int>, step: nat, i: nat): (row: seq<int>)
    requires Off(step, i) + step <= |flat|
    ensures |row| == step
  {
    flat[Off(step, i)..Off(step, i) + step]
  }

  ghost function RowsOf(flat: seq<int>, step: nat, n: nat): (rows: seq<seq<int>>)
    requires Off(step, n) <= |flat|
    ensures |rows| == n
    ensures forall i :: 0 <= i < n ==> |rows[i]| == step
  {
    seq(n, i requires 0 <= i < n => RowInside(step, i, n); RowAt(flat, step, i))
  }

  /** The entries `first`, `first + step`, ... of a flat table. */
  ghost function Column(flat: seq<int>, first: nat, step: nat, n: nat): (col: seq<int>)
    requires n > 0 ==> first + Off(step, n - 1) < |flat|
    ensures |col| == n
  {
    seq(n, i requires 0 <= i < n => EntryInside(first, step, i, n); flat[first + Off(step, i)])
  }

  lemma EntryInside(first: nat, step: nat, i: nat, n: nat)
    requires i < n
    ensures 0 <= Off(step, i) <= Off(step, n - 1)
  {
    if i < n - 1 {
      RowOrder(step, i, n - 1);
    }
  }

  /** Changing nothing in row i leaves row i alone. */
  lemma RowUnchanged(before: seq<int>, after: seq<int>, step: nat, i: nat)
    requires |before| == |after| && Off(step, i) + step <= |before|
    requires forall x :: Off(step, i) <= x < Off(step, i) + step ==> before[x] == after[x]
    ensures RowAt(before, step, i) == RowAt(after, step, i)
  {
  }

  lemma ColumnOfRows(flat: seq<int>, first: nat, step: nat, n: nat)
    requires Off(step, n) <= |flat| && first < step
    ensures n > 0 ==> first + Off(step, n - 1) < |flat|
    ensures forall i :: 0 <= i < n ==> Column(flat, first, step, n)[i] == RowsOf(flat, step, n)[i][first]
  {
    if n > 0 {
      RowInside(step, n - 1, n);
      forall i | 0 <= i < n
        ensures Column(flat, first, step, n)[i] == RowsOf(flat, step, n)[i][first]
      {
        RowInside(step, i, n);
        EntryInside(first, step, i, n);
        assert Off(step, i) + first == first + Off(step, i);
      }
    }
  }

  /** Writing one entry changes that entry of its row only. */
  lemma EntryUpdate(before: seq<int>, step: nat, n: nat, k: nat, c: nat, v: int)
    requires Off(step, n) <= |before| && k < n && c < step
    ensures c + Off(step, k) < |before|
    ensures RowsOf(before[c + Off(step, k) := v], step, n) ==
            RowsOf(before, step, n)[k := RowsOf(before, step, n)[k][c := v]]
  {
    RowInside(step, k, n);
    var after := before[c + Off(step, k) := v];
    var rows, rows' := RowsOf(before, step, n), RowsOf(after, step, n);
    forall i | 0 <= i < n
      ensures rows'[i] == (if i == k then rows[k][c := v] else rows[i])
    {
      RowInside(step, i, n);
      if i < k {
        RowOrder(step, i, k);
        RowUnchanged(before, after, step, i);
      } else if k < i {
        RowOrder(step, k, i);
        RowUnchanged(before, after, step, i);
      } else {
        assert forall x :: 0 <= x < step ==> rows'[k][x] == rows[k][c := v][x];
      }
    }
  }

  /** Writing below the table changes none of its rows. */
  lemma EntryOutside(before: seq<int>, step: nat, n: nat, x: nat, v: int)
    requires Off(step, n) <= x < |before|
    ensures RowsOf(before[x := v], step, n) == RowsOf(before, step, n)
  {
    forall i | 0 <= i < n
      ensures RowsOf(before[x := v], step, n)[i] == RowsOf(before, step, n)[i]
    {
      RowInside(step, i, n);
      RowUnchanged(before, before[x := v], step, i);
    }
  }

  /** CopyMem of one row to an earlier, disjoint one. */
  method CopyRow(table: array<int>, to: nat, from: nat, n: nat)
    requires to + n <= from && from + n <= table.Length
    modifies table
    ensures forall x :: 0 <= x < table.Length ==>
      table[x] == old(if to <= x < to + n then table[from + (x - to)] else table[x])
  {
    for k := 0 to n
      invariant forall x :: 0 <= x < table.Length ==>
        table[x] == old(if to <= x < to + k then table[from + (x - to)] else table[x])
    {
      table[to + k] := table[from + k];
    }
  }

  /** Row i was copied onto row k, and nothing else was written. */
  ghost predicate Copied(before: seq<int>, after: seq<int>, step: nat, k: nat, i: nat) {
    |before| == |after| && Off(step, i) + step <= |before| && Off(step, k) + step <= |before| &&
    (forall x :: 0 <= x < |before| && !(Off(step, k) <= x < Off(step, k) + step) ==> after[x] == before[x]) &&
    (forall x :: Off(step, k) <= x < Off(step, k) + step ==> after[x] == before[Off(step, i) + (x - Off(step, k))])
  }

  lemma CopiedOnto(before: seq<int>, after: seq<int>, step: nat, k: nat, i: nat)
    requires Copied(before, after, step, k, i)
    ensures RowAt(after, step, k) == RowAt(before, step, i)
  {
    forall x | 0 <= x < step
      ensures RowAt(after, step, k)[x] == RowAt(before, step, i)[x]
    {
      assert after[Off(step, k) + x] == before[Off(step, i) + x];
    }
  }

  lemma NotCopied(before: seq<int>, after: seq<int>, step: nat, n: nat, k: nat, i: nat, j: nat)
    requires Copied(before, after, step, k, i) && Off(step, n) <= |before| && k < n && j < n && j != k
    ensures Off(step, j) + step <= |before| && RowAt(after, step, j) == RowAt(before, step, j)
  {
    RowInside(step, j, n);
    if j < k {
      RowOrder(step, j, k);
    } else {
      RowOrder(step, k, j);
    }
    RowUnchanged(before, after, step, j);
  }

  /** Copying row i onto row k replaces row k and no other. */
  lemma RowCopied(before: seq<int>, after: seq<int>, step: nat, n: nat, k: nat, i: nat)
    requires Copied(before, after, step, k, i) && Off(step, n) <= |before| && k < i < n
    ensures RowsOf(after, step, n) == RowsOf(before, step, n)[k := RowsOf(before, step, n)[i]]
  {
    CopiedOnto(before, after, step, k, i);
    forall j | 0 <= j < n && j != k
      ensures RowsOf(after, step, n)[j] == RowsOf(before, step, n)[j]
    {
      NotCopied(before, after, step, n, k, i, j);
    }
    hide Copied, RowAt, Off;
  }
}
