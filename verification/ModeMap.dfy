/**
  The text-mode table of the console splitter, as a function of its consoles.

  `Build` follows the driver: the first console's modes are taken over, and each
  further console is matched against them.  `Common` says what the table is for:
  one row for every geometry that all consoles offer, giving each console's own
  mode number for it.
*/
module ModeMap {

  datatype Option<+T> = None | Some(value: T)

  datatype Geometry = Geometry(columns: nat, rows: nat)

  const NO_GEOMETRY := Geometry(0, 0)

  /** What QueryMode answers for each mode number of one console. */
  type Modes = seq<Option<Geometry>>

  /** Mode 0 always exists and only mode 1 (80x50) may be missing. */
  predicate WellBehaved(d: Modes) {
    |d| >= 1 && forall m :: 0 <= m < |d| && m != 1 ==> d[m].Some?
  }

  predicate AllWellBehaved(list: seq<Modes>) {
    |list| >= 1 && forall k :: 0 <= k < |list| ==> WellBehaved(list[k])
  }

  /**
    query[m] is the geometry recorded for mode m of the first console; rows[i][k]
    is console k's mode number for the splitter's mode i.
  */
  datatype Table = Table(query: seq<Geometry>, rows: seq<seq<int>>)

  ghost predicate Consistent(t: Table, width: nat) {
    width >= 1 &&
    forall i :: 0 <= i < |t.rows| ==> |t.rows[i]| == width && 0 <= t.rows[i][0] < |t.query|
  }

  function Heads(rows: seq<seq<int>>): (h: seq<int>)
    requires forall i :: 0 <= i < |rows| ==> |rows[i]| >= 1
    ensures |h| == |rows|
  {
    seq(|rows|, i requires 0 <= i < |rows| => rows[i][0])
  }

  predicate InRange(query: seq<Geometry>, heads: seq<int>) {
    forall i :: 0 <= i < |heads| ==> 0 <= heads[i] < |query|
  }

  /** The first row at or after i with geometry g, or |heads|. */
  function FirstMatch(query: seq<Geometry>, heads: seq<int>, g: Geometry, i: nat): (k: nat)
    requires i <= |heads| && InRange(query, heads)
    ensures i <= k <= |heads|
    ensures forall j :: i <= j < k ==> query[heads[j]] != g
    ensures k < |heads| ==> query[heads[k]] == g
    decreases |heads| - i
  {
    if i == |heads| || query[heads[i]] == g then i else FirstMatch(query, heads, g, i + 1)
  }

  /** Match the modes of d from mode m on; col collects d's mode number for each row. */
  function SyncColumn(query: seq<Geometry>, heads: seq<int>, d: Modes, m: nat, col: seq<int>)
    : (r: (seq<Geometry>, seq<int>))
    requires m <= |d| && |col| == |heads| && InRange(query, heads)
    ensures |r.0| == |query| && |r.1| == |col|
    decreases |d| - m
  {
    if m == |d| then (query, col)
    else if d[m].None? then
      if m == 1 then
        SyncColumn(if |query| > 1 then query[1 := NO_GEOMETRY] else query, heads, d, 2,
                   if |col| > 1 then col[1 := 1] else col)
      else SyncColumn(query, heads, d, m + 1, col)
    else
      var k := FirstMatch(query, heads, d[m].value, 0);
      SyncColumn(query, heads, d, m + 1, if k < |col| then col[k := m] else col)
  }

  function Unmatched(n: nat): (c: seq<int>)
    ensures |c| == n
  {
    seq(n, _ => -1)
  }

  /** The rows kept, in order. */
  function Compact<T>(rows: seq<T>, keep: seq<bool>): (r: seq<T>)
    requires |keep| == |rows|
    ensures |r| <= |rows|
  {
    if rows == [] then []
    else
      var n := |rows| - 1;
      Compact(rows[..n], keep[..n]) + if keep[n] then [rows[n]] else []
  }

  /** Modes 0 and 1 are reserved; a later mode stays when the new console has it. */
  function KeepFlags(col: seq<int>): (keep: seq<bool>)
    ensures |keep| == |col|
  {
    seq(|col|, i requires 0 <= i < |col| => i < 2 || col[i] != -1)
  }

  /** The rows with console d's mode numbers appended. */
  function Extend(rows: seq<seq<int>>, col: seq<int>): (r: seq<seq<int>>)
    requires |rows| == |col|
    ensures |r| == |rows|
  {
    seq(|rows|, i requires 0 <= i < |rows| => rows[i] + [col[i]])
  }

  function FirstQuery(d: Modes): (q: seq<Geometry>)
    ensures |q| == |d|
  {
    seq(|d|, m requires 0 <= m < |d| => if d[m].Some? then d[m].value else NO_GEOMETRY)
  }

  function FirstTable(d: Modes): (t: Table)
    ensures |d| >= 1 ==> Consistent(t, 1)
  {
    Table(FirstQuery(d), seq(|d|, m => [m]))
  }

  ghost function SyncResult(t: Table, width: nat, d: Modes): (r: (seq<Geometry>, seq<int>))
    requires Consistent(t, width)
    ensures |r.0| == |t.query| && |r.1| == |t.rows|
  {
    SyncColumn(t.query, Heads(t.rows), d, 0, Unmatched(|t.rows|))
  }

  ghost function Sync(t: Table, width: nat, d: Modes): (r: Table)
    requires Consistent(t, width)
    ensures Consistent(r, width + 1) && |r.query| == |t.query|
  {
    var (query, col) := SyncResult(t, width, d);
    var next := Table(query, Compact(Extend(t.rows, col), KeepFlags(col)));
    SyncConsistent(t, width, query, col);
    next
  }

  lemma SyncConsistent(t: Table, width: nat, query: seq<Geometry>, col: seq<int>)
    requires Consistent(t, width) && |query| == |t.query| && |col| == |t.rows|
    ensures Consistent(Table(query, Compact(Extend(t.rows, col), KeepFlags(col))), width + 1)
  {
    var rows, keep := Extend(t.rows, col), KeepFlags(col);
    CompactElements(rows, keep);
    forall i | 0 <= i < |Compact(rows, keep)|
      ensures |Compact(rows, keep)[i]| == width + 1 && 0 <= Compact(rows, keep)[i][0] < |query|
    {
      var x := Compact(rows, keep)[i];
      assert IsKept(rows, keep, x);
    }
  }

  ghost predicate IsKept<T>(rows: seq<T>, keep: seq<bool>, x: T)
    requires |keep| == |rows|
  {
    exists i :: 0 <= i < |rows| && keep[i] && x == rows[i]
  }

  /** Every row of the result is a kept row. */
  lemma {:induction false} CompactElements<T>(rows: seq<T>, keep: seq<bool>)
    requires |keep| == |rows|
    ensures forall x :: x in Compact(rows, keep) ==> IsKept(rows, keep, x)
  {
    if rows != [] {
      var n := |rows| - 1;
      CompactElements(rows[..n], keep[..n]);
      forall x | x in Compact(rows, keep)
        ensures IsKept(rows, keep, x)
      {
        if x in Compact(rows[..n], keep[..n]) {
          var i :| 0 <= i < n && keep[..n][i] && x == rows[..n][i];
          assert keep[i] && x == rows[i];
        } else {
          assert keep[n] && x == rows[n];
        }
      }
    }
  }

  /** The table for a list of consoles, the consoles being added in order. */
  ghost function Build(list: seq<Modes>): (t: Table)
    requires AllWellBehaved(list)
    ensures Consistent(t, |list|) && |t.query| == |list[0]|
  {
    if |list| == 1 then FirstTable(list[0])
    else Sync(Build(list[..|list| - 1]), |list| - 1, list[|list| - 1])
  }

  // ----- every advertised mode is a mode of every console, with the same size

  /** Row i names, for every console, a mode of its own with the recorded geometry. */
  ghost predicate Agrees(list: seq<Modes>, query: seq<Geometry>, row: seq<int>) {
    |row| == |list| >= 1 && 0 <= row[0] < |query| &&
    forall k :: 0 <= k < |list| ==> 0 <= row[k] < |list[k]| && list[k][row[k]] == Some(query[row[0]])
  }

  ghost predicate Increasing(heads: seq<int>) {
    forall i, j :: 0 <= i < j < |heads| ==> heads[i] < heads[j]
  }

  /** The two reserved modes, or the only one when the first console has just one. */
  function Reserved(list: seq<Modes>): nat
    requires |list| >= 1
  {
    if |list[0]| < 2 then |list[0]| else 2
  }

  /** The reserved rows come first, and the first console's mode numbers increase. */
  ghost predicate SoundHeads(list: seq<Modes>, t: Table)
    requires |list| >= 1 && Consistent(t, |list|)
  {
    && Reserved(list) <= |t.rows|
    && (|t.rows| <= 2 ==> |t.rows| == Reserved(list))
    && (forall i :: 0 <= i < |t.rows| && i < 2 ==> t.rows[i][0] == i)
    && Increasing(Heads(t.rows))
  }

  /** The geometries recorded are the first console's; that of mode 1 may have been cleared. */
  ghost predicate SoundQuery(list: seq<Modes>, t: Table)
    requires |list| >= 1 && |t.query| == |list[0]|
  {
    && (forall m :: 0 <= m < |list[0]| && m != 1 ==> list[0][m] == Some(t.query[m]))
    && (|t.query| > 1 ==> list[0][1] == Some(t.query[1]) || t.query[1] == NO_GEOMETRY)
  }

  ghost predicate Sound(list: seq<Modes>, t: Table) {
    && |list| >= 1 && Consistent(t, |list|) && |t.query| == |list[0]|
    && SoundHeads(list, t) && SoundQuery(list, t)
    && (forall i :: 2 <= i < |t.rows| ==> Agrees(list, t.query, t.rows[i]))
  }

  predicate MatchesMode(g: Geometry, d: Modes, m: int) {
    m == -1 || (0 <= m < |d| && d[m] == Some(g))
  }

  /** Matching never touches the geometry of a mode other than mode 1, and records true matches only. */
  lemma {:induction false} ColumnSound(query: seq<Geometry>, heads: seq<int>, d: Modes, m: nat, col: seq<int>)
    requires m <= |d| && |col| == |heads| && InRange(query, heads)
    requires forall i :: 2 <= i < |heads| ==> heads[i] >= 2
    requires forall i :: 2 <= i < |col| ==> MatchesMode(query[heads[i]], d, col[i])
    ensures var (q, c) := SyncColumn(query, heads, d, m, col);
      && (forall j :: 0 <= j < |q| && j != 1 ==> q[j] == query[j])
      && (|q| > 1 ==> q[1] == query[1] || q[1] == NO_GEOMETRY)
      && forall i :: 2 <= i < |c| ==> MatchesMode(query[heads[i]], d, c[i])
    decreases |d| - m
  {
    if m == |d| {
    } else if d[m].None? {
      if m == 1 {
        var q1 := if |query| > 1 then query[1 := NO_GEOMETRY] else query;
        ColumnSound(q1, heads, d, 2, if |col| > 1 then col[1 := 1] else col);
      } else {
        ColumnSound(query, heads, d, m + 1, col);
      }
    } else {
      var k := FirstMatch(query, heads, d[m].value, 0);
      ColumnSound(query, heads, d, m + 1, if k < |col| then col[k := m] else col);
    }
  }

  lemma {:induction false} CompactAll<T>(rows: seq<T>, keep: seq<bool>)
    requires |keep| == |rows| && forall i :: 0 <= i < |rows| ==> keep[i]
    ensures Compact(rows, keep) == rows
  {
    if rows != [] {
      var n := |rows| - 1;
      CompactAll(rows[..n], keep[..n]);
      assert rows == rows[..n] + [rows[n]];
    }
  }

  /** Compaction keeps a kept prefix in place and treats the rest on its own. */
  lemma {:induction false} CompactSplit<T>(rows: seq<T>, keep: seq<bool>, n: nat)
    requires |keep| == |rows| && n <= |rows|
    requires forall i :: 0 <= i < n ==> keep[i]
    ensures Compact(rows, keep) == rows[..n] + Compact(rows[n..], keep[n..])
    decreases |rows|
  {
    if n == |rows| {
      CompactAll(rows, keep);
    } else {
      var last := |rows| - 1;
      var tail := if keep[last] then [rows[last]] else [];
      CompactSplit(rows[..last], keep[..last], n);
      assert rows[..last][..n] == rows[..n];
      assert rows[..last][n..] == rows[n..][..last - n];
      assert keep[..last][n..] == keep[n..][..last - n];
      var rest := Compact(rows[n..][..last - n], keep[n..][..last - n]);
      assert Compact(rows[n..], keep[n..]) == rest + tail;
      assert Compact(rows, keep) == (rows[..n] + rest) + tail;
    }
  }

  /** Dropping rows keeps the first-console mode numbers increasing. */
  lemma {:induction false} CompactIncreasing(rows: seq<seq<int>>, keep: seq<bool>)
    requires |keep| == |rows| && forall i :: 0 <= i < |rows| ==> |rows[i]| >= 1
    requires Increasing(Heads(rows))
    ensures forall x :: x in Compact(rows, keep) ==> x in rows
    ensures forall i :: 0 <= i < |Compact(rows, keep)| ==> |Compact(rows, keep)[i]| >= 1
    ensures Increasing(Heads(Compact(rows, keep)))
  {
    if rows != [] {
      var n := |rows| - 1;
      var c := Compact(rows[..n], keep[..n]);
      assert Heads(rows[..n]) == Heads(rows)[..n];
      CompactIncreasing(rows[..n], keep[..n]);
      assert forall x :: x in rows[..n] ==> x in rows;
      forall x | x in c ensures x[0] < rows[n][0] {
        assert x in rows[..n];
        var i :| 0 <= i < n && rows[i] == x;
        assert Heads(rows)[i] < Heads(rows)[n];
      }
      var r := Compact(rows, keep);
      assert forall i :: 0 <= i < |c| ==> c[i] in c && r[i] == c[i];
      forall i, j | 0 <= i < j < |r| ensures Heads(r)[i] < Heads(r)[j] {
        if j < |c| {
          assert Heads(c)[i] < Heads(c)[j];
        } else {
          assert r[j] == rows[n] && c[i] in c;
        }
      }
    }
  }

  lemma AgreesExtend(list: seq<Modes>, q0: seq<Geometry>, q1: seq<Geometry>, row: seq<int>, d: Modes, m: int)
    requires Agrees(list, q0, row) && |q1| == |q0| && q1[row[0]] == q0[row[0]]
    requires MatchesMode(q0[row[0]], d, m) && m != -1
    ensures Agrees(list + [d], q1, row + [m])
  {
  }

  /** The table after one more console, taken apart: reserved rows, then the kept later rows. */
  lemma SyncParts(t: Table, width: nat, d: Modes, n: nat)
    requires Consistent(t, width) && n <= |t.rows| && n <= 2
    ensures var (query, col) := SyncResult(t, width, d);
      && Sync(t, width, d).query == query
      && Sync(t, width, d).rows == Extend(t.rows, col)[..n] +
           Compact(Extend(t.rows, col)[n..], KeepFlags(col)[n..])
  {
    var (query, col) := SyncResult(t, width, d);
    CompactSplit(Extend(t.rows, col), KeepFlags(col), n);
  }

  lemma RowAgrees(list: seq<Modes>, t: Table, d: Modes, j: nat)
    requires Sound(list, t) && 2 <= j < |t.rows|
    ensures var (query, col) := SyncResult(t, |list|, d);
      col[j] != -1 ==> Agrees(list + [d], query, t.rows[j] + [col[j]])
  {
    var heads := Heads(t.rows);
    assert forall i :: 2 <= i < |heads| ==> heads[1] < heads[i];
    ColumnSound(t.query, heads, d, 0, Unmatched(|t.rows|));
    var (query, col) := SyncResult(t, |list|, d);
    assert MatchesMode(t.query[heads[j]], d, col[j]);
    if col[j] != -1 {
      AgreesExtend(list, t.query, query, t.rows[j], d, col[j]);
    }
  }

  lemma SyncAgrees(list: seq<Modes>, t: Table, d: Modes)
    requires Sound(list, t)
    ensures var next := Sync(t, |list|, d);
      forall i :: 2 <= i < |next.rows| ==> Agrees(list + [d], next.query, next.rows[i])
  {
    if |t.rows| >= 2 {
      var (query, col) := SyncResult(t, |list|, d);
      var rows, keep := Extend(t.rows, col)[2..], KeepFlags(col)[2..];
      SyncParts(t, |list|, d, 2);
      CompactElements(rows, keep);
      forall x | x in Compact(rows, keep)
        ensures Agrees(list + [d], query, x)
      {
        assert IsKept(rows, keep, x);
        var j :| 0 <= j < |rows| && keep[j] && x == rows[j];
        RowAgrees(list, t, d, 2 + j);
      }
    }
  }

  lemma SyncQuery(list: seq<Modes>, t: Table, d: Modes)
    requires Sound(list, t)
    ensures SoundQuery(list + [d], Sync(t, |list|, d))
  {
    var heads := Heads(t.rows);
    assert forall i :: 2 <= i < |heads| ==> heads[1] < heads[i];
    ColumnSound(t.query, heads, d, 0, Unmatched(|t.rows|));
  }

  lemma SyncHeads(list: seq<Modes>, t: Table, d: Modes)
    requires Sound(list, t)
    ensures SoundHeads(list + [d], Sync(t, |list|, d))
  {
    var (query, col) := SyncResult(t, |list|, d);
    var rows, keep := Extend(t.rows, col), KeepFlags(col);
    assert Heads(rows) == Heads(t.rows);
    CompactIncreasing(rows, keep);
    var n := if |rows| < 2 then |rows| else 2;
    SyncParts(t, |list|, d, n);
    assert (list + [d])[0] == list[0] && (n == 2 ==> t.rows[1][0] == 1);
    assert forall i :: 0 <= i < n ==> Sync(t, |list|, d).rows[i] == t.rows[i] + [col[i]];
  }

  lemma SyncSound(list: seq<Modes>, t: Table, d: Modes)
    requires Sound(list, t)
    ensures Sound(list + [d], Sync(t, |list|, d))
  {
    SyncQuery(list, t, d);
    SyncHeads(list, t, d);
    SyncAgrees(list, t, d);
    hide Sync, SoundQuery, SoundHeads, Agrees;
  }

  /**
    Every advertised mode from 2 on maps each console to a mode of its own, and
    all of those have the same number of columns and rows.
  */
  lemma {:induction false} BuildSound(list: seq<Modes>)
    requires AllWellBehaved(list)
    ensures Sound(list, Build(list))
  {
    if |list| == 1 {
      var t := Build(list);
      assert forall i :: 0 <= i < |t.rows| ==> Heads(t.rows)[i] == i;
      assert forall i :: 2 <= i < |t.rows| ==> Agrees(list, t.query, t.rows[i]);
    } else {
      var n := |list| - 1;
      BuildSound(list[..n]);
      SyncSound(list[..n], Build(list[..n]), list[n]);
      assert list[..n] + [list[n]] == list;
    }
  }

  // ----- the two reserved modes

  /** Every console has its mode i with the size of the first console's, and mode 1 is no second mode 0. */
  ghost predicate SameReserved(list: seq<Modes>, i: nat) {
    i < 2 && |list| >= 1 && i < |list[0]| &&
    (forall k :: 0 <= k < |list| ==> i < |list[k]| && list[k][i].Some? && list[k][i] == list[0][i]) &&
    (i == 1 ==> list[0][1] != list[0][0])
  }

  lemma {:induction false} ReservedColumn(query: seq<Geometry>, heads: seq<int>, d: Modes, m: nat, col: seq<int>, i: nat)
    requires m <= |d| && |col| == |heads| && InRange(query, heads)
    requires i < 2 && i < |heads| && i < |query| && heads[0] == 0 && heads[i] == i && (i == 1 ==> query[0] != query[1])
    requires i < |d| && d[i] == Some(query[i])
    requires MatchesMode(query[i], d, col[i]) && (m > i ==> col[i] != -1)
    ensures var (q, c) := SyncColumn(query, heads, d, m, col);
      MatchesMode(query[i], d, c[i]) && c[i] != -1 && q[i] == query[i]
    decreases |d| - m
  {
    if m == |d| {
    } else if d[m].None? {
      if m == 1 {
        ReservedColumn(if |query| > 1 then query[1 := NO_GEOMETRY] else query, heads, d, 2,
                       if |col| > 1 then col[1 := 1] else col, i);
      } else {
        ReservedColumn(query, heads, d, m + 1, col, i);
      }
    } else {
      var k := FirstMatch(query, heads, d[m].value, 0);
      assert d[m].value == query[i] ==> k == i;
      ReservedColumn(query, heads, d, m + 1, if k < |col| then col[k := m] else col, i);
    }
  }

  lemma SyncReserved(list: seq<Modes>, t: Table, d: Modes, i: nat)
    requires Sound(list, t) && SameReserved(list + [d], i) && i < |t.rows| && Agrees(list, t.query, t.rows[i])
    ensures var next := Sync(t, |list|, d);
      i < |next.rows| && Agrees(list + [d], next.query, next.rows[i])
  {
    var heads, both := Heads(t.rows), list + [d];
    assert both[|list|] == d && both[0] == list[0];
    assert i == 1 ==> heads[0] == 0;
    assert list[0][i] == Some(t.query[i]);
    assert list[0][0] == Some(t.query[0]);
    ReservedColumn(t.query, heads, d, 0, Unmatched(|t.rows|), i);
    var (query, col) := SyncResult(t, |list|, d);
    AgreesExtend(list, t.query, query, t.rows[i], d, col[i]);
    SyncParts(t, |list|, d, i + 1);
  }

  /** When all consoles have the reserved mode in the same size, its row names such a mode of each. */
  lemma {:induction false} BuildReserved(list: seq<Modes>, i: nat)
    requires AllWellBehaved(list) && SameReserved(list, i)
    ensures i < |Build(list).rows| && Agrees(list, Build(list).query, Build(list).rows[i])
  {
    if |list| > 1 {
      var n := |list| - 1;
      assert list[..n] + [list[n]] == list;
      BuildReserved(list[..n], i);
      BuildSound(list[..n]);
      SyncReserved(list[..n], Build(list[..n]), list[n], i);
    }
  }
}
