/**
  What the splitter's mode table is: the geometries common to all consoles.

  When no console lists a geometry twice, the advertised modes from 2 on are
  exactly the first console's modes from 2 on whose geometry every console has,
  in order.
*/
module ModeIntersection {
  import opened ModeMap

  /** The first mode of d, from m on, with geometry g; -1 if there is none. */
  function ModeOf(d: Modes, g: Geometry, m: nat): (r: int)
    requires m <= |d|
    ensures r == -1 || (m <= r < |d| && d[r] == Some(g))
    ensures r == -1 ==> forall j :: m <= j < |d| ==> d[j] != Some(g)
    decreases |d| - m
  {
    if m == |d| then -1 else if d[m] == Some(g) then m else ModeOf(d, g, m + 1)
  }

  function CommonRow(list: seq<Modes>, g: Geometry): (row: seq<int>)
    ensures |row| == |list|
  {
    seq(|list|, k requires 0 <= k < |list| => ModeOf(list[k], g, 0))
  }

  /** One row for each mode 2 <= m < n of the first console that every console has. */
  function Common(list: seq<Modes>, n: nat): (rows: seq<seq<int>>)
    requires AllWellBehaved(list) && n <= |list[0]|
    ensures forall i :: 0 <= i < |rows| ==> |rows[i]| == |list| && 0 <= rows[i][0] < |list[0]|
    ensures forall i :: 0 <= i < |rows| ==> list[0][rows[i][0]].Some?
  {
    if n <= 2 then []
    else
      var row := CommonRow(list, list[0][n - 1].value);
      Common(list, n - 1) + if -1 in row then [] else [row]
  }

  ghost predicate Distinct(d: Modes) {
    forall m, n :: 0 <= m < n < |d| && d[m].Some? ==> d[m] != d[n]
  }

  /** No geometry is listed twice, and none from mode 2 on is empty. */
  ghost predicate Plain(list: seq<Modes>) {
    AllWellBehaved(list) &&
    (forall k :: 0 <= k < |list| ==> Distinct(list[k])) &&
    forall m :: 2 <= m < |list[0]| ==> list[0][m] != Some(NO_GEOMETRY)
  }

  /** Row i is the only row in which geometry g can be found, now and after mode 1 is cleared. */
  ghost predicate OnlyRow(query: seq<Geometry>, heads: seq<int>, g: Geometry, i: nat) {
    InRange(query, heads) && i < |heads| && heads[i] >= 2 && query[heads[i]] == g && g != NO_GEOMETRY &&
    forall j :: 0 <= j < |heads| && j != i ==> query[heads[j]] != g
  }

  /** Matching puts into such a row exactly the new console's mode with that geometry. */
  lemma {:induction false} ColumnExact(query: seq<Geometry>, heads: seq<int>, d: Modes, m: nat,
                                       col: seq<int>, g: Geometry, i: nat)
    requires m <= |d| && |col| == |heads| && Distinct(d) && OnlyRow(query, heads, g, i) && i != 1
    ensures SyncColumn(query, heads, d, m, col).1[i] ==
      (if ModeOf(d, g, m) == -1 then col[i] else ModeOf(d, g, m))
    decreases |d| - m
  {
    if m == |d| {
    } else if d[m].None? {
      if m == 1 {
        var q1 := if |query| > 1 then query[1 := NO_GEOMETRY] else query;
        ColumnExact(q1, heads, d, 2, if |col| > 1 then col[1 := 1] else col, g, i);
      } else {
        ColumnExact(query, heads, d, m + 1, col, g, i);
      }
    } else {
      var k := FirstMatch(query, heads, d[m].value, 0);
      var next := if k < |col| then col[k := m] else col;
      ColumnExact(query, heads, d, m + 1, next, g, i);
      if d[m].value == g {
        assert k == i;
      } else {
        assert k != i;
      }
    }
  }

  /** In a sound table of plain consoles each later row is the only one with its geometry. */
  lemma RowIsOnly(list: seq<Modes>, t: Table, i: nat)
    requires Plain(list) && Sound(list, t) && 2 <= i < |t.rows|
    ensures OnlyRow(t.query, Heads(t.rows), t.query[t.rows[i][0]], i)
  {
    var heads := Heads(t.rows);
    assert heads[1] < heads[i];
    var g := t.query[heads[i]];
    assert list[0][heads[i]] == Some(g);
    forall j | 0 <= j < |heads| && j != i
      ensures t.query[heads[j]] != g
    {
      assert heads[j] < heads[i] || heads[i] < heads[j];
      if heads[j] != 1 {
        assert list[0][heads[j]] == Some(t.query[heads[j]]);
      }
    }
  }

  /** The mode numbers of d for the geometries of the given rows. */
  function ModesFor(first: Modes, d: Modes, rows: seq<seq<int>>): (col: seq<int>)
    requires forall i :: 0 <= i < |rows| ==> |rows[i]| >= 1 && 0 <= rows[i][0] < |first| && first[rows[i][0]].Some?
    ensures |col| == |rows|
  {
    seq(|rows|, i requires 0 <= i < |rows| => ModeOf(d, first[rows[i][0]].value, 0))
  }

  function HasMode(col: seq<int>): (keep: seq<bool>)
    ensures |keep| == |col|
  {
    seq(|col|, i requires 0 <= i < |col| => col[i] != -1)
  }

  /** Adding a console to the intersection keeps the rows for which it has a mode. */
  lemma {:induction false} CommonExtend(list: seq<Modes>, d: Modes, n: nat)
    requires AllWellBehaved(list) && WellBehaved(d) && n <= |list[0]|
    ensures var rows := Common(list, n);
      var col := ModesFor(list[0], d, rows);
      Compact(Extend(rows, col), HasMode(col)) == Common(list + [d], n)
  {
    if n > 2 {
      CommonExtend(list, d, n - 1);
      var g := list[0][n - 1].value;
      var before, rows := Common(list, n - 1), Common(list, n);
      var row := CommonRow(list, g);
      CommonRowExtend(list, d, g);
      assert (list + [d])[0] == list[0];
      if -1 !in row {
        assert rows == before + [row];
        assert row[0] != -1 && list[0][row[0]] == Some(g);
        ModesForLast(list[0], d, before, row, g);
        hide Compact, Extend, HasMode, ModesFor, ModeOf, CommonRow;
        ExtendLast(before, row, ModesFor(list[0], d, before), ModeOf(d, g, 0));
      } else {
        assert rows == before;
      }
    }
  }

  lemma ModesForLast(first: Modes, d: Modes, rows: seq<seq<int>>, row: seq<int>, g: Geometry)
    requires forall i :: 0 <= i < |rows| ==> |rows[i]| >= 1 && 0 <= rows[i][0] < |first| && first[rows[i][0]].Some?
    requires |row| >= 1 && 0 <= row[0] < |first| && first[row[0]] == Some(g)
    ensures ModesFor(first, d, rows + [row]) == ModesFor(first, d, rows) + [ModeOf(d, g, 0)]
  {
  }

  lemma CommonRowExtend(list: seq<Modes>, d: Modes, g: Geometry)
    ensures CommonRow(list + [d], g) == CommonRow(list, g) + [ModeOf(d, g, 0)]
    ensures -1 in CommonRow(list + [d], g) <==> -1 in CommonRow(list, g) || ModeOf(d, g, 0) == -1
  {
  }

  /** One more row with its new entry: it is kept if it has one. */
  lemma ExtendLast(rows: seq<seq<int>>, row: seq<int>, col: seq<int>, m: int)
    requires |rows| == |col|
    ensures Compact(Extend(rows + [row], col + [m]), HasMode(col + [m])) ==
      Compact(Extend(rows, col), HasMode(col)) + if m != -1 then [row + [m]] else []
  {
    var longer, keep := Extend(rows + [row], col + [m]), HasMode(col + [m]);
    assert longer[..|rows|] == Extend(rows, col) && keep[..|rows|] == HasMode(col);
  }

  lemma NewColumn(list: seq<Modes>, t: Table, d: Modes, i: nat)
    requires Plain(list) && Distinct(d) && Sound(list, t) && 2 <= i < |t.rows|
    ensures list[0][t.rows[i][0]].Some?
    ensures SyncResult(t, |list|, d).1[i] == ModeOf(d, list[0][t.rows[i][0]].value, 0)
  {
    RowIsOnly(list, t, i);
    var heads, g := Heads(t.rows), t.query[t.rows[i][0]];
    ColumnExact(t.query, heads, d, 0, Unmatched(|t.rows|), g, i);
  }

  lemma LaterColumn(list: seq<Modes>, t: Table, d: Modes, i: nat)
    requires Plain(list) && Distinct(d) && Sound(list, t)
    requires t.rows[Reserved(list)..] == Common(list, |list[0]|) && i < |Common(list, |list[0]|)|
    ensures var r, rows := Reserved(list), Common(list, |list[0]|);
      && r + i < |t.rows| && r + i >= 2 && t.rows[r + i] == rows[i]
      && SyncResult(t, |list|, d).1[r + i] == ModesFor(list[0], d, rows)[i]
  {
    hide SyncResult, Common, ModeOf, Increasing, Agrees;
    var r, rows := Reserved(list), Common(list, |list[0]|);
    assert t.rows[r..][i] == rows[i];
    NewColumn(list, t, d, r + i);
  }

  lemma LaterColumns(list: seq<Modes>, t: Table, d: Modes)
    requires Plain(list) && Distinct(d) && Sound(list, t)
    requires t.rows[Reserved(list)..] == Common(list, |list[0]|)
    ensures var r, col, rows := Reserved(list), SyncResult(t, |list|, d).1, Common(list, |list[0]|);
      && Extend(t.rows, col)[r..] == Extend(rows, ModesFor(list[0], d, rows))
      && KeepFlags(col)[r..] == HasMode(ModesFor(list[0], d, rows))
  {
    var r, col, rows := Reserved(list), SyncResult(t, |list|, d).1, Common(list, |list[0]|);
    var mine := ModesFor(list[0], d, rows);
    assert |rows| == |t.rows| - r;
    forall i | 0 <= i < |rows|
      ensures Extend(t.rows, col)[r..][i] == Extend(rows, mine)[i]
      ensures KeepFlags(col)[r..][i] == HasMode(mine)[i]
    {
      LaterColumn(list, t, d, i);
    }
  }

  lemma SyncIsIntersection(list: seq<Modes>, t: Table, d: Modes)
    requires Plain(list) && Distinct(d) && WellBehaved(d) && Sound(list, t)
    requires t.rows[Reserved(list)..] == Common(list, |list[0]|)
    ensures Reserved(list) <= |Sync(t, |list|, d).rows|
    ensures Sync(t, |list|, d).rows[Reserved(list)..] == Common(list + [d], |list[0]|)
  {
    SyncParts(t, |list|, d, Reserved(list));
    LaterColumns(list, t, d);
    CommonExtend(list, d, |list[0]|);
  }

  lemma {:induction false} FirstIsCommon(list: seq<Modes>, n: nat)
    requires Plain(list) && |list| == 1 && Reserved(list) <= n <= |list[0]|
    ensures Common(list, n) == FirstTable(list[0]).rows[Reserved(list)..n]
  {
    if n > Reserved(list) {
      FirstIsCommon(list, n - 1);
      var g := list[0][n - 1].value;
      var m := ModeOf(list[0], g, 0);
      assert m == n - 1;
      assert CommonRow(list, g) == [n - 1];
      assert FirstTable(list[0]).rows[n - 1] == [n - 1];
    }
  }

  /**
    The table the driver builds is the intersection of its consoles' modes: no
    common geometry from mode 2 on is lost, none is invented, and the order is
    that of the first console.
  */
  lemma {:induction false} BuildIsIntersection(list: seq<Modes>)
    requires Plain(list)
    ensures Sound(list, Build(list))
    ensures Build(list).rows[Reserved(list)..] == Common(list, |list[0]|)
  {
    BuildSound(list);
    if |list| == 1 {
      FirstIsCommon(list, |list[0]|);
    } else {
      var last := |list| - 1;
      var before, d := list[..last], list[last];
      assert before + [d] == list;
      BuildIsIntersection(before);
      SyncIsIntersection(before, Build(before), d);
    }
  }
}
