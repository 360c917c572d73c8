/**
  ConSplitterGetIntersection: compact the mode map in place, keeping the reserved
  rows and those the new console can show.  The filter is usually a column of the
  very table being compacted.
*/
module ModeFilter {
  import opened ModeMap
  import opened FlatMap

  /** How many of the flags are set. */
  function Kept(keep: seq<bool>): (n: nat)
    ensures n <= |keep|
  {
    if keep == [] then 0 else Kept(keep[..|keep| - 1]) + if keep[|keep| - 1] then 1 else 0
  }

  /**
    The current mode's number after the first `index` rows were looked at: -1 if
    its row was dropped, otherwise lowered by the rows dropped before it.
  */
  function ModeAfter(keep: seq<bool>, mode: int, index: nat): int
    requires index <= |keep|
  {
    if 0 <= mode < index then if keep[mode] then Kept(keep[..mode]) else -1
    else if mode < 0 then mode
    else mode - (index - Kept(keep[..index]))
  }

  lemma {:induction false} CompactLength<T>(rows: seq<T>, keep: seq<bool>)
    requires |rows| == |keep|
    ensures |Compact(rows, keep)| == Kept(keep)
  {
    if rows != [] {
      CompactLength(rows[..|rows| - 1], keep[..|rows| - 1]);
    }
  }

  lemma CompactNext<T>(rows: seq<T>, keep: seq<bool>, n: nat)
    requires |rows| == |keep| && n < |rows|
    ensures Compact(rows[..n + 1], keep[..n + 1]) ==
            Compact(rows[..n], keep[..n]) + if keep[n] then [rows[n]] else []
    ensures Kept(keep[..n + 1]) == Kept(keep[..n]) + if keep[n] then 1 else 0
  {
    assert rows[..n + 1][..n] == rows[..n] && keep[..n + 1][..n] == keep[..n];
  }

  /** A kept row is found at the number ModeAfter gives for it; for a dropped one that is -1. */
  lemma {:induction false} ModeFollowsRow<T>(rows: seq<T>, keep: seq<bool>, mode: nat)
    requires |rows| == |keep| && mode < |rows|
    ensures !keep[mode] ==> ModeAfter(keep, mode, |keep|) == -1
    ensures keep[mode] ==>
      var m := ModeAfter(keep, mode, |keep|);
      0 <= m < |Compact(rows, keep)| && Compact(rows, keep)[m] == rows[mode]
  {
    var n := |rows| - 1;
    if mode == n {
      CompactLength(rows[..n], keep[..n]);
    } else {
      ModeFollowsRow(rows[..n], keep[..n], mode);
      assert keep[..n][..mode] == keep[..mode];
    }
  }

  lemma RowsPrefix(flat: seq<int>, step: nat, m: nat, n: nat)
    requires m <= n && Off(step, n) <= |flat|
    ensures Off(step, m) <= |flat| && RowsOf(flat, step, m) == RowsOf(flat, step, n)[..m]
  {
  }

  /** The rows of the table when `index` of its n rows were looked at and `kept` of them kept. */
  ghost predicate Progress(now: seq<seq<int>>, rows: seq<seq<int>>, keep: seq<bool>, index: nat, kept: nat) {
    |now| == |rows| == |keep| && kept <= index <= |rows| &&
    now[..kept] == Compact(rows[..index], keep[..index]) &&
    forall j :: index <= j < |rows| ==> now[j] == rows[j]
  }

  lemma ProgressStep(now: seq<seq<int>>, after: seq<seq<int>>, rows: seq<seq<int>>, keep: seq<bool>,
                     index: nat, kept: nat)
    requires Progress(now, rows, keep, index, kept) && index < |rows|
    requires after == if keep[index] then now[kept := now[index]] else now
    ensures Progress(after, rows, keep, index + 1, if keep[index] then kept + 1 else kept)
  {
    CompactNext(rows, keep, index);
    if keep[index] {
      assert after[..kept + 1] == now[..kept] + [rows[index]];
    }
  }

  function Min(a: nat, b: nat): nat { if a < b then a else b }

  /** The reserved rows are kept before the loop looks at any. */
  lemma ReservedKept(rows: seq<seq<int>>, col: seq<int>, mode: int)
    requires |rows| == |col|
    ensures var keep, n := KeepFlags(col), Min(2, |rows|);
      && Progress(rows, rows, keep, n, n) && Kept(keep[..n]) == n && ModeAfter(keep, mode, n) == mode
  {
  }

  lemma {:induction false} KeptAll(keep: seq<bool>)
    requires forall i :: 0 <= i < |keep| ==> keep[i]
    ensures Kept(keep) == |keep|
  {
    if keep != [] {
      KeptAll(keep[..|keep| - 1]);
    }
  }

  lemma ModeNext(keep: seq<bool>, mode: int, index: nat)
    requires index < |keep|
    ensures ModeAfter(keep, mode, index + 1) ==
      if keep[index] then ModeAfter(keep, mode, index)
      else if index == mode then -1
      else if index < mode then ModeAfter(keep, mode, index) - 1
      else ModeAfter(keep, mode, index)
    ensures Kept(keep[..index + 1]) == Kept(keep[..index]) + if keep[index] then 1 else 0
  {
    CompactNext(keep, keep, index);
  }

  /** Move row `index` down to row `kept`, unless it is there already. */
  method KeepRow(table: array<int>, nextEntry: nat, currentEntry: nat, step: nat,
                 ghost n: nat, ghost kept: nat, ghost index: nat)
    requires step >= 1 && kept <= index < n && Off(step, n) <= table.Length
    requires nextEntry == Off(step, kept) && currentEntry == Off(step, index)
    modifies table
    ensures RowsOf(table[..], step, n) ==
      RowsOf(old(table[..]), step, n)[kept := RowsOf(old(table[..]), step, n)[index]]
  {
    RowInside(step, index, n);
    if kept < index {
      RowOrder(step, kept, index);
    }
    if currentEntry != nextEntry {
      CopyRow(table, nextEntry, currentEntry, step);
      RowCopied(old(table[..]), table[..], step, n, kept, index);
    }
  }

  /** What a call of GetIntersection started from. */
  datatype Start = Start(table: seq<int>, filter: seq<int>, aliased: bool,
                         first: nat, step: nat, filterStep: nat, n: nat, mode: int)

  ghost predicate ValidStart(s: Start) {
    s.step >= 1 && Off(s.step, s.n) <= |s.table| &&
    (s.n > 0 ==> s.first + Off(s.filterStep, s.n - 1) < |s.filter|) &&
    (s.aliased ==> s.filter == s.table && s.filterStep == s.step && s.first < s.step)
  }

  ghost function StartRows(s: Start): (rows: seq<seq<int>>)
    requires ValidStart(s)
    ensures |rows| == s.n
  {
    RowsOf(s.table, s.step, s.n)
  }

  ghost function StartFlags(s: Start): (keep: seq<bool>)
    requires ValidStart(s)
    ensures |keep| == s.n
  {
    KeepFlags(Column(s.filter, s.first, s.filterStep, s.n))
  }

  /** The loop's state when the first `done` rows were looked at and `kept` of them kept. */
  ghost predicate Reached(s: Start, table: seq<int>, filter: seq<int>, done: nat, kept: nat, newMax: nat, newMode: int) {
    ValidStart(s) && |table| == |s.table| && done <= s.n &&
    Progress(RowsOf(table, s.step, s.n), StartRows(s), StartFlags(s), done, kept) &&
    filter == (if s.aliased then table else s.filter) &&
    kept == Kept(StartFlags(s)[..done]) && newMax == s.n - (done - kept) &&
    newMode == ModeAfter(StartFlags(s), s.mode, done)
  }

  /** The filter entry read for a row not yet looked at is the one that was there at the start. */
  lemma FilterUnchanged(s: Start, table: seq<int>, filter: seq<int>, index: nat, kept: nat, newMax: nat, newMode: int)
    requires Reached(s, table, filter, index, kept, newMax, newMode) && index < s.n
    ensures s.first + Off(s.filterStep, index) < |filter|
    ensures filter[s.first + Off(s.filterStep, index)] == Column(s.filter, s.first, s.filterStep, s.n)[index]
  {
    hide Compact, Kept, ModeAfter, KeepFlags;
    EntryInside(s.first, s.filterStep, index, s.n);
    if s.aliased {
      EntryOfRow(table, s.first, s.step, s.n, index);
      EntryOfRow(s.table, s.first, s.step, s.n, index);
    }
  }

  lemma EntryOfRow(flat: seq<int>, first: nat, step: nat, n: nat, i: nat)
    requires Off(step, n) <= |flat| && first < step && i < n
    ensures 0 <= Off(step, i) && first + Off(step, i) < |flat|
    ensures flat[first + Off(step, i)] == RowsOf(flat, step, n)[i][first]
  {
  }

  /** Dropping the next row. */
  lemma ReachByDropping(s: Start, table: seq<int>, filter: seq<int>, index: nat, kept: nat, newMax: nat, newMode: int)
    requires Reached(s, table, filter, index, kept, newMax, newMode) && index < s.n
    requires !StartFlags(s)[index]
    ensures newMax >= 1
    ensures Reached(s, table, filter, index + 1, kept, newMax - 1,
      if index == s.mode then -1 else if index < s.mode then newMode - 1 else newMode)
  {
    ModeNext(StartFlags(s), s.mode, index);
    var now := RowsOf(table, s.step, s.n);
    ProgressStep(now, now, StartRows(s), StartFlags(s), index, kept);
  }

  /** Keeping the next row. */
  lemma ReachByKeeping(s: Start, table: seq<int>, after: seq<int>, filter: seq<int>, filterAfter: seq<int>,
                       index: nat, kept: nat, newMax: nat, newMode: int)
    requires Reached(s, table, filter, index, kept, newMax, newMode) && index < s.n
    requires StartFlags(s)[index]
    requires |after| == |table| && filterAfter == (if s.aliased then after else filter)
    requires RowsOf(after, s.step, s.n) == RowsOf(table, s.step, s.n)[kept := RowsOf(table, s.step, s.n)[index]]
    ensures Reached(s, after, filterAfter, index + 1, kept + 1, newMax, newMode)
  {
    ModeNext(StartFlags(s), s.mode, index);
    ProgressStep(RowsOf(table, s.step, s.n), RowsOf(after, s.step, s.n), StartRows(s), StartFlags(s), index, kept);
  }

  lemma ReachedStart(s: Start)
    requires ValidStart(s)
    ensures Reached(s, s.table, if s.aliased then s.table else s.filter, Min(2, s.n), Min(2, s.n), s.n, s.mode)
  {
    ReservedKept(StartRows(s), Column(s.filter, s.first, s.filterStep, s.n), s.mode);
  }

  lemma ReachedEnd(s: Start, table: seq<int>, filter: seq<int>, kept: nat, newMax: nat, newMode: int)
    requires Reached(s, table, filter, s.n, kept, newMax, newMode)
    ensures newMax == Kept(StartFlags(s)) <= s.n && Off(s.step, newMax) <= |table|
    ensures RowsOf(table, s.step, newMax) == Compact(StartRows(s), StartFlags(s))
    ensures newMode == ModeAfter(StartFlags(s), s.mode, s.n)
  {
    var rows, keep := StartRows(s), StartFlags(s);
    assert rows[..s.n] == rows && keep[..s.n] == keep;
    RowsPrefix(table, s.step, newMax, s.n);
  }

  /**
    Drop every row from 2 on whose filter entry is -1.  The filter may be a
    column of the table: each entry is read before its row can be overwritten.
  */
  method GetIntersection(table: array<int>, filter: array<int>, first: nat, step: nat, filterStep: nat,
                         maxMode: nat, currentMode: int)
    returns (newMax: nat, newMode: int)
    requires step >= 1 && Off(step, maxMode) <= table.Length
    requires maxMode > 0 ==> first + Off(filterStep, maxMode - 1) < filter.Length
    requires filter == table ==> filterStep == step && first < step
    modifies table
    ensures var rows := RowsOf(old(table[..]), step, maxMode);
      var keep := KeepFlags(Column(old(filter[..]), first, filterStep, maxMode));
      && newMax == Kept(keep) <= maxMode && Off(step, newMax) <= table.Length
      && RowsOf(table[..], step, newMax) == Compact(rows, keep)
      && newMode == ModeAfter(keep, currentMode, maxMode)
  {
    hide Progress, Compact, ModeAfter, Reached;
    ghost var start := Start(table[..], filter[..], filter == table, first, step, filterStep, maxMode, currentMode);
    ghost var done: nat := Min(2, maxMode);
    ghost var kept: nat := done;
    newMax, newMode := maxMode, currentMode;
    var index := 2;
    var currentEntry := Off(step, 2);
    var nextEntry := currentEntry;
    var newEntry := first + Off(filterStep, 2);
    ReachedStart(start);
    while index < maxMode
      invariant 2 <= index && done == Min(index, maxMode)
      invariant index <= maxMode ==> nextEntry == Off(step, kept)
      invariant currentEntry == Off(step, index) && newEntry == first + Off(filterStep, index)
      invariant Reached(start, table[..], filter[..], done, kept, newMax, newMode)
    {
      var keep;
      keep, newMax, newMode :=
        ExamineRow(table, filter, start, nextEntry, currentEntry, newEntry, step, index, currentMode,
                   kept, newMax, newMode);
      if keep {
        nextEntry := nextEntry + step;
        kept := kept + 1;
      }
      currentEntry := currentEntry + step;
      newEntry := newEntry + filterStep;
      index := index + 1;
      done := index;
    }
    ReachedEnd(start, table[..], filter[..], kept, newMax, newMode);
  }

  /** Look at one row: keep it, moving it down to nextEntry, or drop it. */
  method ExamineRow(table: array<int>, filter: array<int>, ghost start: Start, nextEntry: nat, currentEntry: nat,
                    newEntry: nat, step: nat, index: nat, currentMode: int, ghost kept: nat, max: nat, mode: int)
    returns (keep: bool, newMax: nat, newMode: int)
    requires Reached(start, table[..], filter[..], index, kept, max, mode) && 2 <= index < start.n
    requires start.aliased == (filter == table) && start.step == step && start.mode == currentMode
    requires nextEntry == Off(step, kept) && currentEntry == Off(step, index)
    requires newEntry == start.first + Off(start.filterStep, index)
    modifies table
    ensures Reached(start, table[..], filter[..], index + 1, if keep then kept + 1 else kept, newMax, newMode)
  {
    ghost var flat, fil := table[..], filter[..];
    FilterUnchanged(start, flat, fil, index, kept, max, mode);
    newMax, newMode := max, mode;
    if filter[newEntry] == -1 {
      if index == currentMode {
        newMode := -1;
      } else if index < currentMode {
        newMode := newMode - 1;
      }
      newMax := newMax - 1;
      ReachByDropping(start, flat, fil, index, kept, max, mode);
      keep := false;
    } else {
      KeepRow(table, nextEntry, currentEntry, step, start.n, kept, index);
      ReachByKeeping(start, flat, table[..], fil, filter[..], index, kept, max, mode);
      keep := true;
    }
  }
}
