/**
  The console splitter's text-mode map: ConSplitter.c.

  The map is a flat array with one row per splitter mode and one column per
  console, grown, filled and compacted in place.  After any run of adding and
  deleting consoles it shows the table ModeMap.Build gives for the consoles that
  are attached, and hence (ModeIntersection) their common modes.
*/
module ConSplitter {
  import opened Attached
  import opened ModeMap
  import opened ModeIntersection
  import opened FlatMap
  import opened ModeFilter

  const ALLOC_UNIT: nat := 32

  type TextConsole = Console<Modes>

  function ModesOf(consoles: seq<TextConsole>): (list: seq<Modes>)
    ensures |list| == |consoles|
  {
    seq(|consoles|, k requires 0 <= k < |consoles| => consoles[k].device)
  }

  datatype Event = Attach(console: TextConsole) | Detach(handle: nat) | Set(modeNumber: nat)

  /** The consoles that the first n events leave attached. */
  function Replay(consoles: seq<TextConsole>, events: seq<Event>, n: nat): (r: seq<TextConsole>)
    requires n <= |events|
  {
    if n == 0 then consoles else
      var before := Replay(consoles, events, n - 1);
      match events[n - 1]
      case Attach(console) => before + [console]
      case Detach(handle) => Removed(before, handle)
      case Set(_) => before
  }

  // ----- the mode the splitter is in

  /** The current mode's number after one more console was matched. */
  ghost function ModeSynced(list: seq<Modes>, d: Modes, mode: int): int
    requires AllWellBehaved(list)
  {
    var col := SyncResult(Build(list), |list|, d).1;
    ModeAfter(KeepFlags(col), mode, |col|)
  }

  /** The current mode's number after the map was built anew, console by console. */
  ghost function ModeRebuilt(list: seq<Modes>, mode: int): int
    requires AllWellBehaved(list)
  {
    if |list| == 1 then mode
    else ModeSynced(list[..|list| - 1], list[|list| - 1], ModeRebuilt(list[..|list| - 1], mode))
  }

  const NO_MODE: nat := 0xFF
  const BASE_SIZE := Geometry(40, 12)

  /** What is reported for the splitter's modes. */
  ghost function Sizes(consoles: seq<TextConsole>): (sizes: seq<Option<Geometry>>)
    requires consoles != [] && AllWellBehaved(ModesOf(consoles))
    ensures |sizes| == |Build(ModesOf(consoles)).rows|
  {
    var t := Build(ModesOf(consoles));
    seq(|t.rows|, m requires 0 <= m < |t.rows| =>
      if t.query[t.rows[m][0]] == NO_GEOMETRY then None else Some(t.query[t.rows[m][0]]))
  }

  /** The last of the first n modes with this size, or 0xFF. */
  function LastWith(sizes: seq<Option<Geometry>>, n: nat, size: Geometry): (m: nat)
    requires n <= |sizes|
  {
    if n == 0 then NO_MODE else if sizes[n - 1] == Some(size) then n - 1 else LastWith(sizes, n - 1, size)
  }

  /** The last of the first n modes that is no smaller than the largest one before it, and that size. */
  function Largest(sizes: seq<Option<Geometry>>, n: nat): (r: (nat, Geometry))
    requires n <= |sizes|
  {
    if n == 0 then (NO_MODE, NO_GEOMETRY)
    else
      var before := Largest(sizes, n - 1);
      match sizes[n - 1]
      case None => before
      case Some(g) =>
        if g.columns >= before.1.columns && g.rows >= before.1.rows then (n - 1, g) else before
  }

  /** The mode preferred for a wanted size; a size with a zero asks for the largest mode. */
  function PreferredMode(sizes: seq<Option<Geometry>>, wanted: Geometry): nat {
    if wanted.columns != 0 && wanted.rows != 0 then LastWith(sizes, |sizes|, wanted) else Largest(sizes, |sizes|).0
  }

  /** The mode that is then set: the preferred one, or else 40 x 12. */
  function ModeChosen(sizes: seq<Option<Geometry>>, wanted: Geometry): nat {
    var prefer := PreferredMode(sizes, wanted);
    if prefer < |sizes| then prefer else LastWith(sizes, |sizes|, BASE_SIZE)
  }

  /** With fewer than 256 modes, a size on offer is the one that gets set. */
  lemma WantedIsSet(sizes: seq<Option<Geometry>>, wanted: Geometry)
    requires |sizes| <= NO_MODE && wanted.columns != 0 && wanted.rows != 0
    ensures Some(wanted) in sizes ==>
      ModeChosen(sizes, wanted) < |sizes| && sizes[ModeChosen(sizes, wanted)] == Some(wanted)
    ensures Some(wanted) !in sizes && Some(BASE_SIZE) in sizes ==>
      ModeChosen(sizes, wanted) < |sizes| && sizes[ModeChosen(sizes, wanted)] == Some(BASE_SIZE)
  {
    LastWithFinds(sizes, |sizes|, wanted);
    LastWithFinds(sizes, |sizes|, BASE_SIZE);
  }

  lemma {:induction false} LastWithFinds(sizes: seq<Option<Geometry>>, n: nat, size: Geometry)
    requires n <= |sizes| && n <= NO_MODE
    ensures var m := LastWith(sizes, n, size);
      if m == NO_MODE then forall j :: 0 <= j < n ==> sizes[j] != Some(size) else m < n && sizes[m] == Some(size)
  {
    if n > 0 {
      LastWithFinds(sizes, n - 1, size);
    }
  }

  /**
    The mode chosen as the largest: nothing offered is larger in both directions, and of the
    modes that are as large it is the last.
  */
  lemma {:induction false} LargestIsMaximal(sizes: seq<Option<Geometry>>, n: nat)
    requires n <= |sizes|
    ensures var (m, size) := Largest(sizes, n);
      if forall j :: 0 <= j < n ==> sizes[j] == None then m == 0xFF && size == Geometry(0, 0)
      else
        && m < n && sizes[m] == Some(size)
        && forall j :: 0 <= j < n && sizes[j].Some? ==>
          || sizes[j].value.columns < size.columns || sizes[j].value.rows < size.rows
          || (j <= m && sizes[j].value == size)
  {
    if n > 0 {
      LargestIsMaximal(sizes, n - 1);
    }
  }

  /** A wanted size with a zero asks for the largest mode, and with fewer than 256 modes that one is set. */
  lemma LargestIsSet(sizes: seq<Option<Geometry>>, wanted: Geometry)
    requires |sizes| <= 255 && (wanted.columns == 0 || wanted.rows == 0)
    requires exists j :: 0 <= j < |sizes| && sizes[j] != None
    ensures var m := ModeChosen(sizes, wanted);
      && m < |sizes| && sizes[m].Some?
      && forall j :: 0 <= j < |sizes| && sizes[j].Some? ==>
        || sizes[j].value.columns < sizes[m].value.columns || sizes[j].value.rows < sizes[m].value.rows
        || (j <= m && sizes[j] == sizes[m])
  {
    LargestIsMaximal(sizes, |sizes|);
    hide Largest, LastWith;
  }

  /** Each console lists this size for the mode number that the row names for it. */
  ghost predicate AllShow(consoles: seq<TextConsole>, row: seq<int>, size: Geometry) {
    |row| == |consoles| &&
    forall k :: 0 <= k < |consoles| ==>
      0 <= row[k] < |consoles[k].device| && consoles[k].device[row[k]] == Some(size)
  }

  /** The size of a mode as its consoles list it: one of size zero is reported as missing. */
  function Listed(size: Option<Geometry>): Geometry { if size == None then Geometry(0, 0) else size.value }

  /** All consoles have a mode of this size, for the first one from its mode 2 on, and none lists a size twice. */
  ghost predicate Shared(consoles: seq<TextConsole>, size: Geometry) {
    && consoles != [] && Plain(ModesOf(consoles))
    && size.columns != 0 && size.rows != 0
    && Some(size) in consoles[0].device[Min(2, |consoles[0].device|)..]
    && forall k :: 0 <= k < |consoles| ==> Some(size) in consoles[k].device
  }

  lemma {:induction false} CommonHas(list: seq<Modes>, n: nat, m: nat)
    requires AllWellBehaved(list) && 2 <= m < n <= |list[0]|
    requires -1 !in CommonRow(list, list[0][m].value)
    ensures CommonRow(list, list[0][m].value) in Common(list, n)
  {
    if m < n - 1 {
      CommonHas(list, n - 1, m);
    }
  }

  /** A shared size is the size of a splitter mode from 2 on. */
  lemma SharedIsOffered(consoles: seq<TextConsole>, size: Geometry)
    requires Shared(consoles, size)
    ensures Some(size) in Sizes(consoles)[Min(2, |Sizes(consoles)|)..]
  {
    var list := ModesOf(consoles);
    var t := Build(list);
    var first := list[0];
    var m :| Min(2, |first|) <= m < |first| && first[m] == Some(size);
    BuildIsIntersection(list);
    var row := CommonRow(list, size);
    forall k | 0 <= k < |list|
      ensures row[k] != -1
    {
      assert Some(size) in consoles[k].device;
    }
    CommonHas(list, |first|, m);
    var i :| Reserved(list) <= i < |t.rows| && t.rows[i] == row;
    assert first[row[0]] == Some(size) && row[0] == m;
    assert Sizes(consoles)[i] == Some(size);
  }

  /** The size reported for a matched mode is what each console lists for its mode in that row. */
  lemma SizeIsShown(consoles: seq<TextConsole>, m: nat)
    requires consoles != [] && AllWellBehaved(ModesOf(consoles)) && m < |Build(ModesOf(consoles)).rows|
    requires m >= 2 || SameReserved(ModesOf(consoles), m)
    ensures AllShow(consoles, Build(ModesOf(consoles)).rows[m], Listed(Sizes(consoles)[m]))
  {
    RowAgreed(ModesOf(consoles), m);
  }

  /** The reserved modes are reported with the first console's sizes; mode 1 may be reported missing. */
  lemma ReservedSizes(consoles: seq<TextConsole>, m: nat)
    requires consoles != [] && AllWellBehaved(ModesOf(consoles)) && m < 2 && m < |Sizes(consoles)|
    ensures m < |consoles[0].device|
    ensures var size, own := Sizes(consoles)[m], consoles[0].device[m];
      && (size != None ==> size == own)
      && (m == 0 && size == None ==> own == Some(Geometry(0, 0)))
  {
    var list := ModesOf(consoles);
    var t := Build(list);
    BuildSound(list);
    assert t.rows[m][0] == m && list[0] == consoles[0].device;
  }

  /** With fewer than 256 modes a shared size is chosen, and each console lists it for its mode in that row. */
  lemma SharedIsChosen(consoles: seq<TextConsole>, size: Geometry)
    requires Shared(consoles, size) && |Build(ModesOf(consoles)).rows| <= 255
    ensures var m := ModeChosen(Sizes(consoles), size);
      && 2 <= m < |Sizes(consoles)| && PreferredMode(Sizes(consoles), size) == m
      && AllShow(consoles, Build(ModesOf(consoles)).rows[m], size)
  {
    var list, sizes := ModesOf(consoles), Sizes(consoles);
    SharedIsOffered(consoles, size);
    var i :| 2 <= i < |sizes| && sizes[i] == Some(size);
    LastWithIsLast(sizes, |sizes|, size, i);
    RowAgreed(list, ModeChosen(sizes, size));
  }

  lemma {:induction false} LastWithIsLast(sizes: seq<Option<Geometry>>, n: nat, size: Geometry, i: nat)
    requires i < n <= |sizes| && n <= NO_MODE && sizes[i] == Some(size)
    ensures i <= LastWith(sizes, n, size) < n && sizes[LastWith(sizes, n, size)] == Some(size)
  {
    if i < n - 1 && sizes[n - 1] != Some(size) {
      LastWithIsLast(sizes, n - 1, size, i);
    }
  }

  /**
    The splitter is in a mode of a shared size already: it stays in it when a console that has
    the size too is attached.
  */
  lemma NewcomerFindsMode(before: seq<TextConsole>, console: TextConsole, mode: nat, size: Geometry)
    requires before != [] && AllWellBehaved(ModesOf(before)) && Shared(before + [console], size)
    requires 2 <= mode < |Build(ModesOf(before)).rows|
    requires AllShow(before, Build(ModesOf(before)).rows[mode], size)
    requires |Build(ModesOf(before + [console])).rows| <= 255
    ensures ModeChosen(Sizes(before + [console]), size) == ModeSynced(ModesOf(before), console.device, mode)
  {
    hide Build, SyncResult, ModeChosen, ModeSynced, Sizes, Shared, AllShow, Increasing, Heads;
    var list, d, both := ModesOf(before), console.device, before + [console];
    assert ModesOf(both) == list + [d] && both[0] == before[0] && (list + [d])[0] == list[0];
    SharedMeans(both, size);
    PlainBefore(list, d);
    SharedIsChosen(both, size);
    var rows := Build(list + [d]).rows;
    ShownFirst(before, Build(list).rows[mode], size);
    KeptRow(list, d, mode, size);
    var m, kept := ModeChosen(Sizes(both), size), ModeSynced(list, d, mode);
    ShownFirst(both, rows[m], size);
    assert rows[m][0] == rows[kept][0] by {
      OneMode(list[0], rows[m][0], rows[kept][0], size);
    }
    HeadsIncrease(list + [d]);
    SameHead(rows, m, kept);
  }

  lemma SharedMeans(consoles: seq<TextConsole>, size: Geometry)
    requires Shared(consoles, size)
    ensures Plain(ModesOf(consoles)) && Some(size) in consoles[|consoles| - 1].device
  {
  }

  lemma ShownFirst(consoles: seq<TextConsole>, row: seq<int>, size: Geometry)
    requires consoles != [] && AllShow(consoles, row, size)
    ensures |row| == |consoles| && 0 <= row[0] < |consoles[0].device| && consoles[0].device[row[0]] == Some(size)
  {
  }

  lemma OneMode(d: Modes, i: nat, j: nat, size: Geometry)
    requires Distinct(d) && i < |d| && j < |d| && d[i] == Some(size) == d[j]
    ensures i == j
  {
  }

  lemma HeadsIncrease(list: seq<Modes>)
    requires AllWellBehaved(list)
    ensures var rows := Build(list).rows;
      (forall k :: 0 <= k < |rows| ==> |rows[k]| >= 1) && Increasing(Heads(rows))
  {
    BuildSound(list);
  }

  lemma SameHead(rows: seq<seq<int>>, i: nat, j: nat)
    requires i < |rows| && j < |rows| && forall k :: 0 <= k < |rows| ==> |rows[k]| >= 1
    requires Increasing(Heads(rows)) && rows[i][0] == rows[j][0]
    ensures i == j
  {
    assert Heads(rows)[i] == Heads(rows)[j];
  }

  lemma PlainBefore(list: seq<Modes>, d: Modes)
    requires list != [] && Plain(list + [d])
    ensures Plain(list) && Distinct(d) && WellBehaved(d)
  {
    assert (list + [d])[0] == list[0] && (list + [d])[|list|] == d;
    assert forall k :: 0 <= k < |list| ==> list[k] == (list + [d])[k];
  }

  /**
    The current mode's number follows its row: the row is found there, with the new console's
    mode number appended, and the number is -1 only for a later row the new console has no mode for.
  */
  lemma ModeKeepsRow(list: seq<Modes>, d: Modes, mode: nat)
    requires AllWellBehaved(list) && WellBehaved(d) && mode < |Build(list).rows|
    ensures AllWellBehaved(list + [d])
    ensures var rows, kept := Build(list + [d]).rows, ModeSynced(list, d, mode);
      if kept == -1 then mode >= 2 && SyncResult(Build(list), |list|, d).1[mode] == -1
      else 0 <= kept < |rows| && rows[kept][..|list|] == Build(list).rows[mode]
  {
    BuildNext(list, d);
    var t := Build(list);
    var col := SyncResult(t, |list|, d).1;
    hide Build, SyncResult;
    ModeFollowsRow(Extend(t.rows, col), KeepFlags(col), mode);
  }

  /**
    After the map was built anew the splitter is in the row of the mode of the same number of the
    console that is now the first, and in none (-1) when that row was dropped.
  */
  lemma {:induction false} RebuiltMode(list: seq<Modes>, mode: nat)
    requires AllWellBehaved(list) && mode < |list[0]|
    ensures var rows, kept := Build(list).rows, ModeRebuilt(list, mode);
      if kept == -1 then mode >= 2 else 0 <= kept < |rows| && rows[kept][0] == mode
  {
    var n := |list| - 1;
    if n == 0 {
      assert Build(list).rows[mode] == [mode];
    } else {
      var before, d := list[..n], list[n];
      assert before + [d] == list;
      RebuiltMode(before, mode);
      hide ModeSynced, Build, SyncResult;
      var kept := ModeRebuilt(before, mode);
      if kept == -1 {
        NoModeStays(before, d);
      } else {
        if kept >= 2 {
          HeadsFromTwo(before, kept);
        }
        ModeKeepsRow(before, d, kept);
        var now := ModeSynced(before, d, kept);
        assert now != -1 ==> Build(list).rows[now][..n][0] == mode;
      }
    }
  }

  lemma HeadsFromTwo(list: seq<Modes>, i: nat)
    requires AllWellBehaved(list) && 2 <= i < |Build(list).rows|
    ensures Build(list).rows[i][0] >= 2
  {
    BuildSound(list);
    assert Heads(Build(list).rows)[1] < Heads(Build(list).rows)[i];
  }

  lemma NoModeStays(list: seq<Modes>, d: Modes)
    requires AllWellBehaved(list)
    ensures ModeSynced(list, d, -1) == -1
  {
  }

  /** The current mode's row is kept for a console that has its size, and the mode's number follows it. */
  lemma KeptRow(list: seq<Modes>, d: Modes, mode: nat, size: Geometry)
    requires Plain(list) && Distinct(d) && WellBehaved(d) && Some(size) in d
    requires 2 <= mode < |Build(list).rows| && list[0][Build(list).rows[mode][0]] == Some(size)
    ensures var rows, kept := Build(list + [d]).rows, ModeSynced(list, d, mode);
      AllWellBehaved(list + [d]) && 0 <= kept < |rows| && rows[kept][0] == Build(list).rows[mode][0]
  {
    BuildSound(list);
    NewColumn(list, Build(list), d, mode);
    hide Build, SyncResult, Sound, ModeSynced;
    ModeKeepsRow(list, d, mode);
    assert Build(list + [d]).rows[ModeSynced(list, d, mode)][..|list|][0] == Build(list).rows[mode][0];
  }

  /** With the modes looked at one by one, from the first on. */
  lemma OneMoreSize(sizes: seq<Option<Geometry>>, m: nat, size: Geometry)
    requires m < |sizes|
    ensures LastWith(sizes, m + 1, size) == if sizes[m] == Some(size) then m else LastWith(sizes, m, size)
    ensures var (prefer, largest) := Largest(sizes, m);
      var larger := sizes[m].Some? &&
        sizes[m].value.columns >= largest.columns && sizes[m].value.rows >= largest.rows;
      Largest(sizes, m + 1) == if larger then (m, sizes[m].value) else (prefer, largest)
  {
  }

  /** A row as the array holds it: the columns of consoles still to come are -1. */
  function PadRow(row: seq<int>, step: nat): (r: seq<int>)
    requires |row| <= step
    ensures |r| == step
  {
    row + Unmatched(step - |row|)
  }

  function PadRows(rows: seq<seq<int>>, step: nat): (r: seq<seq<int>>)
    requires forall i :: 0 <= i < |rows| ==> |rows[i]| <= step
    ensures |r| == |rows|
    ensures forall i :: 0 <= i < |r| ==> |r[i]| == step
  {
    seq(|rows|, i requires 0 <= i < |rows| => PadRow(rows[i], step))
  }

  lemma PadPrefix(rows: seq<seq<int>>, step: nat, n: nat)
    requires n <= |rows| && forall i :: 0 <= i < |rows| ==> |rows[i]| <= step
    ensures PadRows(rows, step)[..n] == PadRows(rows[..n], step)
  {
    hide PadRow;
  }

  lemma PadOne(rows: seq<seq<int>>, row: seq<int>, step: nat)
    requires |row| <= step && forall i :: 0 <= i < |rows| ==> |rows[i]| <= step
    ensures PadRows(rows + [row], step) == PadRows(rows, step) + [PadRow(row, step)]
  {
    hide PadRow;
  }

  lemma {:induction false} PadCompact(rows: seq<seq<int>>, keep: seq<bool>, step: nat)
    requires |keep| == |rows| && forall i :: 0 <= i < |rows| ==> |rows[i]| <= step
    ensures forall i :: 0 <= i < |Compact(rows, keep)| ==> |Compact(rows, keep)[i]| <= step
    ensures Compact(PadRows(rows, step), keep) == PadRows(Compact(rows, keep), step)
  {
    if rows != [] {
      var n := |rows| - 1;
      PadCompact(rows[..n], keep[..n], step);
      PadPrefix(rows, step, n);
      assert PadRows(rows, step)[n] == PadRow(rows[n], step);
      hide PadRow, PadRows;
      if keep[n] {
        PadOne(Compact(rows[..n], keep[..n]), rows[n], step);
      }
    }
  }

  /** The rows of a map under construction: `done` full rows, then a part of one, then empty ones. */
  function Filling(rows: seq<seq<int>>, done: nat, part: nat): (r: seq<seq<int>>)
    requires done <= |rows| && (done < |rows| ==> part <= |rows[done]|)
    ensures |r| == |rows|
  {
    seq(|rows|, i requires 0 <= i < |rows| =>
      if i < done then rows[i] else if i == done then rows[i][..part] else [])
  }

  lemma FillOne(rows: seq<seq<int>>, step: nat, i: nat, c: nat)
    requires forall j :: 0 <= j < |rows| ==> |rows[j]| <= step
    requires i < |rows| && c < |rows[i]|
    ensures PadRows(Filling(rows, i, c + 1), step) ==
      PadRows(Filling(rows, i, c), step)[i := PadRows(Filling(rows, i, c), step)[i][c := rows[i][c]]]
  {
    assert rows[i][..c + 1] == rows[i][..c] + [rows[i][c]];
    assert PadRow(rows[i][..c + 1], step) == PadRow(rows[i][..c], step)[c := rows[i][c]];
  }

  lemma FillRowDone(rows: seq<seq<int>>, i: nat)
    requires i < |rows|
    ensures Filling(rows, i, |rows[i]|) == Filling(rows, i + 1, 0)
  {
    assert rows[i][..|rows[i]|] == rows[i];
    assert i + 1 < |rows| ==> rows[i + 1][..0] == [];
  }

  class Splitter {
    var textOutListCount: nat
    var consoles: seq<TextConsole>
    var currentNumberOfConsoles: nat
    var textOutQueryData: array<Geometry>
    var textOutModeMap: array?<int>
    var maxMode: nat
    var mode: int
    /** The size the user asked for. */
    var wanted: Geometry

    /** Both buffers have room for what they hold. */
    ghost predicate Sized()
      reads this
    {
      textOutListCount >= ALLOC_UNIT && textOutQueryData.Length >= ALLOC_UNIT &&
      (textOutModeMap != null ==> textOutModeMap.Length == Off(textOutListCount, textOutQueryData.Length))
    }

    /** The map and the query data hold table t, whose rows have `width` columns. */
    ghost predicate Shows(t: Table, width: nat)
      reads this, textOutModeMap, textOutQueryData
    {
      Consistent(t, width) && width <= textOutListCount &&
      textOutModeMap != null && |t.rows| == maxMode &&
      |t.query| <= textOutQueryData.Length && textOutQueryData[..|t.query|] == t.query &&
      Off(textOutListCount, maxMode) <= textOutModeMap.Length &&
      RowsOf(textOutModeMap[..], textOutListCount, maxMode) == PadRows(t.rows, textOutListCount)
    }

    ghost predicate Valid()
      reads this, textOutModeMap, textOutQueryData
    {
      Sized() && currentNumberOfConsoles == |consoles| <= textOutListCount &&
      (forall k :: 0 <= k < |consoles| ==> WellBehaved(consoles[k].device)) &&
      if consoles == [] then
        maxMode == 1 && textOutQueryData[0] == Geometry(40, 12) &&
        (textOutModeMap != null ==> textOutModeMap.Length > 0 && textOutModeMap[0] == 0)
      else maxMode <= textOutQueryData.Length && Shows(Build(ModesOf(consoles)), |consoles|)
    }

    constructor (wanted: Geometry)
      ensures Valid() && consoles == [] && fresh(textOutQueryData) && textOutModeMap == null
    {
      textOutListCount := ALLOC_UNIT;
      consoles := [];
      currentNumberOfConsoles := 0;
      textOutQueryData := new Geometry[ALLOC_UNIT](i => if i == 0 then Geometry(40, 12) else NO_GEOMETRY);
      textOutModeMap := null;
      maxMode := 1;
      mode := 0;
      this.wanted := wanted;
    }

    /** The rows that growing the map carries over. */
    ghost function Carried(): (rows: seq<seq<int>>)
      requires Growable()
      reads this, textOutModeMap
      ensures |rows| == maxMode && forall i :: 0 <= i < |rows| ==> |rows[i]| <= textOutListCount
    {
      if currentNumberOfConsoles > 0 && textOutModeMap != null
      then FirstColumns(textOutModeMap[..], textOutListCount - ALLOC_UNIT, maxMode, currentNumberOfConsoles)
      else EmptyRows(maxMode)
    }

    ghost predicate Growable()
      reads this, textOutModeMap
    {
      textOutListCount >= ALLOC_UNIT &&
      (currentNumberOfConsoles > 0 && textOutModeMap != null ==>
        currentNumberOfConsoles <= textOutListCount - ALLOC_UNIT &&
        Off(textOutListCount - ALLOC_UNIT, maxMode) <= textOutModeMap.Length)
    }

    /** Allocate a map for the present sizes and carry over the columns of the attached consoles. */
    method GrowMapTable()
      requires Growable() && maxMode <= textOutQueryData.Length
      modifies this`textOutModeMap
      ensures textOutModeMap != null && fresh(textOutModeMap)
      ensures textOutModeMap.Length == Off(textOutListCount, textOutQueryData.Length)
      ensures Off(textOutListCount, maxMode) <= textOutModeMap.Length
      ensures RowsOf(textOutModeMap[..], textOutListCount, maxMode) == PadRows(old(Carried()), textOutListCount)
    {
      var step := textOutListCount;
      var oldMap := textOutModeMap;
      var newMap := new int[Off(step, textOutQueryData.Length)](_ => -1);
      if maxMode < textOutQueryData.Length {
        RowOrder(step, maxMode, textOutQueryData.Length);
      }
      ghost var rows := Carried();
      EmptyMap(newMap[..], step, rows);
      if oldMap != null {
        CopyRows(newMap, oldMap, step, step - ALLOC_UNIT, currentNumberOfConsoles, maxMode, rows);
      } else {
        assert Filling(rows, 0, 0) == rows;
      }
      textOutModeMap := newMap;
    }

    /** ConSplitterGrowBuffer for the query data: 32 more entries, the old ones kept. */
    method GrowQueryData()
      requires textOutQueryData.Length >= ALLOC_UNIT
      modifies this`textOutQueryData
      ensures fresh(textOutQueryData) && textOutQueryData.Length == old(textOutQueryData.Length) + ALLOC_UNIT
      ensures textOutQueryData[..old(textOutQueryData.Length)] == old(textOutQueryData[..])
    {
      var data := textOutQueryData;
      textOutQueryData := new Geometry[data.Length + ALLOC_UNIT](
        i requires 0 <= i reads data => if i < data.Length then data[i] else NO_GEOMETRY);
    }

    /** Take over the modes of the first console. */
    method AddOutputMode(console: TextConsole)
      requires textOutListCount >= ALLOC_UNIT && textOutQueryData.Length >= ALLOC_UNIT
      requires currentNumberOfConsoles == 0 || textOutModeMap == null
      requires WellBehaved(console.device)
      modifies this`textOutModeMap, this`textOutQueryData, this`maxMode, textOutQueryData
      ensures Sized() && maxMode <= textOutQueryData.Length && Shows(FirstTable(console.device), 1)
      ensures fresh(textOutModeMap)
      ensures textOutQueryData == old(textOutQueryData) || fresh(textOutQueryData)
    {
      var modes := console.device;
      maxMode := |modes|;
      while maxMode > textOutQueryData.Length
        invariant textOutQueryData.Length >= ALLOC_UNIT
        invariant textOutQueryData == old(textOutQueryData) || fresh(textOutQueryData)
        invariant maxMode == |modes| && textOutModeMap == old(textOutModeMap)
      {
        GrowQueryData();
      }
      GrowMapTable();
      ghost var rows := FirstTable(modes).rows;
      assert Filling(rows, 0, 0) == EmptyRows(|modes|);
      FillFirst(console.device, rows);
    }

    /** Query the first console's modes one by one and map each to itself. */
    method FillFirst(modes: Modes, ghost rows: seq<seq<int>>)
      requires Sized() && WellBehaved(modes) && maxMode == |modes| <= textOutQueryData.Length
      requires textOutModeMap != null && rows == FirstTable(modes).rows
      requires Off(textOutListCount, maxMode) <= textOutModeMap.Length
      requires RowsOf(textOutModeMap[..], textOutListCount, maxMode) == PadRows(Filling(rows, 0, 0), textOutListCount)
      modifies textOutModeMap, textOutQueryData
      ensures Shows(FirstTable(modes), 1)
    {
      var table, step := textOutModeMap, textOutListCount;
      var m, index := 0, 0;
      while m < maxMode
        invariant m <= maxMode && index == Off(step, m)
        invariant forall j :: 0 <= j < m ==> textOutQueryData[j] == FirstQuery(modes)[j]
        invariant RowsOf(table[..], step, maxMode) == PadRows(Filling(rows, m, 0), step)
      {
        if modes[m].Some? {
          textOutQueryData[m] := modes[m].value;
        }
        if modes[m].None? && m == 1 {
          textOutQueryData[m] := NO_GEOMETRY;
        }
        MapToItself(table, index, m, step, rows);
        m := m + 1;
        index := index + step;
      }
      assert Filling(rows, maxMode, 0) == rows;
    }

    /** The splitter mode, from `index` on, whose recorded geometry is g; maxMode if there is none. */
    method FindMode(g: Geometry, ghost t: Table, ghost width: nat, ghost query: seq<Geometry>, ghost col: seq<int>)
      returns (index: nat)
      requires Sized() && textOutModeMap != null && Consistent(t, width) && width < textOutListCount
      requires Matching(t, width, query, col)
      ensures index == FirstMatch(query, Heads(t.rows), g, 0)
    {
      index := 0;
      while index < maxMode
        invariant index <= maxMode
        invariant FirstMatch(query, Heads(t.rows), g, 0) == FirstMatch(query, Heads(t.rows), g, index)
        decreases maxMode - index
      {
        HeadInMap(textOutModeMap[..], textOutListCount, t.rows, col, index);
        var queryMode := textOutModeMap[Off(textOutListCount, index)];
        assert queryMode == Heads(t.rows)[index];
        if textOutQueryData[queryMode] == g {
          return;
        }
        index := index + 1;
      }
    }

    /** The map with the new console's column filled as far as col says. */
    ghost predicate Matching(t: Table, width: nat, query: seq<Geometry>, col: seq<int>)
      requires Consistent(t, width)
      reads this, textOutModeMap, textOutQueryData
    {
      textOutModeMap != null && width < textOutListCount &&
      |t.rows| == |col| == maxMode && |query| == |t.query| <= textOutQueryData.Length &&
      textOutQueryData[..|query|] == query &&
      Off(textOutListCount, maxMode) <= textOutModeMap.Length &&
      RowsOf(textOutModeMap[..], textOutListCount, maxMode) == PadRows(Extend(t.rows, col), textOutListCount)
    }

    /** Record in the new console's column that splitter mode k is its mode m. */
    method RecordMode(k: nat, m: nat, ghost t: Table, ghost width: nat, ghost query: seq<Geometry>, ghost col: seq<int>)
      requires Sized() && textOutModeMap != null && Consistent(t, width)
      requires Matching(t, width, query, col) && width == currentNumberOfConsoles && k < maxMode
      modifies textOutModeMap
      ensures Matching(t, width, query, col[k := m])
    {
      var table, step := textOutModeMap, textOutListCount;
      EntryUpdate(table[..], step, maxMode, k, currentNumberOfConsoles, m);
      ExtendEntry(t.rows, col, width, step, k, m);
      ghost var before := table[..];
      table[currentNumberOfConsoles + Off(step, k)] := m;
      assert table[..] == before[width + Off(step, k) := m];
    }

    /** The new console lacks mode 1: clear that mode's geometry, for every console. */
    method ClearModeOne(ghost t: Table, ghost width: nat, ghost query: seq<Geometry>, ghost col: seq<int>)
      requires Sized() && textOutModeMap != null && Consistent(t, width) && maxMode >= 1
      requires Matching(t, width, query, col) && width == currentNumberOfConsoles
      modifies textOutModeMap, textOutQueryData
      ensures Matching(t, width, if |query| > 1 then query[1 := NO_GEOMETRY] else query,
                       if |col| > 1 then col[1 := 1] else col)
    {
      if maxMode > 1 {
        RecordMode(1, 1, t, width, query, col);
      } else {
        var table, step := textOutModeMap, textOutListCount;
        OffInside(step, 1, textOutQueryData.Length);
        EntryOutside(table[..], step, maxMode, currentNumberOfConsoles + Off(step, 1), 1);
        ghost var before := table[..];
        table[currentNumberOfConsoles + Off(step, 1)] := 1;
        assert table[..] == before[width + Off(step, 1) := 1];
      }
      textOutQueryData[1] := NO_GEOMETRY;
    }

    /** Match one mode of the new console against the splitter's modes. */
    method MatchMode(modes: Modes, m: nat, ghost t: Table, ghost width: nat, ghost query: seq<Geometry>, ghost col: seq<int>)
      returns (ghost query': seq<Geometry>, ghost col': seq<int>)
      requires Sized() && textOutModeMap != null && Consistent(t, width) && maxMode >= 1 && m < |modes|
      requires Matching(t, width, query, col) && width == currentNumberOfConsoles
      modifies textOutModeMap, textOutQueryData
      ensures Matching(t, width, query', col')
      ensures SyncColumn(query', Heads(t.rows), modes, m + 1, col') == SyncColumn(query, Heads(t.rows), modes, m, col)
    {
      query', col' := query, col;
      if modes[m].None? {
        if m == 1 {
          ClearModeOne(t, width, query, col);
          query' := if |query| > 1 then query[1 := NO_GEOMETRY] else query;
          col' := if |col| > 1 then col[1 := 1] else col;
        }
        return;
      }
      var index := FindMode(modes[m].value, t, width, query, col);
      if index < maxMode {
        RecordMode(index, m, t, width, query, col);
        col' := col[index := m];
      }
    }

    /** Match the new console's modes one by one and drop the splitter modes it lacks. */
    method SyncOutputMode(console: TextConsole, ghost t: Table)
      requires Sized() && textOutModeMap != null && maxMode >= 1
      requires Shows(t, currentNumberOfConsoles) && currentNumberOfConsoles < textOutListCount
      modifies this`maxMode, this`mode, textOutModeMap, textOutQueryData
      ensures Shows(Sync(t, currentNumberOfConsoles, console.device), currentNumberOfConsoles + 1)
      ensures maxMode <= old(maxMode)
      ensures var col := SyncResult(t, currentNumberOfConsoles, console.device).1;
        mode == ModeAfter(KeepFlags(col), old(mode), |col|)
    {
      ghost var width, heads := currentNumberOfConsoles, Heads(t.rows);
      ghost var query, col := t.query, Unmatched(|t.rows|);
      ExtendUnmatched(t.rows, width, textOutListCount);
      var m := 0;
      while m < |console.device|
        invariant m <= |console.device| && Matching(t, width, query, col)
        invariant |query| == |t.query| && |col| == |t.rows| && maxMode == old(maxMode) && mode == old(mode)
        invariant SyncColumn(query, heads, console.device, m, col) ==
          SyncColumn(t.query, heads, console.device, 0, Unmatched(|t.rows|))
      {
        query, col := MatchMode(console.device, m, t, width, query, col);
        m := m + 1;
      }
      DropUnmatched(t, width, query, col);
    }

    /** Compact the map by the new console's own column. */
    method DropUnmatched(ghost t: Table, ghost width: nat, ghost query: seq<Geometry>, ghost col: seq<int>)
      requires Sized() && textOutModeMap != null && Consistent(t, width) && maxMode >= 1
      requires Matching(t, width, query, col) && width == currentNumberOfConsoles
      modifies this`maxMode, this`mode, textOutModeMap
      ensures var rows := Compact(Extend(t.rows, col), KeepFlags(col));
        Consistent(Table(query, rows), width + 1) ==> Shows(Table(query, rows), width + 1)
      ensures maxMode <= old(maxMode)
      ensures mode == ModeAfter(KeepFlags(col), old(mode), |col|)
    {
      var table, step := textOutModeMap, textOutListCount;
      NewColumnInMap(table[..], step, t.rows, col, width);
      PadCompact(Extend(t.rows, col), KeepFlags(col), step);
      maxMode, mode := GetIntersection(table, table, currentNumberOfConsoles, step, step, maxMode, mode);
      CompactLength(Extend(t.rows, col), KeepFlags(col));
    }

    /** Make room for one more console. */
    method MakeRoom()
      requires Valid()
      modifies this`textOutListCount, this`textOutModeMap
      ensures Valid() && |consoles| < textOutListCount
      ensures textOutModeMap == old(textOutModeMap) || fresh(textOutModeMap)
    {
      while currentNumberOfConsoles >= textOutListCount
        invariant Valid()
        invariant textOutModeMap == old(textOutModeMap) || fresh(textOutModeMap)
        decreases currentNumberOfConsoles - textOutListCount
      {
        GrowLists();
      }
    }

    method GrowLists()
      requires Valid() && currentNumberOfConsoles >= textOutListCount
      modifies this`textOutListCount, this`textOutModeMap
      ensures Valid() && textOutListCount == old(textOutListCount) + ALLOC_UNIT
      ensures textOutModeMap == old(textOutModeMap) || fresh(textOutModeMap)
    {
      hide Build;
      ghost var t := Build(ModesOf(consoles));
      ghost var oldStep := textOutListCount;
      textOutListCount := textOutListCount + ALLOC_UNIT;
      FirstOfPadded(textOutModeMap[..], oldStep, t.rows, |consoles|);
      GrowMapTable();
    }

    /** Take a console into the list and reduce the splitter's modes to those it shares. */
    method AttachConsole(console: TextConsole)
      requires Valid() && WellBehaved(console.device)
      modifies this`textOutListCount, this`consoles, this`currentNumberOfConsoles, this`textOutQueryData,
        this`textOutModeMap, this`maxMode, this`mode, textOutModeMap, textOutQueryData
      ensures Valid() && consoles == old(consoles) + [console]
      ensures textOutModeMap == old(textOutModeMap) || fresh(textOutModeMap)
      ensures textOutQueryData == old(textOutQueryData) || fresh(textOutQueryData)
      ensures mode == if old(consoles) == [] then old(mode)
                      else ModeSynced(ModesOf(old(consoles)), console.device, old(mode))
    {
      MakeRoom();
      if currentNumberOfConsoles == 0 {
        AttachFirst(console);
      } else {
        AttachNext(console);
      }
    }

    method AttachFirst(console: TextConsole)
      requires Valid() && WellBehaved(console.device) && consoles == []
      modifies this`consoles, this`currentNumberOfConsoles, this`textOutQueryData, this`textOutModeMap, this`maxMode,
        textOutQueryData
      ensures Valid() && consoles == [console] && fresh(textOutModeMap)
      ensures textOutQueryData == old(textOutQueryData) || fresh(textOutQueryData)
    {
      hide PadRows, Build, FirstTable;
      consoles := [console];
      assert ModesOf(consoles) == [console.device];
      AddOutputMode(console);
      BuildFirst(console.device);
      currentNumberOfConsoles := currentNumberOfConsoles + 1;
    }

    method AttachNext(console: TextConsole)
      requires Valid() && WellBehaved(console.device) && 0 < |consoles| < textOutListCount
      modifies this`consoles, this`currentNumberOfConsoles, this`maxMode, this`mode, textOutModeMap, textOutQueryData
      ensures Valid() && consoles == old(consoles) + [console]
      ensures mode == ModeSynced(ModesOf(old(consoles)), console.device, old(mode))
    {
      hide PadRows, RowsOf, Build, ModeSynced;
      ghost var before := ModesOf(consoles);
      consoles := consoles + [console];
      ghost var list := ModesOf(consoles);
      assert list == before + [console.device] && list[..|before|] == before && list[..|before| + 1] == list;
      MatchNext(console, list, |before|);
    }

    lemma SizesOfModes()
      requires Valid() && consoles != []
      ensures |Sizes(consoles)| == maxMode
    {
    }

    /** The mode to prefer, and the 40 x 12 one. */
    method FindModes() returns (preferMode: nat, baseMode: nat)
      requires Valid() && consoles != []
      ensures var sizes := Sizes(consoles);
        && |sizes| == maxMode && preferMode == PreferredMode(sizes, wanted)
        && baseMode == LastWith(sizes, |sizes|, BASE_SIZE)
    {
      SizesOfModes();
      hide Sizes, Splitter.Valid, Build, AllWellBehaved;
      ghost var sizes := Sizes(consoles);
      var largest := NO_GEOMETRY;
      var exact := wanted.columns != 0 && wanted.rows != 0;
      preferMode, baseMode := NO_MODE, NO_MODE;
      for m := 0 to maxMode
        invariant preferMode == if exact then LastWith(sizes, m, wanted) else Largest(sizes, m).0
        invariant baseMode == LastWith(sizes, m, BASE_SIZE)
        invariant !exact ==> largest == Largest(sizes, m).1
      {
        hide LastWith, Largest;
        var size := QueryMode(m);
        OneMoreSize(sizes, m, wanted);
        OneMoreSize(sizes, m, BASE_SIZE);
        if size.Some? {
          if exact {
            if size.value == wanted {
              preferMode := m;
            }
          } else if size.value.columns >= largest.columns && size.value.rows >= largest.rows {
            largest := size.value;
            preferMode := m;
          }
          if size.value == BASE_SIZE {
            baseMode := m;
          }
        }
      }
    }

    /** A shared size is chosen, and asking the consoles for that mode asks each for this size. */
    lemma SharedIsSet(size: Geometry)
      requires Valid() && consoles != []
      ensures var m, row := ModeChosen(Sizes(consoles), size), Build(ModesOf(consoles)).rows;
        maxMode <= 255 && Shared(consoles, size) ==>
          && |row| == maxMode && 2 <= m < maxMode && PreferredMode(Sizes(consoles), size) == m
          && AllShow(consoles, row[m], size)
    {
      hide AllShow, Shared, ModeChosen, PreferredMode;
      if maxMode <= 255 && Shared(consoles, size) {
        SharedIsChosen(consoles, size);
      }
    }

    /** Put the consoles into the mode of the size that the user asked for. */
    method SetConsoleOutMode() returns (requested: seq<int>)
      requires Valid() && consoles != []
      modifies this`mode, this`wanted
      ensures Valid()
      ensures var m := ModeChosen(Sizes(consoles), old(wanted));
        mode == if m < maxMode then m else old(mode)
      ensures wanted == if PreferredMode(Sizes(consoles), old(wanted)) < maxMode then old(wanted) else BASE_SIZE
      ensures PutInto(requested, old(mode), mode)
      ensures maxMode <= 255 && Shared(consoles, old(wanted)) ==>
        && 2 <= mode < maxMode && wanted == old(wanted)
        && AllShow(consoles, Build(ModesOf(consoles)).rows[mode], wanted)
        && (mode != old(mode) ==> AllShow(consoles, requested, wanted))
    {
      hide Sizes, Shared, AllShow, LastWith, Largest, PadRows, RowsOf, Consistent;
      SizesOfModes();
      SharedIsSet(wanted);
      var preferMode, baseMode := FindModes();
      var supported;
      supported, requested := SetMode(preferMode);
      if !supported {
        supported, requested := SetMode(baseMode);
        wanted := BASE_SIZE;
      }
    }

    /** The consoles were asked for their modes of the new number, unless it is the old one. */
    ghost predicate PutInto(requested: seq<int>, before: int, modeNumber: int)
      requires Valid()
      reads this, textOutModeMap, textOutQueryData
    {
      if modeNumber == before || !(0 <= modeNumber < maxMode) then requested == []
      else |requested| == |consoles| && (consoles != [] ==> requested == Build(ModesOf(consoles)).rows[modeNumber])
    }

    /** The current mode is one in which the consoles have the size that the user asked for. */
    ghost predicate InWanted()
      requires Valid()
      reads this, textOutModeMap, textOutQueryData
    {
      consoles != [] && 2 <= mode < maxMode && AllShow(consoles, Build(ModesOf(consoles)).rows[mode], wanted)
    }

    /**
      Attach a console, reduce the splitter's modes to those it shares, and set the mode of the size
      wanted.  A splitter that is in that mode already asks no console to change, not even the new one.
    */
    method AddDevice(console: TextConsole) returns (requested: seq<int>)
      requires Valid() && WellBehaved(console.device)
      modifies this, textOutModeMap, textOutQueryData
      ensures Valid() && consoles == old(consoles) + [console]
      ensures textOutModeMap == old(textOutModeMap) || fresh(textOutModeMap)
      ensures textOutQueryData == old(textOutQueryData) || fresh(textOutQueryData)
      ensures var kept := if old(consoles) == [] then old(mode)
                          else ModeSynced(ModesOf(old(consoles)), console.device, old(mode));
        var m := ModeChosen(Sizes(consoles), old(wanted));
        mode == (if m < maxMode then m else kept) && PutInto(requested, kept, mode)
      ensures wanted == if PreferredMode(Sizes(consoles), old(wanted)) < maxMode then old(wanted) else BASE_SIZE
      ensures maxMode <= 255 && Shared(consoles, old(wanted)) ==>
        && 2 <= mode < maxMode && wanted == old(wanted)
        && AllShow(consoles, Build(ModesOf(consoles)).rows[mode], wanted)
        && (requested == [] || AllShow(consoles, requested, wanted))
      ensures maxMode <= 255 && Shared(consoles, old(wanted)) && old(InWanted()) ==> requested == []
    {
      hide Sizes, Shared, AllShow, Build, PadRows, RowsOf, Consistent, ModeChosen, PreferredMode, ModeSynced;
      ghost var before := consoles;
      ghost var stays := InWanted();
      AttachConsole(console);
      if stays && maxMode <= 255 && Shared(consoles, wanted) {
        NewcomerFindsMode(before, console, old(mode), wanted);
      }
      requested := SetConsoleOutMode();
    }

    /** Detach a console and rebuild the map from the consoles that remain. */
    method DeleteDevice(handle: nat) returns (found: bool)
      requires Valid()
      modifies this, textOutModeMap, textOutQueryData
      ensures Valid()
      ensures textOutModeMap == old(textOutModeMap) || textOutModeMap == null || fresh(textOutModeMap)
      ensures textOutQueryData == old(textOutQueryData) || fresh(textOutQueryData)
      ensures consoles == Removed(old(consoles), handle) && wanted == old(wanted)
      ensures found <==> FirstWith(Handles(old(consoles)), handle) < |old(consoles)|
      ensures !found ==> maxMode == old(maxMode) && mode == old(mode)
      ensures found ==> mode == if consoles == [] then 0 else ModeRebuilt(ModesOf(consoles), old(mode))
    {
      var index := FindFirst(consoles, handle);
      if index == currentNumberOfConsoles {
        return false;
      }
      consoles := consoles[..index] + consoles[index + 1..];
      if consoles == [] {
        ModeZeroInMap(textOutModeMap[..], textOutListCount, maxMode, old(consoles)[0].device);
        hide Build;
        currentNumberOfConsoles := 0;
        maxMode := 1;
        textOutQueryData[0] := Geometry(40, 12);
        mode := 0;
      } else {
        hide Build, PadRows, RowsOf, ModeRebuilt;
        Rebuild();
      }
      return true;
    }

    /** Build the map anew from the attached consoles. */
    method Rebuild()
      requires Sized() && consoles != [] && |consoles| <= textOutListCount
      requires forall k :: 0 <= k < |consoles| ==> WellBehaved(consoles[k].device)
      modifies this`currentNumberOfConsoles, this`textOutModeMap, this`textOutQueryData, this`maxMode, this`mode,
        textOutModeMap, textOutQueryData
      ensures Valid() && mode == ModeRebuilt(ModesOf(consoles), old(mode))
      ensures fresh(textOutModeMap) && (textOutQueryData == old(textOutQueryData) || fresh(textOutQueryData))
    {
      var data := textOutQueryData;
      forall i | 0 <= i < data.Length {
        data[i] := NO_GEOMETRY;
      }
      textOutModeMap := null;
      AddOutputMode(consoles[0]);
      ghost var list := ModesOf(consoles);
      assert Build(list[..1]) == FirstTable(consoles[0].device);
      currentNumberOfConsoles := 1;
      ReattachRest(list);
    }

    /** Match the consoles after the first, one by one. */
    method ReattachRest(ghost list: seq<Modes>)
      requires Sized() && 1 <= |consoles| <= textOutListCount && currentNumberOfConsoles == 1
      requires list == ModesOf(consoles) && AllWellBehaved(list) && Shows(Build(list[..1]), 1)
      modifies this`currentNumberOfConsoles, this`maxMode, this`mode, textOutModeMap, textOutQueryData
      ensures Shows(Build(list), |list|) && maxMode <= old(maxMode)
      ensures currentNumberOfConsoles == |consoles| && mode == ModeRebuilt(list, old(mode))
    {
      hide Splitter.Shows, Build, ModeSynced, WellBehaved;
      var index := 1;
      while index < |consoles|
        invariant 1 <= index == currentNumberOfConsoles <= |consoles| && maxMode <= old(maxMode)
        invariant Shows(Build(list[..index]), index) && mode == ModeRebuilt(list[..index], old(mode))
      {
        assert list[..index + 1][..index] == list[..index];
        MatchNext(consoles[index], list, index);
        index := index + 1;
      }
      assert list[..|consoles|] == list;
    }

    /** Match one more console. */
    method MatchNext(console: TextConsole, ghost list: seq<Modes>, ghost index: nat)
      requires Sized() && AllWellBehaved(list) && 1 <= index < |list| && list[index] == console.device
      requires index == currentNumberOfConsoles < textOutListCount && Shows(Build(list[..index]), index)
      modifies this`currentNumberOfConsoles, this`maxMode, this`mode, textOutModeMap, textOutQueryData
      ensures Shows(Build(list[..index + 1]), index + 1) && maxMode <= old(maxMode)
      ensures currentNumberOfConsoles == index + 1 && mode == ModeSynced(list[..index], console.device, old(mode))
    {
      hide ModeAfter, KeepFlags, PadRows, Sync, SyncResult;
      ghost var before := list[..index];
      assert before + [console.device] == list[..index + 1];
      BuildSound(before);
      BuildNext(before, console.device);
      SyncOutputMode(console, Build(before));
      currentNumberOfConsoles := currentNumberOfConsoles + 1;
    }

    lemma SizeShown(modeNumber: nat)
      requires Valid()
      ensures Matched(modeNumber) && modeNumber < maxMode ==>
        var size, rows := Sizes(consoles), Build(ModesOf(consoles)).rows;
        && modeNumber < |size| && |rows| == maxMode
        && AllShow(consoles, rows[modeNumber], Listed(size[modeNumber]))
    {
      hide AllShow;
      if Matched(modeNumber) && modeNumber < maxMode {
        SizeIsShown(consoles, modeNumber);
      }
    }

    /** The size of one of the splitter's modes, as recorded. */
    method QueryMode(modeNumber: nat) returns (size: Option<Geometry>)
      requires Valid()
      ensures modeNumber >= maxMode ==> size == None
      ensures consoles == [] && modeNumber == 0 ==> size == Some(Geometry(40, 12))
      ensures consoles != [] && modeNumber < maxMode ==> size == Sizes(consoles)[modeNumber]
      ensures Matched(modeNumber) && modeNumber < maxMode ==>
        AllShow(consoles, Build(ModesOf(consoles)).rows[modeNumber], Listed(size))
      ensures size != Some(Geometry(0, 0))
    {
      hide AllShow, SameReserved, WellBehaved, Splitter.Matched;
      SizeShown(modeNumber);
      if modeNumber >= maxMode {
        return None;
      }
      var g: Geometry;
      if textOutModeMap != null {
        if consoles != [] {
          EntryInMap(textOutModeMap[..], textOutListCount, Build(ModesOf(consoles)).rows, modeNumber, 0);
        }
        var currentMode := textOutModeMap[Off(textOutListCount, modeNumber)];
        g := textOutQueryData[currentMode];
      } else {
        g := textOutQueryData[modeNumber];
      }
      return if g.columns <= 0 && g.rows <= 0 then None else Some(g);
    }

    /** A mode that was matched, or that all consoles have in the same size anyway. */
    ghost predicate Matched(modeNumber: nat)
      reads this
    {
      consoles != [] && (modeNumber >= 2 || SameReserved(ModesOf(consoles), modeNumber))
    }

    /**
      The mode each console is put in when the splitter switches to modeNumber.  From mode 2 on,
      and for a reserved mode that all consoles have in one size, these are modes the consoles
      have, all of the same size.
    */
    method SetMode(modeNumber: nat) returns (supported: bool, requested: seq<int>)
      requires Valid()
      modifies this`mode
      ensures Valid() && (supported <==> modeNumber < maxMode)
      ensures mode == if supported then modeNumber else old(mode)
      ensures !supported || modeNumber == old(mode) ==> requested == []
      ensures supported ==> PutInto(requested, old(mode), modeNumber)
      ensures supported && modeNumber != old(mode) && Matched(modeNumber) ==>
        var t := Build(ModesOf(consoles));
        var g := t.query[t.rows[modeNumber][0]];
        forall k :: 0 <= k < |consoles| ==>
          0 <= requested[k] < |consoles[k].device| && consoles[k].device[requested[k]] == Some(g)
    {
      hide Build, PadRows, RowsOf, Consistent;
      requested := [];
      if modeNumber >= maxMode {
        return false, [];
      }
      if mode == modeNumber {
        return true, [];
      }
      requested := ReadRow(modeNumber);
      if Matched(modeNumber) {
        RowAgreed(ModesOf(consoles), modeNumber);
        assert Agrees(ModesOf(consoles), Build(ModesOf(consoles)).query, requested);
      }
      mode := modeNumber;
      return true, requested;
    }

    /** A client that asks for the size of a mode and then selects it gets that size on every console. */
    method AskThenSet(modeNumber: nat) returns (told: Option<Geometry>, requested: seq<int>)
      requires Valid()
      modifies this`mode
      ensures Valid() && mode == if modeNumber < maxMode then modeNumber else old(mode)
      ensures modeNumber >= maxMode || modeNumber == old(mode) ==> requested == []
      ensures modeNumber < maxMode && modeNumber != old(mode) && Matched(modeNumber) ==>
        AllShow(consoles, requested, Listed(told))
    {
      hide Build, AllWellBehaved, PadRows, RowsOf, Consistent, Sizes;
      told := QueryMode(modeNumber);
      var supported;
      supported, requested := SetMode(modeNumber);
    }

    /** Each console's mode number for one of the splitter's modes. */
    method ReadRow(modeNumber: nat) returns (row: seq<int>)
      requires Valid() && modeNumber < maxMode
      ensures |row| == |consoles|
      ensures consoles != [] ==> row == Build(ModesOf(consoles)).rows[modeNumber]
    {
      row := [];
      ghost var rows := if consoles == [] then [] else Build(ModesOf(consoles)).rows;
      hide Build, Consistent;
      for index := 0 to currentNumberOfConsoles
        invariant |row| == index
        invariant consoles != [] ==> row == rows[modeNumber][..index]
      {
        EntryInMap(textOutModeMap[..], textOutListCount, rows, modeNumber, index);
        row := row + [textOutModeMap[Off(textOutListCount, modeNumber) + index]];
      }
    }

    /**
      However consoles come and go and modes are set, the map is a function of the
      consoles that are attached now: those attached and not detached since.
    */
    method Session(events: seq<Event>)
      requires Valid()
      requires forall e :: e in events && e.Attach? ==> WellBehaved(e.console.device)
      modifies this, textOutModeMap, textOutQueryData
      ensures Valid() && consoles == Replay(old(consoles), events, |events|)
    {
      hide Splitter.Valid, WellBehaved;
      for i := 0 to |events|
        invariant Valid() && consoles == Replay(old(consoles), events, i)
        invariant textOutModeMap == old(textOutModeMap) || textOutModeMap == null || fresh(textOutModeMap)
        invariant textOutQueryData == old(textOutQueryData) || fresh(textOutQueryData)
      {
        assert events[i] in events;
        match events[i]
        case Attach(console) => var _ := AddDevice(console);
        case Detach(handle) => var _ := DeleteDevice(handle);
        case Set(modeNumber) => var _, _ := SetMode(modeNumber);
      }
    }
  }

  /** Entry k of row i of the map is entry k of row i of the table it shows. */
  lemma EntryInMap(flat: seq<int>, step: nat, rows: seq<seq<int>>, i: nat, k: nat)
    requires Off(step, |rows|) <= |flat| && i < |rows| && k < |rows[i]|
    requires forall j :: 0 <= j < |rows| ==> |rows[j]| <= step
    requires RowsOf(flat, step, |rows|) == PadRows(rows, step)
    ensures Off(step, i) + k < |flat| && flat[Off(step, i) + k] == rows[i][k]
  {
    RowInside(step, i, |rows|);
    assert RowAt(flat, step, i)[k] == flat[Off(step, i) + k];
    assert RowsOf(flat, step, |rows|)[i] == PadRow(rows[i], step);
  }

  lemma ModeZeroInMap(flat: seq<int>, step: nat, n: nat, modes: Modes)
    requires WellBehaved(modes) && n == |modes| && step >= 1 && Off(step, n) <= |flat|
    requires RowsOf(flat, step, n) == PadRows(FirstTable(modes).rows, step)
    ensures |flat| > 0 && flat[0] == 0
  {
    EntryInMap(flat, step, FirstTable(modes).rows, 0, 0);
  }

  lemma RowAgreed(list: seq<Modes>, i: nat)
    requires AllWellBehaved(list) && i < |Build(list).rows| && (i >= 2 || SameReserved(list, i))
    ensures Agrees(list, Build(list).query, Build(list).rows[i])
  {
    if i >= 2 {
      BuildSound(list);
    } else {
      BuildReserved(list, i);
    }
  }

  lemma BuildFirst(d: Modes)
    requires WellBehaved(d)
    ensures Build([d]) == FirstTable(d)
  {
  }

  lemma BuildNext(list: seq<Modes>, d: Modes)
    requires AllWellBehaved(list) && WellBehaved(d)
    ensures AllWellBehaved(list + [d]) && Build(list + [d]) == Sync(Build(list), |list|, d)
  {
  }

  lemma FirstOfPadded(flat: seq<int>, step: nat, rows: seq<seq<int>>, width: nat)
    requires Off(step, |rows|) <= |flat| && width <= step
    requires forall i :: 0 <= i < |rows| ==> |rows[i]| == width
    requires RowsOf(flat, step, |rows|) == PadRows(rows, step)
    ensures FirstColumns(flat, step, |rows|, width) == rows
  {
    forall i | 0 <= i < |rows|
      ensures FirstColumns(flat, step, |rows|, width)[i] == rows[i]
    {
      RowInside(step, i, |rows|);
      assert RowsOf(flat, step, |rows|)[i] == PadRow(rows[i], step);
    }
  }

  /** Record mode m of the first console in row m. */
  method MapToItself(table: array<int>, index: nat, m: nat, ghost step: nat, ghost rows: seq<seq<int>>)
    requires step >= 1 && m < |rows| && rows[m] == [m] && forall i :: 0 <= i < |rows| ==> |rows[i]| <= step
    requires Off(step, |rows|) <= table.Length && index == Off(step, m)
    requires RowsOf(table[..], step, |rows|) == PadRows(Filling(rows, m, 0), step)
    modifies table
    ensures RowsOf(table[..], step, |rows|) == PadRows(Filling(rows, m + 1, 0), step)
  {
    RowInside(step, m, |rows|);
    EntryUpdate(table[..], step, |rows|, m, 0, m);
    FillOne(rows, step, m, 0);
    FillRowDone(rows, m);
    ghost var before := table[..];
    table[index] := m;
    assert table[..] == before[0 + Off(step, m) := m];
  }

  ghost function EmptyRows(n: nat): (rows: seq<seq<int>>)
    ensures |rows| == n && forall i :: 0 <= i < n ==> rows[i] == []
  {
    seq(n, _ => [])
  }

  ghost function FirstColumns(flat: seq<int>, step: nat, n: nat, width: nat): (rows: seq<seq<int>>)
    requires Off(step, n) <= |flat| && width <= step
    ensures |rows| == n && forall i :: 0 <= i < n ==> |rows[i]| == width
  {
    seq(n, i requires 0 <= i < n => RowInside(step, i, n); RowAt(flat, step, i)[..width])
  }

  lemma FirstColumnsAt(flat: seq<int>, step: nat, n: nat, width: nat, i: nat)
    requires Off(step, n) <= |flat| && width <= step && i < n
    ensures 0 <= Off(step, i) && Off(step, i) + width <= |flat|
    ensures FirstColumns(flat, step, n, width)[i] == flat[Off(step, i)..Off(step, i) + width]
  {
    RowInside(step, i, n);
    hide Off;
  }

  /** CopyMem of the used part of one row into the enlarged map. */
  method CopyColumns(newMap: array<int>, oldMap: array<int>, target: nat, source: nat, size: nat,
                     ghost step: nat, ghost index: nat, ghost rows: seq<seq<int>>)
    requires newMap != oldMap && index < |rows| && size == |rows[index]|
    requires forall i :: 0 <= i < |rows| ==> |rows[i]| <= step
    requires Off(step, |rows|) <= newMap.Length && target == Off(step, index)
    requires size > 0 ==> source + size <= oldMap.Length && oldMap[source..source + size] == rows[index]
    requires RowsOf(newMap[..], step, |rows|) == PadRows(Filling(rows, index, 0), step)
    modifies newMap
    ensures RowsOf(newMap[..], step, |rows|) == PadRows(Filling(rows, index + 1, 0), step)
  {
    hide PadRows, RowsOf, Off;
    var c := 0;
    while c < size
      invariant c <= size
      invariant RowsOf(newMap[..], step, |rows|) == PadRows(Filling(rows, index, c), step)
    {
      assert oldMap[source..source + size][c] == oldMap[source + c];
      EntryUpdate(newMap[..], step, |rows|, index, c, oldMap[source + c]);
      FillOne(rows, step, index, c);
      ghost var before := newMap[..];
      newMap[target + c] := oldMap[source + c];
      assert newMap[..] == before[c + Off(step, index) := oldMap[source + c]];
      c := c + 1;
    }
    FillRowDone(rows, index);
  }

  /** Copy the used part of every row, row by row, into the enlarged map. */
  method CopyRows(newMap: array<int>, oldMap: array<int>, step: nat, oldStep: nat, size: nat, n: nat,
                  ghost rows: seq<seq<int>>)
    requires newMap != oldMap && n == |rows| && size <= step && Off(step, n) <= newMap.Length
    requires size > 0 ==> size <= oldStep && Off(oldStep, n) <= oldMap.Length
    requires rows == if size > 0 then FirstColumns(oldMap[..], oldStep, n, size) else EmptyRows(n)
    requires RowsOf(newMap[..], step, n) == PadRows(Filling(rows, 0, 0), step)
    modifies newMap
    ensures RowsOf(newMap[..], step, n) == PadRows(rows, step)
  {
    var source, target, index := 0, 0, 0;
    while index < n
      invariant index <= n && target == Off(step, index) && source == Off(oldStep, index)
      invariant RowsOf(newMap[..], step, n) == PadRows(Filling(rows, index, 0), step)
    {
      if size > 0 {
        FirstColumnsAt(oldMap[..], oldStep, n, size, index);
        assert oldMap[..][source..source + size] == oldMap[source..source + size];
      }
      CopyColumns(newMap, oldMap, target, source, size, step, index, rows);
      target := target + step;
      source := source + oldStep;
      index := index + 1;
    }
    assert Filling(rows, n, 0) == rows;
  }

  lemma EmptyMap(flat: seq<int>, step: nat, rows: seq<seq<int>>)
    requires Off(step, |rows|) <= |flat| && forall x :: 0 <= x < |flat| ==> flat[x] == -1
    requires forall i :: 0 <= i < |rows| ==> |rows[i]| <= step
    ensures RowsOf(flat, step, |rows|) == PadRows(Filling(rows, 0, 0), step)
  {
    forall i | 0 <= i < |rows|
      ensures RowsOf(flat, step, |rows|)[i] == PadRows(Filling(rows, 0, 0), step)[i]
    {
      RowInside(step, i, |rows|);
      assert Filling(rows, 0, 0)[i] == [];
      var row := RowAt(flat, step, i);
      forall c | 0 <= c < step
        ensures row[c] == PadRow([], step)[c]
      {
        assert row[c] == flat[Off(step, i) + c];
      }
      assert row == PadRow([], step);
    }
  }

  /** The first console's mode number of row i, as the search reads it from the map. */
  lemma HeadInMap(flat: seq<int>, step: nat, rows: seq<seq<int>>, col: seq<int>, i: nat)
    requires |col| == |rows| && i < |rows| && Off(step, |rows|) <= |flat|
    requires forall j :: 0 <= j < |rows| ==> 1 <= |rows[j]| < step
    requires RowsOf(flat, step, |rows|) == PadRows(Extend(rows, col), step)
    ensures Off(step, i) < |flat| && flat[Off(step, i)] == Heads(rows)[i]
  {
    RowInside(step, i, |rows|);
    assert RowsOf(flat, step, |rows|)[i] == RowAt(flat, step, i);
    assert RowAt(flat, step, i)[0] == flat[Off(step, i)];
    assert PadRows(Extend(rows, col), step)[i] == PadRow(rows[i] + [col[i]], step);
  }

  /** Recording a mode in the new console's column. */
  lemma ExtendEntry(rows: seq<seq<int>>, col: seq<int>, width: nat, step: nat, k: nat, m: int)
    requires |col| == |rows| && k < |rows| && width < step
    requires forall j :: 0 <= j < |rows| ==> |rows[j]| == width
    ensures PadRows(Extend(rows, col[k := m]), step) ==
      PadRows(Extend(rows, col), step)[k := PadRows(Extend(rows, col), step)[k][width := m]]
  {
    assert PadRow(rows[k] + [m], step) == PadRow(rows[k] + [col[k]], step)[width := m];
  }

  /** Before any mode is matched the new console's column holds -1 throughout. */
  lemma ExtendUnmatched(rows: seq<seq<int>>, width: nat, step: nat)
    requires width < step && forall j :: 0 <= j < |rows| ==> |rows[j]| == width
    ensures PadRows(Extend(rows, Unmatched(|rows|)), step) == PadRows(rows, step)
  {
    forall j | 0 <= j < |rows|
      ensures PadRow(rows[j] + [-1], step) == PadRow(rows[j], step)
    {
    }
  }

  /** Read down the map, the new console's column is col. */
  lemma NewColumnInMap(flat: seq<int>, step: nat, rows: seq<seq<int>>, col: seq<int>, width: nat)
    requires |col| == |rows| && width < step && Off(step, |rows|) <= |flat|
    requires forall j :: 0 <= j < |rows| ==> |rows[j]| == width
    requires RowsOf(flat, step, |rows|) == PadRows(Extend(rows, col), step)
    ensures |rows| > 0 ==> width + Off(step, |rows| - 1) < |flat|
    ensures Column(flat, width, step, |rows|) == col
  {
    var n := |rows|;
    var padded := PadRows(Extend(rows, col), step);
    ColumnOfRows(flat, width, step, n);
    var read := Column(flat, width, step, n);
    assert forall i :: 0 <= i < n ==> read[i] == padded[i][width];
    assert forall i :: 0 <= i < n ==> padded[i] == PadRow(rows[i] + [col[i]], step);
    assert forall i :: 0 <= i < n ==> read[i] == col[i];
  }
}
