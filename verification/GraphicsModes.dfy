/**
  The graphics modes the console splitter offers: ConSplitterAddGraphicsOutputMode,
  ConSplitterGraphicsOutputQueryMode and ConSplitterGraphicsOutputSetMode.

  The mode list of the first graphics device is taken over and then cut down to
  what every further device supports; detaching a device leaves the list alone.
*/
module GraphicsModes {
  import opened Attached

  datatype Option<+T> = None | Some(value: T)

  datatype Resolution = Resolution(horizontal: nat, vertical: nat)

  /** A graphics device: the resolutions of its modes and the mode it is in. */
  datatype Gop = Gop(modes: seq<Resolution>, current: int)

  /** A console; its graphics output is absent on a text-only device. */
  type GopConsole = Console<Option<Gop>>

  const DEFAULT_RESOLUTION := Resolution(800, 600)
  const UNKNOWN_MODE: int := 0xffff

  predicate WellFormed(g: Gop) { 0 <= g.current < |g.modes| }

  function Here(g: Gop): Resolution
    requires WellFormed(g)
  {
    g.modes[g.current]
  }

  // ----- lists of resolutions

  /** The first index of r in s, or |s|. */
  function IndexOf(s: seq<Resolution>, r: Resolution): (k: nat)
    ensures k <= |s|
    ensures k < |s| <==> r in s
    ensures k < |s| ==> s[k] == r
  {
    if s == [] || s[0] == r then 0 else
      var k := IndexOf(s[1..], r);
      1 + k
  }

  method Search(s: seq<Resolution>, r: Resolution) returns (k: nat)
    ensures k == IndexOf(s, r)
  {
    k := 0;
    assert s[0..] == s;
    while k < |s| && s[k] != r
      invariant k <= |s| && IndexOf(s, r) == k + IndexOf(s[k..], r)
    {
      assert s[k..][1..] == s[k + 1..];
      k := k + 1;
    }
  }

  ghost predicate Distinct(list: seq<Resolution>) {
    forall i, j :: 0 <= i < j < |list| ==> list[i] != list[j]
  }

  /** The list has modes of `first` only, each once and in the order in which `first` has them. */
  ghost predicate InOrderOf(first: seq<Resolution>, list: seq<Resolution>) {
    (forall i :: 0 <= i < |list| ==> list[i] in first) &&
    (forall i, j :: 0 <= i < j < |list| ==> IndexOf(first, list[i]) < IndexOf(first, list[j]))
  }

  lemma InOrderOfBoth(first: seq<Resolution>, list: seq<Resolution>, shorter: seq<Resolution>)
    requires InOrderOf(first, list) && InOrderOf(list, shorter)
    ensures InOrderOf(first, shorter)
  {
    forall i | 0 <= i < |shorter|
      ensures shorter[i] in first && list[IndexOf(list, shorter[i])] == shorter[i]
    {
      assert list[IndexOf(list, shorter[i])] == shorter[i];
    }
  }

  lemma {:induction false} IndexAtMost(s: seq<Resolution>, k: nat)
    requires k < |s|
    ensures IndexOf(s, s[k]) <= k
  {
    if k > 0 && s[0] != s[k] {
      IndexAtMost(s[1..], k - 1);
    }
  }

  lemma {:induction false} NotEarlier(s: seq<Resolution>, r: Resolution, k: nat)
    requires k < |s| && s[k] == r && r !in s[..k]
    ensures IndexOf(s, r) == k
  {
    if k > 0 {
      assert s[..k] == [s[0]] + s[1..][..k - 1];
      NotEarlier(s[1..], r, k - 1);
    }
  }

  /** A list in the order of another is determined by its elements. */
  lemma {:induction false} OrderDetermines(first: seq<Resolution>, a: seq<Resolution>, b: seq<Resolution>)
    requires InOrderOf(first, a) && InOrderOf(first, b)
    requires forall r :: r in a <==> r in b
    ensures a == b
  {
    assert (a != [] ==> a[0] in b) && (b != [] ==> b[0] in a);
    if a != [] {
      assert first[IndexOf(first, a[0])] == a[0] && first[IndexOf(first, b[0])] == b[0];
      assert a[0] == b[0];
      assert a == [a[0]] + a[1..] && b == [b[0]] + b[1..];
      forall r
        ensures r in a[1..] <==> r in b[1..]
      {
        assert a[0] !in a[1..] && b[0] !in b[1..];
        assert r in a <==> r in b;
      }
      OrderDetermines(first, a[1..], b[1..]);
    }
  }

  lemma {:induction false} DistinctFit(list: seq<Resolution>, own: seq<Resolution>)
    requires Distinct(list) && forall r :: r in list ==> r in own
    ensures |list| <= |own|
  {
    if list != [] {
      var k := IndexOf(own, list[0]);
      assert list[0] in own;
      var others := own[..k] + own[k + 1..];
      forall r | r in list[1..]
        ensures r in others
      {
        assert r in list && r != list[0];
        var j := IndexOf(own, r);
        assert others[if j < k then j else j - 1] == r;
      }
      DistinctFit(list[1..], others);
    }
  }

  /** The modes among the first n of the list that the device has too, each once. */
  ghost predicate Matches(list: seq<Resolution>, modes: seq<Resolution>, matched: seq<Resolution>, n: nat) {
    n <= |list| && InOrderOf(list, matched) &&
    (forall r :: r in matched <==> r in list[..n] && r in modes) &&
    (forall i :: 0 <= i < |matched| ==> IndexOf(list, matched[i]) < n)
  }

  lemma MatchesNext(list: seq<Resolution>, modes: seq<Resolution>, matched: seq<Resolution>, n: nat)
    requires n < |list| && Matches(list, modes, matched, n)
    ensures list[n] in modes && list[n] !in matched ==> Matches(list, modes, matched + [list[n]], n + 1)
    ensures list[n] !in modes || list[n] in matched ==> Matches(list, modes, matched, n + 1)
  {
    assert list[..n + 1] == list[..n] + [list[n]];
    if list[n] in modes && list[n] !in matched {
      NotEarlier(list, list[n], n);
    }
  }

  // ----- what is offered after meeting some devices

  /** Every one of these devices has the mode. */
  ghost predicate Common(met: seq<seq<Resolution>>, r: Resolution) {
    forall d :: 0 <= d < |met| ==> r in met[d]
  }

  /**
    The list a splitter offers after it met these devices: the modes of a single one as they
    are; otherwise the modes that all of them have, in the order of the first and each once.
  */
  ghost predicate Offered(met: seq<seq<Resolution>>, list: seq<Resolution>) {
    (|met| == 1 ==> list == met[0]) &&
    (|met| >= 2 ==> InOrderOf(met[0], list) && forall r :: r in list <==> Common(met, r))
  }

  lemma OfferedNext(met: seq<seq<Resolution>>, list: seq<Resolution>, modes: seq<Resolution>, shorter: seq<Resolution>)
    requires met != [] && Offered(met, list) && InOrderOf(list, shorter)
    requires forall r :: r in shorter <==> r in list && r in modes
    ensures Offered(met + [modes], shorter)
  {
    var all := met + [modes];
    assert all[|met|] == modes && forall d :: 0 <= d < |met| ==> all[d] == met[d];
    if |met| > 1 {
      InOrderOfBoth(met[0], list, shorter);
    }
    forall r
      ensures r in shorter <==> Common(all, r)
    {
      assert r in list <==> Common(met, r);
      assert Common(all, r) <==> Common(met, r) && r in modes;
    }
  }

  lemma OfferedIsCommon(met: seq<seq<Resolution>>, list: seq<Resolution>, own: seq<Resolution>)
    requires own in met && Offered(met, list)
    ensures forall r :: r in list ==> r in own
    ensures |met| >= 2 ==> Distinct(list)
    ensures |list| <= |own|
  {
    var d :| 0 <= d < |met| && met[d] == own;
    if |met| >= 2 {
      forall r | r in list
        ensures r in own
      {
        assert Common(met, r) && r in met[d];
      }
      DistinctFit(list, own);
    }
  }

  /** The mode of this number stayed on offer, and the device lists it for the first time. */
  ghost predicate Stays(met: seq<seq<Resolution>>, own: seq<Resolution>, i: nat) {
    i < |own| && Common(met, own[i]) && IndexOf(own, own[i]) == i
  }

  /** No mode of the device was dropped in front of one that stayed. */
  ghost predicate NoneDroppedBefore(met: seq<seq<Resolution>>, own: seq<Resolution>) {
    forall i, j :: 0 <= i < j < |own| && Stays(met, own, j) ==> Stays(met, own, i)
  }

  /** The modes that stayed stand in the same order in `first` and in the device's own list. */
  ghost predicate NoneReordered(met: seq<seq<Resolution>>, first: seq<Resolution>, own: seq<Resolution>) {
    forall i, j :: 0 <= i < j < |own| && Stays(met, own, i) && Stays(met, own, j) ==>
      IndexOf(first, own[i]) < IndexOf(first, own[j])
  }

  /** How many modes at the start of the device's list stayed. */
  ghost function Staying(met: seq<seq<Resolution>>, own: seq<Resolution>, i: nat): (k: nat)
    requires i <= |own|
    ensures i <= k <= |own| && (forall j :: i <= j < k ==> Stays(met, own, j)) && !Stays(met, own, k)
    decreases |own| - i
  {
    if Stays(met, own, i) then Staying(met, own, i + 1) else i
  }

  lemma StaysInPrefix(met: seq<seq<Resolution>>, list: seq<Resolution>, own: seq<Resolution>, i: nat)
    requires |met| >= 2 && own in met && Offered(met, list) && list <= own && i < |own|
    ensures Stays(met, own, i) <==> i < |list|
  {
    OfferedIsCommon(met, list, own);
    IndexAtMost(own, i);
    var k := IndexOf(own, own[i]);
    assert own[i] in list <==> Common(met, own[i]);
    if i < |list| {
      assert list[i] in list && list[k] == own[k];
    } else if own[i] in list {
      var j := IndexOf(list, own[i]);
      assert own[j] == list[j];
      IndexAtMost(own, j);
    }
  }

  lemma PrefixKeepsOrder(met: seq<seq<Resolution>>, list: seq<Resolution>, own: seq<Resolution>)
    requires |met| >= 2 && own in met && Offered(met, list) && list <= own
    ensures NoneDroppedBefore(met, own) && NoneReordered(met, met[0], own)
  {
    forall i | 0 <= i < |own|
      ensures Stays(met, own, i) <==> i < |list|
    {
      StaysInPrefix(met, list, own, i);
    }
    assert forall i :: 0 <= i < |list| ==> own[i] == list[i];
  }

  lemma StayingAreOffered(met: seq<seq<Resolution>>, list: seq<Resolution>, own: seq<Resolution>, k: nat)
    requires |met| >= 2 && own in met && Offered(met, list) && NoneDroppedBefore(met, own)
    requires k <= |own| && !Stays(met, own, k) && forall j :: 0 <= j < k ==> Stays(met, own, j)
    ensures forall r :: r in own[..k] <==> r in list
  {
    OfferedIsCommon(met, list, own);
    forall r
      ensures r in own[..k] <==> r in list
    {
      assert r in list <==> Common(met, r);
      if r in list {
        var i := IndexOf(own, r);
        assert Stays(met, own, i) && i < k;
        assert own[..k][i] == r;
      }
      if r in own[..k] {
        var i :| 0 <= i < k && own[..k][i] == r;
        assert Stays(met, own, i);
      }
    }
  }

  lemma StayingInOrder(met: seq<seq<Resolution>>, own: seq<Resolution>, k: nat)
    requires |met| >= 2 && NoneReordered(met, met[0], own)
    requires k <= |own| && forall j :: 0 <= j < k ==> Stays(met, own, j)
    ensures InOrderOf(met[0], own[..k])
  {
    hide IndexOf;
    var kept := own[..k];
    forall i | 0 <= i < k
      ensures kept[i] in met[0]
    {
      assert Stays(met, own, i) && Common(met, own[i]);
    }
    forall i, j | 0 <= i < j < k
      ensures IndexOf(met[0], kept[i]) < IndexOf(met[0], kept[j])
    {
      assert Stays(met, own, i) && Stays(met, own, j);
    }
  }

  lemma OrderMakesPrefix(met: seq<seq<Resolution>>, list: seq<Resolution>, own: seq<Resolution>)
    requires |met| >= 2 && own in met && Offered(met, list)
    requires NoneDroppedBefore(met, own) && NoneReordered(met, met[0], own)
    ensures list <= own
  {
    hide IndexOf, Stays, InOrderOf, NoneDroppedBefore, NoneReordered, Common;
    var k := Staying(met, own, 0);
    StayingAreOffered(met, list, own, k);
    StayingInOrder(met, own, k);
    OrderDetermines(met[0], own[..k], list);
  }

  // ----- consoles

  function Gops(consoles: seq<GopConsole>): seq<Gop> {
    if consoles == [] then []
    else GopOf(consoles[0]) + Gops(consoles[1..])
  }

  function GopOf(c: GopConsole): seq<Gop> { if c.device.Some? then [c.device.value] else [] }

  lemma {:induction false} GopsAppend(a: seq<GopConsole>, b: seq<GopConsole>)
    ensures Gops(a + b) == Gops(a) + Gops(b)
  {
    if a == [] {
      assert a + b == b;
    } else {
      assert (a + b)[1..] == a[1..] + b && (a + b)[0] == a[0];
      GopsAppend(a[1..], b);
      assert GopOf(a[0]) + (Gops(a[1..]) + Gops(b)) == Gops(a) + Gops(b);
    }
  }

  lemma {:induction false} GopsFrom(consoles: seq<GopConsole>, k: nat) returns (i: nat)
    requires k < |Gops(consoles)|
    ensures i < |consoles| && consoles[i].device == Some(Gops(consoles)[k])
  {
    var n := if consoles[0].device.Some? then 1 else 0;
    if k < n {
      i := 0;
    } else {
      i := GopsFrom(consoles[1..], k - n);
      i := i + 1;
    }
  }

  lemma {:induction false} NoGops(consoles: seq<GopConsole>)
    ensures Gops(consoles) == [] <==> forall i :: 0 <= i < |consoles| ==> consoles[i].device == None
  {
    if consoles != [] {
      NoGops(consoles[1..]);
      assert forall i :: 0 < i < |consoles| ==> consoles[i] == consoles[1..][i - 1];
      assert forall i :: 0 <= i < |consoles[1..]| ==> consoles[1..][i] == consoles[i + 1];
    }
  }

  /** Every resolution of the list is a mode of every device. */
  ghost predicate AllSupport(consoles: seq<GopConsole>, list: seq<Resolution>) {
    forall i, r :: 0 <= i < |consoles| && consoles[i].device.Some? && r in list ==> r in consoles[i].device.value.modes
  }

  ghost predicate AllWellFormed(consoles: seq<GopConsole>) {
    forall i :: 0 <= i < |consoles| && consoles[i].device.Some? ==> WellFormed(consoles[i].device.value)
  }

  ghost predicate AllMet(consoles: seq<GopConsole>, met: seq<seq<Resolution>>) {
    forall i :: 0 <= i < |consoles| && consoles[i].device.Some? ==> consoles[i].device.value.modes in met
  }

  lemma WithConsole(consoles: seq<GopConsole>, console: GopConsole)
    requires AllWellFormed(consoles) && (console.device.Some? ==> WellFormed(console.device.value))
    ensures AllWellFormed(consoles + [console])
    ensures |Gops(consoles + [console])| == |Gops(consoles)| + (if console.device.Some? then 1 else 0)
  {
    GopsAppend(consoles, [console]);
  }

  lemma MetWithConsole(consoles: seq<GopConsole>, met: seq<seq<Resolution>>, console: GopConsole, more: seq<seq<Resolution>>)
    requires AllMet(consoles, met) || Gops(consoles) == []
    requires console.device.Some? ==> console.device.value.modes in more
    requires Gops(consoles) != [] ==> forall m :: m in met ==> m in more
    ensures AllMet(consoles + [console], more)
  {
    NoGops(consoles);
  }

  lemma WithoutConsole(consoles: seq<GopConsole>, k: nat, met: seq<seq<Resolution>>, r: Resolution)
    requires k < |consoles| && AllWellFormed(consoles) && AllMet(consoles, met)
    ensures var rest := consoles[..k] + consoles[k + 1..];
      && |Gops(rest)| == |Gops(consoles)| - (if consoles[k].device.Some? then 1 else 0)
      && AllWellFormed(rest) && AllMet(rest, met) && (AllShow(consoles, r) ==> AllShow(rest, r))
  {
    GopsWithout(consoles, k);
    hide Gops;
  }

  lemma GopsWithout(consoles: seq<GopConsole>, k: nat)
    requires k < |consoles|
    ensures |Gops(consoles[..k] + consoles[k + 1..])| == |Gops(consoles)| - |GopOf(consoles[k])|
  {
    var front, back := consoles[..k], consoles[k + 1..];
    assert consoles == front + ([consoles[k]] + back);
    GopsAppend(front, [consoles[k]] + back);
    GopsAppend([consoles[k]], back);
    GopsAppend(front, back);
    assert Gops([consoles[k]]) == GopOf(consoles[k]);
  }

  predicate Shows(c: GopConsole, r: Resolution) {
    c.device.Some? ==> WellFormed(c.device.value) && Here(c.device.value) == r
  }

  /** Every graphics device is in a mode of its own with resolution r. */
  ghost predicate AllShow(consoles: seq<GopConsole>, r: Resolution) {
    forall i :: 0 <= i < |consoles| ==> Shows(consoles[i], r)
  }

  predicate SameDevice(before: GopConsole, after: GopConsole) {
    after.handle == before.handle && after.device.Some? == before.device.Some? &&
    (before.device.Some? ==> after.device.value.modes == before.device.value.modes)
  }

  /** The same consoles, in modes of their own. */
  ghost predicate SameDevices(before: seq<GopConsole>, after: seq<GopConsole>) {
    |after| == |before| && forall i :: 0 <= i < |before| ==> SameDevice(before[i], after[i])
  }

  lemma {:induction false} SameCount(before: seq<GopConsole>, after: seq<GopConsole>)
    requires SameDevices(before, after)
    ensures |Gops(before)| == |Gops(after)|
  {
    if before != [] {
      assert SameDevice(before[0], after[0]);
      assert SameDevices(before[1..], after[1..]);
      SameCount(before[1..], after[1..]);
    }
  }

  lemma SameMet(before: seq<GopConsole>, after: seq<GopConsole>, met: seq<seq<Resolution>>)
    requires SameDevices(before, after) && AllMet(before, met)
    ensures AllMet(after, met)
  {
    forall i | 0 <= i < |after| && after[i].device.Some?
      ensures after[i].device.value.modes in met
    {
      assert SameDevice(before[i], after[i]);
    }
  }

  lemma LastKeeps(before: seq<GopConsole>, after: seq<GopConsole>, r: Resolution)
    requires SameDevices(before, after) && before != [] && AllWellFormed(before)
    requires after[..|after| - 1] == before[..|before| - 1]
    requires after[|after| - 1].device.Some? && WellFormed(after[|after| - 1].device.value)
    ensures AllWellFormed(after)
    ensures AllShow(before[..|before| - 1], r) && Shows(after[|after| - 1], r) ==> AllShow(after, r)
  {
    var last := |after| - 1;
    assert after == before[..last] + [after[last]];
  }

  lemma RemovedSame(before: seq<GopConsole>, after: seq<GopConsole>, handle: nat)
    requires SameDevices(before, after)
    ensures SameDevices(Removed(before, handle), Removed(after, handle))
  {
    assert Handles(before) == Handles(after) by {
      assert forall k :: 0 <= k < |before| ==> SameDevice(before[k], after[k]);
    }
  }

  datatype Event = Attach(console: GopConsole, stray: Resolution) | Detach(handle: nat) | Set(modeNumber: nat)

  function Apply(consoles: seq<GopConsole>, event: Event): (r: seq<GopConsole>) {
    match event
    case Attach(console, _) => consoles + [console]
    case Detach(handle) => Removed(consoles, handle)
    case Set(_) => consoles
  }

  lemma ApplySame(before: seq<GopConsole>, after: seq<GopConsole>, event: Event)
    requires SameDevices(before, after)
    ensures SameDevices(Apply(before, event), Apply(after, event))
  {
    if event.Detach? {
      RemovedSame(before, after, event.handle);
    }
  }

  lemma SameDevicesBoth(a: seq<GopConsole>, b: seq<GopConsole>, c: seq<GopConsole>)
    requires SameDevices(a, b) && SameDevices(b, c)
    ensures SameDevices(a, c)
  {
  }

  /** The consoles that the first n events leave attached, each as it was attached. */
  function Replay(consoles: seq<GopConsole>, events: seq<Event>, n: nat): (r: seq<GopConsole>)
    requires n <= |events|
  {
    if n == 0 then consoles else Apply(Replay(consoles, events, n - 1), events[n - 1])
  }

  /** The mode to prefer for a device that is at `here`: its resolution, else 800x600, else mode 0. */
  function Preferred(list: seq<Resolution>, here: Resolution): nat {
    if here in list then IndexOf(list, here)
    else if DEFAULT_RESOLUTION in list then IndexOf(list, DEFAULT_RESOLUTION) else 0
  }

  /** The first mode with the device's own resolution, else the first with 800 x 600, else mode 0. */
  ghost predicate Prefers(list: seq<Resolution>, here: Resolution, mode: int) {
    0 <= mode < |list| &&
    if here in list then list[mode] == here && here !in list[..mode]
    else if Resolution(800, 600) in list then list[mode] == Resolution(800, 600) && list[mode] !in list[..mode]
    else mode == 0
  }

  lemma PreferredInList(list: seq<Resolution>, here: Resolution)
    requires list != []
    ensures Preferred(list, here) < |list| && Prefers(list, here, Preferred(list, here))
  {
    IndexIsFirst(list, here);
    IndexIsFirst(list, DEFAULT_RESOLUTION);
  }

  lemma {:induction false} IndexIsFirst(s: seq<Resolution>, r: Resolution)
    ensures r !in s[..IndexOf(s, r)]
  {
    if s != [] && s[0] != r {
      IndexIsFirst(s[1..], r);
      assert s[..IndexOf(s, r)] == [s[0]] + s[1..][..IndexOf(s[1..], r)];
    }
  }

  class Splitter {
    var consoles: seq<GopConsole>
    var numberOfGraphicsOutput: nat
    var modeBuffer: seq<Resolution>
    var mode: int
    var info: Resolution
    /** The modes of the devices attached since there was none, whether or not they are still there. */
    ghost var met: seq<seq<Resolution>>

    /** The list is the one offered after meeting the devices, and those attached are among them. */
    ghost predicate Sound()
      reads this`consoles, this`numberOfGraphicsOutput, this`modeBuffer, this`met
    {
      numberOfGraphicsOutput == |Gops(consoles)| && AllWellFormed(consoles) && AllMet(consoles, met) &&
      (numberOfGraphicsOutput > 0 ==>
        met != [] && Offered(met, modeBuffer) && (|met| == 1 ==> numberOfGraphicsOutput == 1))
    }

    /** As long as any mode is offered, all devices show the resolution of the selected one. */
    ghost predicate InStep()
      reads this
    {
      modeBuffer != [] ==>
        0 <= mode < |modeBuffer| && info == modeBuffer[mode] && AllShow(consoles, info)
    }

    ghost predicate Valid()
      reads this
    {
      Sound() && InStep()
    }

    constructor ()
      ensures Valid() && consoles == [] && modeBuffer == [Resolution(800, 600)] && met == []
    {
      consoles := [];
      numberOfGraphicsOutput := 0;
      modeBuffer := [DEFAULT_RESOLUTION];
      mode := 0;
      info := DEFAULT_RESOLUTION;
      met := [];
    }

    /** The consoles may be put into other modes of theirs. */
    twostate lemma SoundAfter()
      requires old(Sound()) && SameDevices(old(consoles), consoles) && AllWellFormed(consoles)
      requires numberOfGraphicsOutput == old(numberOfGraphicsOutput)
      requires modeBuffer == old(modeBuffer) && met == old(met)
      ensures Sound()
    {
      SameCount(old(consoles), consoles);
      SameMet(old(consoles), consoles, met);
    }

    lemma Supports(k: nat)
      requires Sound() && k < |consoles| && consoles[k].device.Some?
      ensures forall r :: r in modeBuffer ==> r in consoles[k].device.value.modes
      ensures |met| >= 2 ==> Distinct(modeBuffer)
    {
      NoGops(consoles);
      OfferedIsCommon(met, modeBuffer, consoles[k].device.value.modes);
    }

    /** Every advertised resolution is a mode of every attached device. */
    lemma SoundSupports()
      requires Sound()
      ensures AllSupport(consoles, modeBuffer)
      ensures numberOfGraphicsOutput > 0 && |met| >= 2 ==> Distinct(modeBuffer)
    {
      NoGops(consoles);
      forall i | 0 <= i < |consoles| && consoles[i].device.Some?
        ensures forall r :: r in modeBuffer ==> r in consoles[i].device.value.modes
        ensures |met| >= 2 ==> Distinct(modeBuffer)
      {
        Supports(i);
      }
    }

    /** The modes of the list that the new device has too, each once. */
    method Intersect(modes: seq<Resolution>) returns (matched: seq<Resolution>)
      ensures forall r :: r in matched <==> r in modeBuffer && r in modes
      ensures InOrderOf(modeBuffer, matched) && Distinct(matched)
    {
      matched := [];
      for index := 0 to |modeBuffer|
        invariant Matches(modeBuffer, modes, matched, index)
      {
        MatchesNext(modeBuffer, modes, matched, index);
        var number := Search(modes, modeBuffer[index]);
        if number < |modes| {
          var known := Search(matched, modeBuffer[index]);
          if known == |matched| {
            matched := matched + [modeBuffer[index]];
          }
        }
      }
      assert modeBuffer[..|modeBuffer|] == modeBuffer;
    }

    /** Put every graphics device into the mode with resolution r. */
    method SetDevices(r: Resolution)
      requires AllSupport(consoles, [r])
      modifies this`consoles
      ensures SameDevices(old(consoles), consoles) && AllShow(consoles, r)
    {
      for index := 0 to |consoles|
        invariant SameDevices(old(consoles), consoles) && AllShow(consoles[..index], r)
        invariant forall i :: index <= i < |consoles| ==> consoles[i] == old(consoles)[i]
      {
        var console := consoles[index];
        if console.device.Some? {
          assert r in [r];
          var number := Search(console.device.value.modes, r);
          consoles := consoles[index := Console(console.handle, Some(console.device.value.(current := number)))];
        }
      }
    }

    /**
      Select a graphics mode.  Every attached device has the resolution, so each
      is set to an in-range mode of its own.
    */
    method SetMode(modeNumber: nat) returns (supported: bool)
      requires Sound()
      modifies this`consoles, this`mode, this`info
      ensures Sound() && (supported <==> modeNumber < |modeBuffer|)
      ensures !supported ==> consoles == old(consoles) && mode == old(mode) && info == old(info)
      ensures SameDevices(old(consoles), consoles)
      ensures supported ==> mode == modeNumber && info == modeBuffer[modeNumber] && AllShow(consoles, info)
    {
      if modeNumber >= |modeBuffer| {
        return false;
      }
      SoundSupports();
      assert forall r :: r in [modeBuffer[modeNumber]] ==> r in modeBuffer;
      SetDevices(modeBuffer[modeNumber]);
      SoundAfter();
      mode := modeNumber;
      info := modeBuffer[modeNumber];
      return true;
    }

    method PreferredIndex(here: Resolution) returns (index: nat)
      ensures index == Preferred(modeBuffer, here)
    {
      index := Search(modeBuffer, here);
      if index >= |modeBuffer| {
        index := Search(modeBuffer, DEFAULT_RESOLUTION);
        if index >= |modeBuffer| {
          index := 0;
        }
      }
    }

    /** The first device's modes become the list. */
    method TakeOver(g: Gop)
      requires WellFormed(g)
      modifies this`modeBuffer, this`mode, this`info, this`met
      ensures modeBuffer == g.modes && info == Here(g) && met == [g.modes] && Offered(met, modeBuffer)
    {
      modeBuffer := g.modes;
      mode := g.current;
      info := Here(g);
      met := [g.modes];
    }

    /** A further device cuts the list down to the modes it has too. */
    method CutDown(g: Gop)
      requires met != [] && Offered(met, modeBuffer)
      modifies this`modeBuffer, this`met
      ensures met == old(met) + [g.modes] && |met| >= 2 && Offered(met, modeBuffer) && Distinct(modeBuffer)
      ensures forall r :: r in modeBuffer <==> r in old(modeBuffer) && r in g.modes
      ensures modeBuffer != [] ==> old(modeBuffer) != []
    {
      var matched := Intersect(g.modes);
      OfferedNext(met, modeBuffer, g.modes, matched);
      assert matched != [] ==> matched[0] in modeBuffer;
      modeBuffer := matched;
      met := met + [g.modes];
    }

    /**
      Attach a console.  `stray` stands for what the driver finds in the mode
      buffer when the list of common modes is empty.
    */
    method AddDevice(console: GopConsole, stray: Resolution)
      requires Valid() && (console.device.Some? ==> WellFormed(console.device.value))
      modifies this
      ensures Valid() && SameDevices(old(consoles) + [console], consoles)
      ensures console.device == None ==>
        modeBuffer == old(modeBuffer) && met == old(met) && consoles == old(consoles) + [console]
      ensures console.device.Some? && Gops(old(consoles)) == [] ==>
        modeBuffer == console.device.value.modes && met == [console.device.value.modes]
      ensures console.device.Some? && Gops(old(consoles)) != [] ==>
        Distinct(modeBuffer) && met == old(met) + [console.device.value.modes]
      ensures console.device.Some? && Gops(old(consoles)) != [] ==>
        forall r :: r in modeBuffer <==> r in old(modeBuffer) && r in console.device.value.modes
      ensures console.device.Some? && modeBuffer != [] ==> mode == Preferred(modeBuffer, Here(console.device.value))
      ensures console.device.Some? && modeBuffer != [] ==> Prefers(modeBuffer, Here(console.device.value), mode)
    {
      hide Prefers, Preferred;
      WithConsole(consoles, console);
      NoGops(consoles);
      ghost var more := if console.device == None then met else
                        if Gops(consoles) == [] then [console.device.value.modes]
                        else met + [console.device.value.modes];
      MetWithConsole(consoles, met, console, more);
      consoles := consoles + [console];
      if console.device.Some? {
        AddGraphicsOutputMode(console.device.value, stray);
      }
    }

    /** Take the device of the console attached last into the mode list, and bring the devices into step. */
    method AddGraphicsOutputMode(g: Gop, stray: Resolution)
      requires consoles != [] && consoles[|consoles| - 1].device == Some(g) && AllWellFormed(consoles)
      requires numberOfGraphicsOutput + 1 == |Gops(consoles)|
      requires if numberOfGraphicsOutput == 0
               then AllMet(consoles, [g.modes]) && forall i :: 0 <= i < |consoles| - 1 ==> consoles[i].device == None
               else met != [] && Offered(met, modeBuffer) && AllMet(consoles, met + [g.modes])
      requires modeBuffer != [] ==> AllShow(consoles[..|consoles| - 1], info)
      modifies this
      ensures Valid() && SameDevices(old(consoles), consoles)
      ensures old(numberOfGraphicsOutput) == 0 ==> modeBuffer == g.modes && met == [g.modes]
      ensures old(numberOfGraphicsOutput) > 0 ==> Distinct(modeBuffer) && met == old(met) + [g.modes]
      ensures old(numberOfGraphicsOutput) > 0 ==>
        forall r :: r in modeBuffer <==> r in old(modeBuffer) && r in g.modes
      ensures modeBuffer != [] ==> mode == Preferred(modeBuffer, Here(g)) && Prefers(modeBuffer, Here(g), mode)
    {
      hide Offered, Preferred, Prefers, Distinct, SameDevices, Gops;
      assert WellFormed(consoles[|consoles| - 1].device.value);
      if numberOfGraphicsOutput == 0 {
        TakeOver(g);
      } else {
        CutDown(g);
      }
      numberOfGraphicsOutput := numberOfGraphicsOutput + 1;
      Force(g, stray);
    }

    /** The other devices show the preferred mode already: put the last one into it, if it has it. */
    method JoinLast(g: Gop)
      requires Sound() && consoles != [] && consoles[|consoles| - 1].device == Some(g)
      modifies this`consoles
      ensures Sound() && SameDevices(old(consoles), consoles)
      ensures info in g.modes && AllShow(old(consoles)[..|consoles| - 1], info) ==> AllShow(consoles, info)
    {
      var last := |consoles| - 1;
      assert WellFormed(consoles[last].device.value);
      if info != Here(g) {
        var number := Search(g.modes, info);
        if number < |g.modes| {
          consoles := consoles[last := Console(consoles[last].handle, Some(g.(current := number)))];
        }
      }
      LastKeeps(old(consoles), consoles, info);
      SoundAfter();
    }

    /** The number of the preferred mode, and the resolution found there. */
    method Prefer(g: Gop, stray: Resolution) returns (currentIndex: nat, preferred: Resolution)
      requires Sound() && consoles != [] && consoles[|consoles| - 1].device == Some(g) && WellFormed(g)
      ensures currentIndex == Preferred(modeBuffer, Here(g))
      ensures modeBuffer != [] ==>
        currentIndex < |modeBuffer| && preferred == modeBuffer[currentIndex] && preferred in g.modes
      ensures modeBuffer != [] ==> Prefers(modeBuffer, Here(g), currentIndex)
    {
      currentIndex := PreferredIndex(Here(g));
      preferred := if currentIndex < |modeBuffer| then modeBuffer[currentIndex] else stray;
      if modeBuffer != [] {
        PreferredInList(modeBuffer, Here(g));
        Supports(|consoles| - 1);
      }
    }

    /** Bring the device attached last, or all devices, into the preferred mode. */
    method Force(g: Gop, stray: Resolution)
      requires Sound() && consoles != [] && consoles[|consoles| - 1].device == Some(g) && WellFormed(g)
      requires modeBuffer != [] ==> AllShow(consoles[..|consoles| - 1], info)
      modifies this`consoles, this`mode, this`info
      ensures Valid() && SameDevices(old(consoles), consoles)
      ensures modeBuffer != [] ==> mode == Preferred(modeBuffer, Here(g)) && Prefers(modeBuffer, Here(g), mode)
    {
      hide Splitter.Sound, AllShow, SameDevices, Preferred, Prefers;
      var currentIndex, preferred := Prefer(g, stray);
      if preferred == info {
        mode := currentIndex;
        JoinLast(g);
      } else {
        mode := UNKNOWN_MODE;
        var _ := SetMode(currentIndex);
      }
    }

    /** Detach the first console with this handle; the mode list is left as it is. */
    method DeleteDevice(handle: nat) returns (found: bool)
      requires Valid()
      modifies this`consoles, this`numberOfGraphicsOutput
      ensures Valid() && consoles == Removed(old(consoles), handle)
      ensures found <==> FirstWith(Handles(old(consoles)), handle) < |old(consoles)|
    {
      hide Offered, AllMet, AllShow, AllWellFormed, Gops, Handles;
      var index := FindFirst(consoles, handle);
      if index == |consoles| {
        return false;
      }
      WithoutConsole(consoles, index, met, info);
      if consoles[index].device.Some? {
        numberOfGraphicsOutput := numberOfGraphicsOutput - 1;
      }
      consoles := consoles[..index] + consoles[index + 1..];
      return true;
    }

    /** What is reported for a mode on offer: the only device's mode of that number, or the list's. */
    ghost function Told(modeNumber: nat): Resolution
      requires Sound() && modeNumber < |modeBuffer|
      reads this
    {
      if numberOfGraphicsOutput == 1 then
        OneLeft();
        Gops(consoles)[0].modes[modeNumber]
      else modeBuffer[modeNumber]
    }

    /** The only device left was met, and has at least as many modes as are on offer. */
    lemma OneLeft()
      requires Sound() && numberOfGraphicsOutput == 1
      ensures Gops(consoles)[0].modes in met && |modeBuffer| <= |Gops(consoles)[0].modes|
    {
      var i := GopsFrom(consoles, 0);
      OfferedIsCommon(met, modeBuffer, consoles[i].device.value.modes);
    }

    /** What the splitter answers about a mode; nothing for a number it does not offer. */
    method QueryMode(modeNumber: nat) returns (r: Option<Resolution>)
      requires Sound()
      ensures r == if modeNumber < |modeBuffer| then Some(Told(modeNumber)) else None
    {
      if modeNumber >= |modeBuffer| {
        return None;
      }
      if numberOfGraphicsOutput == 1 {
        OneLeft();
        var index := 0;
        assert consoles[0..] == consoles;
        while consoles[index].device == None
          invariant index < |consoles| && Gops(consoles[index..]) == Gops(consoles)
          decreases |consoles| - index
        {
          assert consoles[index..][1..] == consoles[index + 1..];
          index := index + 1;
        }
        assert Gops(consoles[index..])[0] == consoles[index].device.value;
        r := Some(consoles[index].device.value.modes[modeNumber]);
      } else {
        r := Some(modeBuffer[modeNumber]);
      }
    }

    /**
      Whoever follows the devices can tell: no second device was there since there was none, or
      not exactly one is left; or none of its modes was dropped before one that stayed, and the
      first device had those that stayed in the same order.
    */
    ghost predicate Faithful()
      requires Sound()
      reads this
    {
      numberOfGraphicsOutput == 1 && |met| >= 2 ==>
        var own := Gops(consoles)[0].modes;
        NoneDroppedBefore(met, own) && NoneReordered(met, met[0], own)
    }

    /** Asking about every mode gives what selecting it sets exactly in these cases. */
    lemma QueriesAgreeExactly()
      requires Sound()
      ensures (forall n :: 0 <= n < |modeBuffer| ==> Told(n) == modeBuffer[n]) <==> Faithful()
    {
      if numberOfGraphicsOutput == 1 {
        OneLeft();
        var own := Gops(consoles)[0].modes;
        if |met| >= 2 {
          if Faithful() {
            OrderMakesPrefix(met, modeBuffer, own);
            assert forall n :: 0 <= n < |modeBuffer| ==> own[n] == modeBuffer[n];
          } else if forall n :: 0 <= n < |modeBuffer| ==> Told(n) == modeBuffer[n] {
            assert forall n :: 0 <= n < |modeBuffer| ==> own[n] == Told(n);
            assert modeBuffer == own[..|modeBuffer|];
            PrefixKeepsOrder(met, modeBuffer, own);
          }
        }
      }
    }

    /** Ask about a mode on offer, and then select it. */
    method AskThenSelect(modeNumber: nat) returns (told: Resolution)
      requires Valid() && modeNumber < |modeBuffer|
      modifies this`consoles, this`mode, this`info
      ensures Valid() && info == modeBuffer[modeNumber] && SameDevices(old(consoles), consoles)
      ensures AllShow(consoles, info)
      ensures told == old(Told(modeNumber)) && (old(Faithful()) ==> told == info)
    {
      QueriesAgreeExactly();
      var answer := QueryMode(modeNumber);
      told := answer.value;
      var _ := SetMode(modeNumber);
    }

    method Handle(event: Event)
      requires Valid() && (event.Attach? && event.console.device.Some? ==> WellFormed(event.console.device.value))
      modifies this
      ensures Valid() && SameDevices(Apply(old(consoles), event), consoles)
    {
      match event
      case Attach(console, stray) => AddDevice(console, stray);
      case Detach(handle) => var _ := DeleteDevice(handle);
      case Set(modeNumber) => var _ := SetMode(modeNumber);
    }

    lemma ValidSupports()
      requires Valid()
      ensures AllSupport(consoles, modeBuffer)
    {
      SoundSupports();
    }

    /**
      However devices come and go, every advertised resolution is a mode of every attached device,
      all devices show the selected one, and the consoles are those attached and not detached.
    */
    method Session(events: seq<Event>)
      requires Valid()
      requires forall e :: e in events && e.Attach? && e.console.device.Some? ==> WellFormed(e.console.device.value)
      modifies this
      ensures Valid() && AllSupport(consoles, modeBuffer)
      ensures SameDevices(Replay(old(consoles), events, |events|), consoles)
    {
      assert SameDevices(Replay(consoles, events, 0), consoles);
      hide SameDevices, Splitter.Valid, WellFormed;
      for i := 0 to |events|
        invariant Valid() && SameDevices(Replay(old(consoles), events, i), consoles)
      {
        assert events[i] in events;
        ghost var before := consoles;
        Handle(events[i]);
        ApplySame(Replay(old(consoles), events, i), before, events[i]);
        SameDevicesBoth(Replay(old(consoles), events, i + 1), Apply(before, events[i]), consoles);
      }
      ValidSupports();
    }
  }

  /** They disagree after a second device cut the list down and was detached again. */
  method DetachedDeviceLeavesItsMark() returns (s: Splitter, told: Resolution)
    ensures fresh(s) && s.Valid() && told != s.info
    ensures |s.consoles| == 1 && s.consoles[0].device.Some? && Shows(s.consoles[0], s.info)
  {
    hide Prefers, Preferred, Offered, AllMet, Distinct, NoneReordered, NoneDroppedBefore;
    s := new Splitter();
    var small, large := Resolution(640, 480), Resolution(800, 480);
    s.AddDevice(Console(0, Some(Gop([small, large], 1))), small);
    s.AddDevice(Console(1, Some(Gop([large], 0))), small);
    assert large in s.modeBuffer && small !in s.modeBuffer;
    assert Handles(s.consoles) == [0, 1] && FirstWith([0, 1], 1) == 1;
    var _ := s.DeleteDevice(1);
    assert s.consoles[0].device.Some? && Gops(s.consoles)[0].modes == [small, large];
    assert s.modeBuffer[0] in s.modeBuffer;
    told := s.AskThenSelect(0);
  }
}
