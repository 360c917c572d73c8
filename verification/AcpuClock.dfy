/**
  The CPU clock switcher (acpuclock.c).  A rate is reached by way of a standby clock, so that
  the SCPLL is never touched while the processor runs on it.
*/
module AcpuClock {

  const SRC_RAW: bv32 := 0
  const SRC_SCPLL: bv32 := 1

  const SHOT_SWITCH: bv32 := 4
  const HOP_SWITCH: bv32 := 5

  const PLLMODE_POWERDOWN: bv32 := 0
  const PLLMODE_STANDBY: bv32 := 2
  const PLLMODE_NORMAL: bv32 := 7
  const PLLMODE_MASK: bv32 := 7

  const KHZ_PER_STEP: nat := 38400

  /** A speed: its rate, the raw clock it needs, the source it runs on, and the multiplier of the SCPLL. */
  datatype Speed = Speed(khz: nat, config: bv32, source: bv32, lval: bv32)

  const SPEEDS: seq<Speed> := [
    Speed(245000, 0x40, SRC_RAW, 0x00),
    Speed(384000, 0, SRC_SCPLL, 0x0A), Speed(422400, 0, SRC_SCPLL, 0x0B), Speed(460800, 0, SRC_SCPLL, 0x0C),
    Speed(499200, 0, SRC_SCPLL, 0x0D), Speed(537600, 0, SRC_SCPLL, 0x0E), Speed(576000, 0, SRC_SCPLL, 0x0F),
    Speed(614400, 0, SRC_SCPLL, 0x10), Speed(652800, 0, SRC_SCPLL, 0x11), Speed(691200, 0, SRC_SCPLL, 0x12),
    Speed(729600, 0, SRC_SCPLL, 0x13), Speed(768000, 0, SRC_SCPLL, 0x14), Speed(806400, 0, SRC_SCPLL, 0x15),
    Speed(844800, 0, SRC_SCPLL, 0x16), Speed(883200, 0, SRC_SCPLL, 0x17), Speed(921600, 0, SRC_SCPLL, 0x18),
    Speed(960000, 0, SRC_SCPLL, 0x19), Speed(998400, 0, SRC_SCPLL, 0x1A),
    Speed(0, 0, 0, 0)]

  const END: nat := 18
  const STANDBY: Speed := Speed(245000, 0x40, SRC_RAW, 0x00)

  /** A speed of the SCPLL: its rate is the one its multiplier gives, and the multiplier is in range. */
  predicate OnScpll(s: Speed) {
    s.source == SRC_SCPLL && s.khz == s.lval as nat * KHZ_PER_STEP && 10 <= s.lval <= 33 && s.config == 0
  }

  lemma SpeedFacts(i: nat)
    requires i < |SPEEDS|
    ensures |SPEEDS| == END + 1
    ensures i == 0 ==> SPEEDS[i] == STANDBY == Speed(245000, 0x40, 0, 0)
    ensures 1 <= i < END ==> OnScpll(SPEEDS[i])
    ensures 1 <= i < END ==>
      SPEEDS[i].khz == (i + 9) * 38400 && SPEEDS[i].lval as nat == i + 9 && SPEEDS[i].source == 1
    ensures SPEEDS[i].khz == 0 <==> i == END
  {
  }

  // ----- the fields of the registers

  /** Bit 0 of SPSS_CLK_SEL: which of the two raw clocks is in use. */
  predicate IsFirst(sel: bv32) { sel & 1 == 1 }

  /** Bits 1 and 2: the source. */
  function SourceOf(sel: bv32): bv32 { (sel & 6) >> 1 }

  /** SPSS_CLK_CNTL: seven bits for each raw clock, in the lowest byte and in the one above. */
  function Half(cntl: bv32, first: bool): bv32 { if first then cntl & 0x7F else (cntl >> 8) & 0x7F }

  /** The bits of neither clock. */
  function OtherBits(cntl: bv32): bv32 { cntl & 0xFFFF_8080 }

  /** SCPLL_CTL, bits 0 to 2. */
  function ModeOf(ctl: bv32): bv32 { ctl & PLLMODE_MASK }

  /** SCPLL_FSM_CTL_EXT: the multiplier in bits 3 to 8, the kind of switch in bits 0 to 2. */
  function LvalOf(fsm: bv32): bv32 { (fsm >> 3) & 0x3F }

  function KindOf(fsm: bv32): bv32 { fsm & 7 }

  function Toggled(sel: bv32): bv32 { sel ^ 1 }

  function WithSource(sel: bv32, source: bv32): bv32 { (sel & !6) | ((source & 3) << 1) }

  function WithHalf(cntl: bv32, first: bool, config: bv32): bv32 {
    if first then (cntl & !0x7F) | config else (cntl & !(0x7F << 8)) | (config << 8)
  }

  function WithMode(ctl: bv32, mode: bv32): bv32 { (ctl & !PLLMODE_MASK) | mode }

  function TurnedOn(ctl: bv32): bv32 { ctl | PLLMODE_NORMAL }

  function WithMultiplier(fsm: bv32, lval: bv32, kind: bv32): bv32 { (fsm & !0x1FF) | (lval << 3) | kind }

  lemma EditSelect(sel: bv32, source: bv32)
    requires source & 3 == source
    ensures IsFirst(Toggled(sel)) == !IsFirst(sel) && SourceOf(Toggled(sel)) == SourceOf(sel)
    ensures IsFirst(WithSource(sel, source)) == IsFirst(sel) && SourceOf(WithSource(sel, source)) == source
  {
  }

  lemma EditLow(cntl: bv32, config: bv32)
    requires config & 0x7F == config
    ensures Half(WithHalf(cntl, true, config), true) == config
    ensures Half(WithHalf(cntl, true, config), false) == Half(cntl, false)
    ensures OtherBits(WithHalf(cntl, true, config)) == OtherBits(cntl)
  {
  }

  lemma EditHigh(cntl: bv32, config: bv32)
    requires config & 0x7F == config
    ensures Half(WithHalf(cntl, false, config), false) == config
    ensures Half(WithHalf(cntl, false, config), true) == Half(cntl, true)
    ensures OtherBits(WithHalf(cntl, false, config)) == OtherBits(cntl)
  {
  }

  /** Editing one half of SPSS_CLK_CNTL touches no bit of the other, nor of the rest of the word. */
  lemma EditHalf(cntl: bv32, first: bool, config: bv32)
    requires config & 0x7F == config
    ensures Half(WithHalf(cntl, first, config), first) == config
    ensures Half(WithHalf(cntl, first, config), !first) == Half(cntl, !first)
    ensures OtherBits(WithHalf(cntl, first, config)) == OtherBits(cntl)
  {
    hide Half, OtherBits, WithHalf;
    EditLow(cntl, config);
    EditHigh(cntl, config);
  }

  lemma EditMode(ctl: bv32, mode: bv32)
    requires mode & PLLMODE_MASK == mode
    ensures ModeOf(WithMode(ctl, mode)) == mode && ModeOf(TurnedOn(ctl)) == PLLMODE_NORMAL
  {
  }

  lemma EditMultiplier(fsm: bv32, lval: bv32, kind: bv32)
    requires lval & 0x3F == lval && kind & 7 == kind
    ensures LvalOf(WithMultiplier(fsm, lval, kind)) == lval && KindOf(WithMultiplier(fsm, lval, kind)) == kind
  {
  }

  // ----- the registers

  /** SPSS_CLK_SEL, SPSS_CLK_CNTL, SCPLL_CTL and SCPLL_FSM_CTL_EXT. */
  datatype Words = Words(sel: bv32, cntl: bv32, ctl: bv32, fsm: bv32)

  function Source(w: Words): bv32 { SourceOf(w.sel) }

  /** The raw clock in use: the one of the lowest byte when bit 0 of SPSS_CLK_SEL is set. */
  function ActiveHalf(w: Words): bv32 { Half(w.cntl, IsFirst(w.sel)) }

  function Mode(w: Words): bv32 { ModeOf(w.ctl) }

  function Lval(w: Words): bv32 { LvalOf(w.fsm) }

  datatype Register = ClkSel | ClkCntl | ScpllCtl | ScpllFsm

  /** A register write: all registers before and after it. */
  datatype Write = Write(register: Register, before: Words, after: Words)

  /** The registers, and the writes so far. */
  datatype State = State(words: Words, log: seq<Write>)

  function Stored(w: Words, register: Register, value: bv32): Words {
    match register
    case ClkSel => w.(sel := value)
    case ClkCntl => w.(cntl := value)
    case ScpllCtl => w.(ctl := value)
    case ScpllFsm => w.(fsm := value)
  }

  function Put(s: State, register: Register, value: bv32): (t: State) {
    var after := Stored(s.words, register, value);
    State(after, s.log + [Write(register, s.words, after)])
  }

  function SetMode(s: State, mode: bv32): (t: State) { Put(s, ScpllCtl, WithMode(s.words.ctl, mode)) }

  function TurnOn(s: State): (t: State) { Put(s, ScpllCtl, TurnedOn(s.words.ctl)) }

  function SetMultiplier(s: State, lval: bv32, kind: bv32): (t: State) {
    Put(s, ScpllFsm, WithMultiplier(s.words.fsm, lval, kind))
  }

  /** Give the raw clock that is not in use a new configuration. */
  function EditOther(s: State, config: bv32): (t: State) {
    Put(s, ClkCntl, WithHalf(s.words.cntl, !IsFirst(s.words.sel), config))
  }

  function Toggle(s: State): (t: State) { Put(s, ClkSel, Toggled(s.words.sel)) }

  function SetSource(s: State, source: bv32): (t: State) { Put(s, ClkSel, WithSource(s.words.sel, source)) }

  function SelectClock(s: State, source: bv32, config: bv32): (t: State) {
    SetSource(if source == SRC_RAW then Toggle(EditOther(s, config)) else s, source)
  }

  function PowerDown(s: State): (t: State) { SetMode(SetMode(s, PLLMODE_STANDBY), PLLMODE_POWERDOWN) }

  function Clamp(lval: bv32): bv32 { if lval > 33 then 33 else if lval < 10 then 10 else lval }

  function Started(s: State): (t: State) {
    if Mode(s.words) == PLLMODE_NORMAL then s
    else TurnOn(SetMultiplier(SetMode(s, PLLMODE_STANDBY), 0x0A, SHOT_SWITCH))
  }

  function SetFreq(s: State, lval: bv32): (t: State) {
    TurnOn(SetMultiplier(Started(s), Clamp(lval), HOP_SWITCH))
  }

  /** The rate that the registers give; on a raw clock the driver never returns. */
  function FindSpeed(w: Words): nat
    requires Source(w) == 1 || Source(w) == 2
  {
    if Source(w) == 1 then Lval(w) as nat * KHZ_PER_STEP else 128000
  }

  predicate IsStandby(s: Speed) { s.config == STANDBY.config && s.source == STANDBY.source }

  /** From one speed to the next. */
  function Switch(s: State, cur: Speed, next: Speed): (t: State) {
    if next.source == SRC_SCPLL
    then
      var aside := if IsStandby(cur) then s else SelectClock(s, STANDBY.source, STANDBY.config);
      SelectClock(SetFreq(aside, next.lval), SRC_SCPLL, 0)
    else if cur.source == SRC_SCPLL
    then PowerDown(SelectClock(SelectClock(s, STANDBY.source, STANDBY.config), next.source, next.config))
    else SelectClock(s, next.source, next.config)
  }

  // ----- the rule

  /**
    A write must not disturb the clock in use: the SCPLL's registers are written only while it is
    not selected, and it is selected only while it runs; the configuration of the active raw clock
    is never edited, and a raw clock is brought into use only at the standby rate.
  */
  predicate Harmless(w: Write) {
    match w.register
    case ScpllCtl => Source(w.before) != SRC_SCPLL
    case ScpllFsm => Source(w.before) != SRC_SCPLL
    case ClkCntl => Half(w.after.cntl, IsFirst(w.before.sel)) == ActiveHalf(w.before)
    case ClkSel =>
      (IsFirst(w.after.sel) != IsFirst(w.before.sel) || Source(w.after) == SRC_RAW ==>
        ActiveHalf(w.after) == STANDBY.config) &&
      (Source(w.after) == SRC_SCPLL ==> Source(w.before) == SRC_SCPLL || Mode(w.after) == PLLMODE_NORMAL)
  }

  ghost predicate Glitchless(log: seq<Write>) { forall i :: 0 <= i < |log| ==> Harmless(log[i]) }

  /** The registers are set for the speed. */
  predicate Set(w: Words, s: Speed) {
    Source(w) == s.source && s.khz != 0 && ActiveHalf(w) == STANDBY.config &&
    if s.source == SRC_SCPLL then Mode(w) == PLLMODE_NORMAL && Lval(w) == s.lval else Mode(w) == PLLMODE_POWERDOWN
  }

  /** Nothing changed in the registers of the SCPLL, nor in SPSS_CLK_CNTL but the clock that was not in use. */
  predicate OnlyIdleHalf(before: Words, after: Words) {
    before.ctl == after.ctl && before.fsm == after.fsm &&
    Half(before.cntl, IsFirst(before.sel)) == Half(after.cntl, IsFirst(before.sel)) &&
    OtherBits(before.cntl) == OtherBits(after.cntl)
  }

  // ----- the rule on the bits of the registers

  /**
    Bits 1 and 2 of SPSS_CLK_SEL are 01 for the SCPLL and 00 for a raw clock, and bit 0 says which
    one: when it is set the clock of bits 0 to 6 of SPSS_CLK_CNTL is in use, otherwise that of
    bits 8 to 14.  0x40 is the standby clock's configuration; 111 in bits 0 to 2 of SCPLL_CTL says
    that the SCPLL runs.
  */
  predicate HarmlessBits(w: Write) {
    match w.register
    case ScpllCtl => !ScpllInUse(w.before)
    case ScpllFsm => !ScpllInUse(w.before)
    case ClkCntl => UsedClockKept(w.before, w.after)
    case ClkSel =>
      (OtherClock(w.before, w.after) || RawInUse(w.after) ==> OnStandby(w.after)) &&
      (ScpllInUse(w.after) ==> ScpllInUse(w.before) || ScpllRuns(w.after))
  }

  predicate ScpllInUse(w: Words) { w.sel & 6 == 2 }

  predicate RawInUse(w: Words) { w.sel & 6 == 0 }

  predicate OtherClock(x: Words, y: Words) { x.sel & 1 != y.sel & 1 }

  predicate ScpllRuns(w: Words) { w.ctl & 7 == 7 }

  predicate UsedClockKept(x: Words, y: Words) {
    if x.sel & 1 == 1 then LowKept(x.cntl, y.cntl) else HighKept(x.cntl, y.cntl)
  }

  predicate LowKept(x: bv32, y: bv32) { x & 0x7F == y & 0x7F }

  predicate HighKept(x: bv32, y: bv32) { x & 0x7F00 == y & 0x7F00 }

  /** The raw clock that bit 0 of SPSS_CLK_SEL names is the standby clock. */
  predicate OnStandby(w: Words) { if w.sel & 1 == 1 then w.cntl & 0x7F == 0x40 else w.cntl & 0x7F00 == 0x4000 }

  /** No write disturbs the clock in use. */
  ghost predicate HarmlessLog(log: seq<Write>) { forall i :: 0 <= i < |log| ==> HarmlessBits(log[i]) }

  lemma SourceBits(sel: bv32)
    ensures SourceOf(sel) == 0 <==> sel & 6 == 0
    ensures SourceOf(sel) == 1 <==> sel & 6 == 2
  {
  }

  lemma FirstBits(x: bv32, y: bv32)
    ensures IsFirst(x) != IsFirst(y) <==> x & 1 != y & 1
  {
  }

  lemma LowBits(x: bv32, y: bv32)
    ensures Half(x, true) == 0x40 <==> x & 0x7F == 0x40
    ensures Half(x, true) == Half(y, true) <==> LowKept(x, y)
  {
  }

  lemma HighBits(x: bv32, y: bv32)
    ensures Half(x, false) == 0x40 <==> x & 0x7F00 == 0x4000
    ensures Half(x, false) == Half(y, false) <==> HighKept(x, y)
  {
  }

  lemma ActiveBits(w: Words)
    ensures ActiveHalf(w) == 0x40 <==> OnStandby(w)
  {
    hide Half;
    LowBits(w.cntl, w.cntl);
    HighBits(w.cntl, w.cntl);
  }

  lemma KeptBits(x: Words, y: Words)
    ensures Half(y.cntl, IsFirst(x.sel)) == ActiveHalf(x) <==> UsedClockKept(x, y)
  {
    hide Half, LowKept, HighKept;
    LowBits(x.cntl, y.cntl);
    HighBits(x.cntl, y.cntl);
  }

  lemma WordBits(w: Words)
    ensures Source(w) == SRC_RAW <==> RawInUse(w)
    ensures Source(w) == SRC_SCPLL <==> ScpllInUse(w)
    ensures ActiveHalf(w) == STANDBY.config <==> OnStandby(w)
    ensures Mode(w) == PLLMODE_NORMAL <==> ScpllRuns(w)
  {
    SourceBits(w.sel);
    ActiveBits(w);
    hide SourceOf, ActiveHalf, OnStandby;
  }

  lemma OtherBit(x: Words, y: Words)
    ensures IsFirst(x.sel) != IsFirst(y.sel) <==> OtherClock(x, y)
  {
    FirstBits(x.sel, y.sel);
    hide IsFirst;
  }

  lemma HarmlessMeans(w: Write)
    ensures Harmless(w) <==> HarmlessBits(w)
  {
    hide IsFirst, Half, Source, ActiveHalf, Mode, ScpllInUse, RawInUse, OtherClock, ScpllRuns, UsedClockKept, OnStandby;
    WordBits(w.before);
    WordBits(w.after);
    OtherBit(w.before, w.after);
    KeptBits(w.before, w.after);
  }

  lemma OnTheBits(log: seq<Write>)
    ensures Glitchless(log) <==> HarmlessLog(log)
  {
    hide Harmless, HarmlessBits;
    forall i | 0 <= i < |log|
      ensures Harmless(log[i]) <==> HarmlessBits(log[i])
    {
      HarmlessMeans(log[i]);
    }
  }

  /**
    Selecting the standby clock edits no bit of SPSS_CLK_CNTL but those of the raw clock that is
    not in use, and ends on that one.
  */
  lemma SelectRaw(s: State)
    requires Glitchless(s.log)
    ensures var t := SelectClock(s, SRC_RAW, STANDBY.config);
      && Glitchless(t.log) && Source(t.words) == SRC_RAW && ActiveHalf(t.words) == STANDBY.config
      && OnlyIdleHalf(s.words, t.words) && StandbySelected(s.words, t.words)
  {
    SelectBits(s);
    hide IsFirst, SourceOf, Half, OtherBits, Toggled, WithSource, WithHalf;
    var sel, cntl := s.words.sel, s.words.cntl;
    EditHalf(cntl, !IsFirst(sel), STANDBY.config);
    EditSelect(sel, SRC_RAW);
    EditSelect(Toggled(sel), SRC_RAW);
  }

  /**
    What selecting the standby clock leaves in the registers: bit 0 of SPSS_CLK_SEL flipped and
    bits 1 and 2 clear, 0x40 in the half of SPSS_CLK_CNTL that bit 0 then names, and no other bit
    changed anywhere.
  */
  predicate StandbySelected(x: Words, y: Words) {
    && y.sel == RawSelected(x.sel) && y.ctl == x.ctl && y.fsm == x.fsm
    && if x.sel & 1 == 1 then HighIsStandby(x.cntl, y.cntl) else LowIsStandby(x.cntl, y.cntl)
  }

  function RawSelected(sel: bv32): bv32 { (sel ^ 1) & 0xFFFF_FFF9 }

  function ScpllSelected(sel: bv32): bv32 { (sel & 0xFFFF_FFF9) | 2 }

  predicate LowIsStandby(x: bv32, y: bv32) { y & 0x7F == 0x40 && y & 0xFFFF_FF80 == x & 0xFFFF_FF80 }

  predicate HighIsStandby(x: bv32, y: bv32) { y & 0x7F00 == 0x4000 && y & 0xFFFF_80FF == x & 0xFFFF_80FF }

  lemma SelBits(sel: bv32)
    ensures WithSource(Toggled(sel), 0) == RawSelected(sel) && WithSource(sel, 1) == ScpllSelected(sel)
  {
  }

  lemma LowEdited(x: bv32)
    ensures LowIsStandby(x, WithHalf(x, true, 0x40))
  {
  }

  lemma HighEdited(x: bv32)
    ensures HighIsStandby(x, WithHalf(x, false, 0x40))
  {
  }

  lemma SelectedWords(s: State)
    ensures SelectClock(s, SRC_RAW, 0x40).words == s.words.(
      sel := WithSource(Toggled(s.words.sel), 0), cntl := WithHalf(s.words.cntl, !IsFirst(s.words.sel), 0x40))
    ensures SelectClock(s, SRC_SCPLL, 0).words == s.words.(sel := WithSource(s.words.sel, 1))
  {
    hide Toggled, WithSource, WithHalf, IsFirst;
  }

  lemma SelectBits(s: State)
    ensures StandbySelected(s.words, SelectClock(s, SRC_RAW, 0x40).words)
    ensures SelectClock(s, SRC_SCPLL, 0).words == s.words.(sel := ScpllSelected(s.words.sel))
  {
    hide SelectClock, Toggled, WithSource, WithHalf, RawSelected, ScpllSelected, LowIsStandby, HighIsStandby;
    SelectedWords(s);
    SelBits(s.words.sel);
    LowEdited(s.words.cntl);
    HighEdited(s.words.cntl);
  }

  /** Once the SCPLL runs, selecting it is harmless. */
  lemma SelectScpll(s: State)
    requires Glitchless(s.log) && Mode(s.words) == PLLMODE_NORMAL && ActiveHalf(s.words) == STANDBY.config
    ensures var t := SelectClock(s, SRC_SCPLL, 0);
      && Glitchless(t.log) && Source(t.words) == SRC_SCPLL && ActiveHalf(t.words) == ActiveHalf(s.words)
      && t.words.(sel := s.words.sel) == s.words
  {
    hide IsFirst, SourceOf, Half, Toggled, WithSource, WithHalf;
    EditSelect(s.words.sel, SRC_SCPLL);
  }

  lemma PowerDownSafe(s: State)
    requires Glitchless(s.log) && Source(s.words) != SRC_SCPLL
    ensures var t := PowerDown(s);
      && Glitchless(t.log) && Mode(t.words) == PLLMODE_POWERDOWN && t.words.(ctl := s.words.ctl) == s.words
  {
    hide SourceOf, ModeOf, WithMode;
    EditMode(SetMode(s, PLLMODE_STANDBY).words.ctl, PLLMODE_POWERDOWN);
  }

  lemma StartedSafe(s: State)
    requires Glitchless(s.log) && Source(s.words) != SRC_SCPLL
    ensures var t := Started(s);
      Glitchless(t.log) && t.words.sel == s.words.sel && t.words.cntl == s.words.cntl
  {
    hide SourceOf, ModeOf, WithMode, TurnedOn, WithMultiplier;
  }

  /** Tuning is harmless while the SCPLL is not selected, and leaves it running at the multiplier. */
  lemma SetFreqSafe(s: State, lval: bv32)
    requires Glitchless(s.log) && Source(s.words) != SRC_SCPLL
    ensures var t := SetFreq(s, lval);
      && Glitchless(t.log) && t.words.sel == s.words.sel && t.words.cntl == s.words.cntl
      && Mode(t.words) == PLLMODE_NORMAL && Lval(t.words) == Clamp(lval) && KindOf(t.words.fsm) == HOP_SWITCH
  {
    StartedSafe(s);
    EditMultiplier(Started(s).words.fsm, Clamp(lval), HOP_SWITCH);
    EditMode(Started(s).words.ctl, PLLMODE_NORMAL);
    hide SourceOf, ModeOf, WithMode, TurnedOn, WithMultiplier, LvalOf, KindOf;
  }

  /** From the standby clock, going to the SCPLL is harmless. */
  lemma ToScpll(s: State, lval: bv32)
    requires Glitchless(s.log) && Source(s.words) == SRC_RAW && ActiveHalf(s.words) == STANDBY.config
    ensures var t := SelectClock(SetFreq(s, lval), SRC_SCPLL, 0);
      && Glitchless(t.log) && Source(t.words) == SRC_SCPLL && ActiveHalf(t.words) == STANDBY.config
      && Mode(t.words) == PLLMODE_NORMAL && Lval(t.words) == Clamp(lval)
  {
    SetFreqSafe(s, lval);
    SelectScpll(SetFreq(s, lval));
  }

  /** No write was harmful; and when the recorded speed is the standby one, that clock is in use. */
  ghost predicate Quiet(s: State, current: nat) {
    Glitchless(s.log) && (current == 0 ==> Source(s.words) == SRC_RAW && ActiveHalf(s.words) == STANDBY.config)
  }

  /**
    Every change of speed is harmless, and ends with the registers set for the new speed; only
    the way to the standby speed from the end of the table leaves the SCPLL on.
  */
  lemma SwitchSafe(s: State, i: nat, j: nat)
    requires i <= END && j < END && Quiet(s, i)
    ensures Quiet(Switch(s, SPEEDS[i], SPEEDS[j]), j)
    ensures j != 0 || 1 <= i < END ==> Set(Switch(s, SPEEDS[i], SPEEDS[j]).words, SPEEDS[j])
  {
    SpeedFacts(i);
    SpeedFacts(j);
    SelectRaw(s);
    var aside := SelectClock(s, SRC_RAW, STANDBY.config);
    if j != 0 {
      ToScpll(if i == 0 then s else aside, SPEEDS[j].lval);
    } else if 1 <= i < END {
      SelectRaw(aside);
      PowerDownSafe(SelectClock(aside, SRC_RAW, STANDBY.config));
    }
  }

  // ----- what is written to the registers of the SCPLL, in order

  /** SCPLL_CTL was given this mode in bits 0 to 2, and no other bit of it was changed. */
  predicate ModeWritten(w: Write, mode: bv32) {
    w.register == ScpllCtl && w.after.ctl & 7 == mode && w.after.ctl & 0xFFFF_FFF8 == w.before.ctl & 0xFFFF_FFF8
  }

  /** SCPLL_FSM_CTL_EXT was given this multiplier and kind of switch in bits 0 to 8, and no other bit was changed. */
  predicate MultiplierWritten(w: Write, lval: bv32, kind: bv32) {
    w.register == ScpllFsm && MultiplierIn(w.before.fsm, w.after.fsm, lval, kind)
  }

  predicate MultiplierIn(x: bv32, y: bv32, lval: bv32, kind: bv32) {
    y & 0x1FF == lval * 8 + kind && y & 0xFFFF_FE00 == x & 0xFFFF_FE00
  }

  lemma ModeIsWritten(s: State, mode: bv32)
    requires mode & 7 == mode
    ensures var t := SetMode(s, mode); t.log == s.log + [t.log[|s.log|]] && ModeWritten(t.log[|s.log|], mode)
  {
  }

  lemma OnIsWritten(s: State)
    ensures var t := TurnOn(s); t.log == s.log + [t.log[|s.log|]] && ModeWritten(t.log[|s.log|], 7)
  {
  }

  lemma MultiplierBits(fsm: bv32, lval: bv32, kind: bv32)
    requires lval <= 33 && (kind == 4 || kind == 5)
    ensures MultiplierIn(fsm, WithMultiplier(fsm, lval, kind), lval, kind)
  {
  }

  lemma MultiplierIsWritten(s: State, lval: bv32, kind: bv32)
    requires lval <= 33 && (kind == 4 || kind == 5)
    ensures var t := SetMultiplier(s, lval, kind);
      t.log == s.log + [t.log[|s.log|]] && MultiplierWritten(t.log[|s.log|], lval, kind)
  {
    hide WithMultiplier, MultiplierIn;
    MultiplierBits(s.words.fsm, lval, kind);
  }

  /** Powering down goes by way of standby. */
  lemma PowerDownWrites(s: State)
    ensures var t, n := PowerDown(s), |s.log|;
      |t.log| == n + 2 && t.log[..n] == s.log && ModeWritten(t.log[n], 2) && ModeWritten(t.log[n + 1], 0)
  {
    ModeIsWritten(s, PLLMODE_STANDBY);
    ModeIsWritten(SetMode(s, PLLMODE_STANDBY), PLLMODE_POWERDOWN);
    hide SetMode, ModeWritten;
  }

  /**
    Tuning: an SCPLL that does not run is put in standby, switched to multiplier 10 and turned on;
    then comes the multiplier wanted, held between 10 and 33, and the SCPLL is turned on again.
  */
  lemma TuningWrites(s: State, lval: bv32)
    ensures var t, n := SetFreq(s, lval), |s.log|;
      var m := if s.words.ctl & 7 == 7 then n else n + 3;
      && |t.log| == m + 2 && t.log[..n] == s.log
      && (m == n + 3 ==> ModeWritten(t.log[n], 2) && MultiplierWritten(t.log[n + 1], 10, 4))
      && (m == n + 3 ==> ModeWritten(t.log[n + 2], 7))
      && MultiplierWritten(t.log[m], if lval > 33 then 33 else if lval < 10 then 10 else lval, 5)
      && ModeWritten(t.log[m + 1], 7)
  {
    var standby := SetMode(s, PLLMODE_STANDBY);
    var shot := SetMultiplier(standby, 0x0A, SHOT_SWITCH);
    var started := Started(s);
    var hop := SetMultiplier(started, Clamp(lval), HOP_SWITCH);
    ModeIsWritten(s, PLLMODE_STANDBY);
    MultiplierIsWritten(standby, 0x0A, SHOT_SWITCH);
    OnIsWritten(shot);
    MultiplierIsWritten(started, Clamp(lval), HOP_SWITCH);
    OnIsWritten(hop);
    hide SetMode, SetMultiplier, TurnOn, ModeWritten, MultiplierWritten;
  }

  // ----- in which order the registers are written

  function Registers(log: seq<Write>): (r: seq<Register>)
    ensures |r| == |log|
  {
    seq(|log|, i requires 0 <= i < |log| => log[i].register)
  }

  /** The writes of t are those of s and then one to each of these registers. */
  predicate WritesOn(s: State, registers: seq<Register>, t: State) {
    |t.log| >= |s.log| && t.log[..|s.log|] == s.log && Registers(t.log[|s.log|..]) == registers
  }

  lemma WritesBoth(s: State, a: seq<Register>, t: State, b: seq<Register>, u: State)
    requires WritesOn(s, a, t) && WritesOn(t, b, u)
    ensures WritesOn(s, a + b, u)
  {
    assert u.log[|s.log|..] == t.log[|s.log|..] + u.log[|t.log|..];
    assert u.log[..|t.log|][..|s.log|] == u.log[..|s.log|];
  }

  const TO_STANDBY: seq<Register> := [ClkCntl, ClkSel, ClkSel]
  const TURN_OFF: seq<Register> := [ScpllCtl, ScpllCtl]

  /** Tuning an SCPLL that runs, or one that does not. */
  function TuningOrder(running: bool): seq<Register> {
    if running then [ScpllFsm, ScpllCtl] else [ScpllCtl, ScpllFsm, ScpllCtl, ScpllFsm, ScpllCtl]
  }

  lemma PutWritesOn(s: State, register: Register, value: bv32)
    ensures WritesOn(s, [register], Put(s, register, value))
  {
  }

  lemma SelectWritesOn(s: State)
    ensures WritesOn(s, TO_STANDBY, SelectClock(s, SRC_RAW, 0x40))
    ensures WritesOn(s, [ClkSel], SelectClock(s, SRC_SCPLL, 0))
  {
    hide IsFirst, Toggled, WithSource, WithHalf, Put, WritesOn;
    var edited := EditOther(s, 0x40);
    PutWritesOn(s, ClkCntl, WithHalf(s.words.cntl, !IsFirst(s.words.sel), 0x40));
    PutWritesOn(edited, ClkSel, Toggled(edited.words.sel));
    PutWritesOn(Toggle(edited), ClkSel, WithSource(Toggle(edited).words.sel, SRC_RAW));
    WritesBoth(s, [ClkCntl], edited, [ClkSel], Toggle(edited));
    WritesBoth(s, [ClkCntl] + [ClkSel], Toggle(edited), [ClkSel], SelectClock(s, SRC_RAW, 0x40));
    assert [ClkCntl] + [ClkSel] + [ClkSel] == TO_STANDBY;
    PutWritesOn(s, ClkSel, WithSource(s.words.sel, SRC_SCPLL));
  }

  lemma PowerDownWritesOn(s: State)
    ensures WritesOn(s, TURN_OFF, PowerDown(s))
  {
    hide WithMode, Put, WritesOn;
    var standby := SetMode(s, PLLMODE_STANDBY);
    PutWritesOn(s, ScpllCtl, WithMode(s.words.ctl, PLLMODE_STANDBY));
    PutWritesOn(standby, ScpllCtl, WithMode(standby.words.ctl, PLLMODE_POWERDOWN));
    WritesBoth(s, [ScpllCtl], standby, [ScpllCtl], PowerDown(s));
    assert [ScpllCtl] + [ScpllCtl] == TURN_OFF;
  }

  lemma TunedWritesOn(s: State, lval: bv32, kind: bv32)
    ensures WritesOn(s, [ScpllFsm, ScpllCtl], TurnOn(SetMultiplier(s, lval, kind)))
  {
    hide WithMultiplier, TurnedOn, Put, WritesOn;
    var hop := SetMultiplier(s, lval, kind);
    PutWritesOn(s, ScpllFsm, WithMultiplier(s.words.fsm, lval, kind));
    PutWritesOn(hop, ScpllCtl, TurnedOn(hop.words.ctl));
    WritesBoth(s, [ScpllFsm], hop, [ScpllCtl], TurnOn(hop));
    assert [ScpllFsm] + [ScpllCtl] == [ScpllFsm, ScpllCtl];
  }

  lemma TuningWritesOn(s: State, lval: bv32)
    ensures WritesOn(s, TuningOrder(s.words.ctl & 7 == 7), SetFreq(s, lval))
  {
    hide WithMode, SetMultiplier, TurnOn, Put, WritesOn;
    var standby := SetMode(s, PLLMODE_STANDBY);
    TunedWritesOn(Started(s), Clamp(lval), HOP_SWITCH);
    if s.words.ctl & 7 != 7 {
      PutWritesOn(s, ScpllCtl, WithMode(s.words.ctl, PLLMODE_STANDBY));
      TunedWritesOn(standby, 0x0A, SHOT_SWITCH);
      WritesBoth(s, [ScpllCtl], standby, [ScpllFsm, ScpllCtl], Started(s));
      WritesBoth(s, [ScpllCtl] + [ScpllFsm, ScpllCtl], Started(s), [ScpllFsm, ScpllCtl], SetFreq(s, lval));
      assert [ScpllCtl] + [ScpllFsm, ScpllCtl] + [ScpllFsm, ScpllCtl] == TuningOrder(false);
    }
  }

  /**
    A change of speed, in order: to the SCPLL by way of the standby clock, unless that is the
    recorded speed already; from the SCPLL to the standby speed by two switches to the standby
    clock, after which the SCPLL is turned off.
  */
  lemma SwitchOrder(s: State, i: nat, j: nat)
    requires i < END && j < END && i != j
    ensures WritesOn(s,
      if j == 0 then TO_STANDBY + TO_STANDBY + TURN_OFF
      else (if i == 0 then [] else TO_STANDBY) + TuningOrder(s.words.ctl & 7 == 7) + [ClkSel],
      Switch(s, SPEEDS[i], SPEEDS[j]))
  {
    hide SelectClock, SetFreq, PowerDown, WritesOn, TuningOrder;
    SpeedFacts(i);
    SpeedFacts(j);
    var aside := SelectClock(s, SRC_RAW, 0x40);
    SelectWritesOn(s);
    SelectWritesOn(aside);
    if j == 0 {
      var again := SelectClock(aside, SRC_RAW, 0x40);
      PowerDownWritesOn(again);
      WritesBoth(s, TO_STANDBY, aside, TO_STANDBY, again);
      WritesBoth(s, TO_STANDBY + TO_STANDBY, again, TURN_OFF, PowerDown(again));
    } else if i == 0 {
      ToScpllOrder(s, SPEEDS[j].lval);
      assert [] + TuningOrder(s.words.ctl & 7 == 7) == TuningOrder(s.words.ctl & 7 == 7);
    } else {
      SelectedWords(s);
      ToScpllOrder(aside, SPEEDS[j].lval);
      var tuning, last := TuningOrder(s.words.ctl & 7 == 7), SelectClock(SetFreq(aside, SPEEDS[j].lval), SRC_SCPLL, 0);
      WritesBoth(s, TO_STANDBY, aside, tuning + [ClkSel], last);
      assert TO_STANDBY + (tuning + [ClkSel]) == TO_STANDBY + tuning + [ClkSel];
    }
  }

  lemma ToScpllOrder(s: State, lval: bv32)
    ensures WritesOn(s, TuningOrder(s.words.ctl & 7 == 7) + [ClkSel], SelectClock(SetFreq(s, lval), SRC_SCPLL, 0))
  {
    hide SelectClock, SetFreq, WritesOn, TuningOrder;
    TuningWritesOn(s, lval);
    SelectWritesOn(SetFreq(s, lval));
    var tuned, tuning := SetFreq(s, lval), TuningOrder(s.words.ctl & 7 == 7);
    WritesBoth(s, tuning, tuned, [ClkSel], SelectClock(tuned, SRC_SCPLL, 0));
  }

  /**
    The registers are those of entry i of the table: a raw clock and no SCPLL for the first, else
    the SCPLL, running, at multiplier i + 9 in bits 3 to 8 of SCPLL_FSM_CTL_EXT.
  */
  predicate SetBits(w: Words, i: nat) {
    OnStandby(w) &&
    if i == 0 then RawInUse(w) && w.ctl & 7 == 0
    else ScpllInUse(w) && ScpllRuns(w) && ((w.fsm >> 3) & 0x3F) as nat == i + 9
  }

  lemma SetMeans(w: Words, i: nat)
    requires i < END
    ensures Set(w, SPEEDS[i]) <==> SetBits(w, i)
  {
    SpeedFacts(i);
    WordBits(w);
    hide Source, ActiveHalf, OnStandby, RawInUse, ScpllInUse, ScpllRuns;
  }

  // ----- whole runs

  datatype Clock = Clock(state: State, current: nat)

  function Init(s: State, freqNum: nat): (c: Clock)
    requires freqNum <= END
  {
    var off := PowerDown(SelectClock(s, STANDBY.source, STANDBY.config));
    Clock(SelectClock(SetFreq(off, SPEEDS[freqNum].lval), SRC_SCPLL, 0), freqNum)
  }

  /** The place of a rate in the table, or its end. */
  function Find(khz: nat, i: nat): (j: nat)
    requires i <= END
    ensures i <= j <= END && (j < END ==> SPEEDS[j].khz == khz)
    ensures forall k :: i <= k < j ==> SPEEDS[k].khz != khz
    decreases END - i
  {
    if i == END || SPEEDS[i].khz == khz then i else Find(khz, i + 1)
  }

  /** A request, in Hz; -1 when the table does not have the rate. */
  function SetRate(c: Clock, rate: nat): (r: (Clock, int))
    requires c.current <= END
    ensures r.0.current <= END
  {
    var khz := rate / 1000;
    if khz == SPEEDS[c.current].khz || khz == 0 then (c, 0)
    else
      var j := Find(khz, 0);
      if j == END then (c, -1)
      else (Clock(Switch(c.state, SPEEDS[c.current], SPEEDS[j]), j), 0)
  }

  function Run(c: Clock, rates: seq<nat>, n: nat): (d: Clock)
    requires c.current <= END && n <= |rates|
    ensures d.current <= END
  {
    if n == 0 then c else SetRate(Run(c, rates, n - 1), rates[n - 1]).0
  }

  /** The registers are set for the recorded speed, and no write was harmful. */
  ghost predicate Sane(c: Clock) {
    c.current < END && Glitchless(c.state.log) && Set(c.state.words, SPEEDS[c.current])
  }

  /** The same on the bits of the registers. */
  ghost predicate SaneBits(c: Clock) {
    c.current < END && HarmlessLog(c.state.log) && SetBits(c.state.words, c.current)
  }

  lemma SaneMeans(c: Clock)
    ensures Sane(c) <==> SaneBits(c)
  {
    hide Set, SetBits;
    OnTheBits(c.state.log);
    if c.current < END {
      SetMeans(c.state.words, c.current);
    }
  }

  /** After init the registers are set for the chosen speed exactly when it is one of the SCPLL's. */
  lemma InitSane(s: State, freqNum: nat)
    requires freqNum <= END && Glitchless(s.log)
    ensures var c := Init(s, freqNum);
      && Glitchless(c.state.log) && Source(c.state.words) == SRC_SCPLL && Mode(c.state.words) == PLLMODE_NORMAL
      && (Sane(c) <==> 1 <= freqNum < END)
      && (FindSpeed(c.state.words) == SPEEDS[freqNum].khz <==> 1 <= freqNum < END)
  {
    SpeedFacts(freqNum);
    SelectRaw(s);
    PowerDownSafe(SelectClock(s, SRC_RAW, STANDBY.config));
    ToScpll(PowerDown(SelectClock(s, SRC_RAW, STANDBY.config)), SPEEDS[freqNum].lval);
  }

  lemma SetRateQuiet(c: Clock, rate: nat)
    requires c.current <= END && Quiet(c.state, c.current)
    ensures Quiet(SetRate(c, rate).0.state, SetRate(c, rate).0.current)
    ensures Sane(c) ==> Sane(SetRate(c, rate).0)
  {
    var khz := rate / 1000;
    if khz != SPEEDS[c.current].khz && khz != 0 && Find(khz, 0) < END {
      SwitchSafe(c.state, c.current, Find(khz, 0));
    }
  }

  /** A rate of the table is reached and reported; any other request changes nothing. */
  lemma SetRateReaches(c: Clock, rate: nat)
    requires c.current < END && rate >= 1000
    ensures (exists i :: 0 <= i < END && SPEEDS[i].khz == rate / 1000) <==> SetRate(c, rate).1 == 0
    ensures SetRate(c, rate).1 == 0 ==> SPEEDS[SetRate(c, rate).0.current].khz == rate / 1000
    ensures SetRate(c, rate).1 != 0 ==> SetRate(c, rate) == (c, -1)
  {
  }

  lemma {:induction false} RunQuiet(c: Clock, rates: seq<nat>, n: nat)
    requires c.current <= END && Quiet(c.state, c.current) && n <= |rates|
    ensures Quiet(Run(c, rates, n).state, Run(c, rates, n).current)
    ensures Sane(c) ==> Sane(Run(c, rates, n))
  {
    hide Quiet, Sane, SetRate;
    if n > 0 {
      RunQuiet(c, rates, n - 1);
      SetRateQuiet(Run(c, rates, n - 1), rates[n - 1]);
    }
  }

  lemma TuningInUse(s: State, lval: bv32)
    requires Source(s.words) == SRC_SCPLL && Mode(s.words) == PLLMODE_NORMAL
    ensures !Glitchless(SelectClock(SetFreq(s, lval), SRC_SCPLL, 0).log)
  {
    hide IsFirst, SourceOf, Half, WithSource, ModeOf, TurnedOn, WithMultiplier;
    var log := SelectClock(SetFreq(s, lval), SRC_SCPLL, 0).log;
    assert log[|s.log|].register == ScpllFsm && log[|s.log|].before == s.words;
  }

  /** After init with entry 0, the first request for another rate tunes the SCPLL while it is in use. */
  lemma TunedInUse(s: State)
    requires Glitchless(s.log)
    ensures !Glitchless(SetRate(Init(s, 0), 422400000).0.state.log)
  {
    hide Init, SelectClock, SetFreq, Glitchless, Source, Mode;
    InitSane(s, 0);
    SpeedAt2();
    TuningInUse(Init(s, 0).state, SPEEDS[2].lval);
    assert Init(s, 0).current == 0 by {
      InitCurrent(s, 0);
    }
  }

  lemma SpeedAt2()
    ensures Find(422400, 0) == 2 && SPEEDS[2].source == SRC_SCPLL && SPEEDS[0] == STANDBY
  {
    assert Find(422400, 1) == 2;
  }

  lemma InitCurrent(s: State, freqNum: nat)
    requires freqNum <= END
    ensures Init(s, freqNum).current == freqNum
  {
  }

  /**
    Over every run of requests after init no write disturbs the clock in use, if and only if init
    was not asked for entry 0 of the table.
  */
  lemma RunsHarmlessExactly(s: State, freqNum: nat)
    requires freqNum <= END && Glitchless(s.log)
    ensures (forall rates: seq<nat> :: HarmlessLog(Run(Init(s, freqNum), rates, |rates|).state.log)) <==> freqNum != 0
  {
    InitSane(s, freqNum);
    hide Init, HarmlessLog, Glitchless;
    if freqNum == 0 {
      TunedInUse(s);
      var once := [422400000];
      assert Run(Init(s, 0), once, 0) == Init(s, 0);
      assert !Glitchless(Run(Init(s, 0), once, |once|).state.log);
      OnTheBits(Run(Init(s, 0), once, |once|).state.log);
    } else {
      forall rates: seq<nat>
        ensures HarmlessLog(Run(Init(s, freqNum), rates, |rates|).state.log)
      {
        RunQuiet(Init(s, freqNum), rates, |rates|);
        OnTheBits(Run(Init(s, freqNum), rates, |rates|).state.log);
      }
    }
  }

  /**
    Over every run of requests the selected source is the recorded speed's and, on the SCPLL, the
    rate read back is the recorded one, if and only if init was asked for a speed of the SCPLL.
  */
  lemma RunsSaneExactly(s: State, freqNum: nat)
    requires freqNum <= END && Glitchless(s.log)
    ensures (forall rates: seq<nat> :: SaneBits(Run(Init(s, freqNum), rates, |rates|))) <==> 1 <= freqNum < END
  {
    InitSane(s, freqNum);
    hide Init, Sane, SaneBits;
    if 1 <= freqNum < END {
      forall rates: seq<nat>
        ensures SaneBits(Run(Init(s, freqNum), rates, |rates|))
      {
        RunQuiet(Init(s, freqNum), rates, |rates|);
        SaneMeans(Run(Init(s, freqNum), rates, |rates|));
      }
    } else {
      var none: seq<nat> := [];
      assert !Sane(Run(Init(s, freqNum), none, |none|));
      SaneMeans(Run(Init(s, freqNum), none, |none|));
    }
  }

  /** What being set for the recorded speed means for a reader of the registers. */
  lemma SaneReadsBack(c: Clock)
    requires Sane(c)
    ensures Source(c.state.words) == SPEEDS[c.current].source
    ensures Source(c.state.words) == SRC_SCPLL ==> FindSpeed(c.state.words) == SPEEDS[c.current].khz
  {
    SpeedFacts(c.current);
  }

  // ----- the driver

  class Driver {
    var sel: bv32
    var cntl: bv32
    var ctl: bv32
    var fsm: bv32
    ghost var log: seq<Write>
    var current: nat
    var initDone: bool

    /** The registers as the boot loader before left them. */
    constructor (w: Words)
      ensures Now() == State(w, []) && !initDone
    {
      sel, cntl, ctl, fsm := w.sel, w.cntl, w.ctl, w.fsm;
      log := [];
      current, initDone := 0, false;
    }

    ghost function Now(): State
      reads this
    {
      State(Words(sel, cntl, ctl, fsm), log)
    }

    method WriteRegister(register: Register, value: bv32)
      modifies this`sel, this`cntl, this`ctl, this`fsm, this`log
      ensures Now() == Put(old(Now()), register, value)
    {
      log := Put(Now(), register, value).log;
      match register
      case ClkSel => sel := value;
      case ClkCntl => cntl := value;
      case ScpllCtl => ctl := value;
      case ScpllFsm => fsm := value;
    }

    method ScpllPowerDown()
      modifies this`sel, this`cntl, this`ctl, this`fsm, this`log
      ensures Now() == PowerDown(old(Now()))
    {
      hide WithMode;
      var val := WithMode(ctl, PLLMODE_STANDBY);
      WriteRegister(ScpllCtl, val);
      val := WithMode(val, PLLMODE_POWERDOWN);
      WriteRegister(ScpllCtl, val);
    }

    method ScpllSetFreq(wanted: bv32)
      modifies this`sel, this`cntl, this`ctl, this`fsm, this`log
      ensures Now() == SetFreq(old(Now()), wanted)
    {
      hide ModeOf, WithMode, TurnedOn, WithMultiplier;
      var lval := wanted;
      if lval > 33 {
        lval := 33;
      }
      if lval < 10 {
        lval := 10;
      }
      if ModeOf(ctl) != PLLMODE_NORMAL {
        WriteRegister(ScpllCtl, WithMode(ctl, PLLMODE_STANDBY));
        WriteRegister(ScpllFsm, WithMultiplier(fsm, 0x0A, SHOT_SWITCH));
        WriteRegister(ScpllCtl, TurnedOn(ctl));
      }
      WriteRegister(ScpllFsm, WithMultiplier(fsm, lval, HOP_SWITCH));
      WriteRegister(ScpllCtl, TurnedOn(ctl));
    }

    method Select(src: bv32, config: bv32)
      modifies this`sel, this`cntl, this`ctl, this`fsm, this`log
      ensures Now() == SelectClock(old(Now()), src, config)
      ensures src == 0 && config == 0x40 ==> StandbySelected(old(Now().words), Now().words)
      ensures src == 1 && config == 0 ==> Now().words == old(Now().words).(sel := ScpllSelected(old(sel)))
    {
      SelectBits(Now());
      hide IsFirst, Toggled, WithSource, WithHalf;
      if src == SRC_RAW {
        var before := sel;
        WriteRegister(ClkCntl, WithHalf(cntl, !IsFirst(before), config));
        WriteRegister(ClkSel, Toggled(before));
      }
      WriteRegister(ClkSel, WithSource(sel, src));
    }

    /** Returns only when the SCPLL, or the 128 MHz source, is selected. */
    method ReadSpeed() returns (khz: nat)
      requires Source(Now().words) == 1 || Source(Now().words) == 2
      ensures khz == FindSpeed(Now().words)
    {
      if SourceOf(sel) == 1 {
        khz := LvalOf(fsm) as nat * KHZ_PER_STEP;
      } else {
        khz := 128000;
      }
    }

    method AcpuclkInit(freqNum: nat)
      requires freqNum <= END && (Source(Now().words) == 1 || Source(Now().words) == 2)
      modifies this
      ensures initDone
      ensures old(initDone) ==> Now() == old(Now()) && current == old(current)
      ensures !old(initDone) ==> Clock(Now(), current) == Init(old(Now()), freqNum)
    {
      if initDone {
        return;
      }
      var _ := ReadSpeed();
      current := freqNum;
      Select(STANDBY.source, STANDBY.config);
      ScpllPowerDown();
      ScpllSetFreq(SPEEDS[current].lval);
      Select(SRC_SCPLL, 0);
      initDone := true;
    }

    method AcpuclkSetRate(rate: nat) returns (code: int)
      requires current <= END
      modifies this`sel, this`cntl, this`ctl, this`fsm, this`log, this`current
      ensures Clock(Now(), current) == SetRate(old(Clock(Now(), current)), rate).0
      ensures code == SetRate(old(Clock(Now(), current)), rate).1
    {
      var khz := rate / 1000;
      if khz == SPEEDS[current].khz || khz == 0 {
        return 0;
      }
      var next := Search(khz);
      if next == END {
        return -1;
      }
      SwitchTo(next);
      current := next;
      return 0;
    }

    /** The place of a rate in the table, or its end. */
    method Search(khz: nat) returns (next: nat)
      requires khz != 0
      ensures next == Find(khz, 0)
    {
      next := 0;
      while SPEEDS[next].khz != khz
        invariant next <= END && Find(khz, 0) == Find(khz, next)
        decreases END - next
      {
        SpeedFacts(next);
        if SPEEDS[next].khz == 0 {
          return;
        }
        next := next + 1;
      }
      SpeedFacts(next);
    }

    method SwitchTo(next: nat)
      requires current <= END && next < END
      modifies this`sel, this`cntl, this`ctl, this`fsm, this`log
      ensures Now() == Switch(old(Now()), SPEEDS[current], SPEEDS[next])
    {
      if SPEEDS[next].source == SRC_SCPLL {
        if !IsStandby(SPEEDS[current]) {
          Select(STANDBY.source, STANDBY.config);
        }
        ScpllSetFreq(SPEEDS[next].lval);
        Select(SRC_SCPLL, 0);
      } else {
        if SPEEDS[current].source == SRC_SCPLL {
          Select(STANDBY.source, STANDBY.config);
          Select(SPEEDS[next].source, SPEEDS[next].config);
          ScpllPowerDown();
        } else {
          Select(SPEEDS[next].source, SPEEDS[next].config);
        }
      }
    }

    method AcpuclkGetRate() returns (khz: nat)
      requires current <= END
      ensures khz == if initDone then SPEEDS[current].khz else 998001
    {
      khz := if initDone then SPEEDS[current].khz else 998001;
    }

    /** Init and then any requests. */
    method Session(freqNum: nat, rates: seq<nat>)
      requires freqNum <= END && (Source(Now().words) == 1 || Source(Now().words) == 2) && !initDone && log == []
      modifies this
      ensures Clock(Now(), current) == Run(Init(old(Now()), freqNum), rates, |rates|)
      ensures freqNum != 0 ==> HarmlessLog(log)
      ensures 1 <= freqNum < END ==> SaneBits(Clock(Now(), current))
    {
      RunsHarmlessExactly(Now(), freqNum);
      RunsSaneExactly(Now(), freqNum);
      ghost var start := Init(Now(), freqNum);
      AcpuclkInit(freqNum);
      for k := 0 to |rates|
        invariant current <= END && Clock(Now(), current) == Run(start, rates, k)
      {
        var _ := AcpuclkSetRate(rates[k]);
      }
    }
  }
}
