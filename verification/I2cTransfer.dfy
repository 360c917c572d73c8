/**
  The interrupt-driven I2C engine of I2CDxe.c: a list of messages is sent and
  received one register access per interrupt, whatever the hardware reports.
*/
module I2cTransfer {

  type Byte = b: nat | b < 0x100

  /** A slave address has seven bits, so the parts of a word never overlap and are added up. */
  type Address = a: nat | a < 0x80

  const ADDR_BYTE: nat := 0x100
  const LAST_BYTE: nat := 0x200

  const WR_BUFFER_FULL: bv32 := 0x01
  const RD_BUFFER_FULL: bv32 := 0x02
  const ERROR_MASK: bv32 := 0xFC

  const ERROR: int := -1
  const ERR_TIMED_OUT: int := -13

  /** One message; a read message's buffer is overwritten with what arrives. */
  datatype Message = Message(addr: Address, read: bool, buf: seq<Byte>)

  // ----- what a list of messages looks like on the wire

  function AddressWord(m: Message, last: bool): nat {
    ADDR_BYTE + 2 * m.addr + (if m.read then 1 else 0) + if last then LAST_BYTE else 0
  }

  function DataWord(b: Byte, last: bool): nat { b + if last then LAST_BYTE else 0 }

  function LastIf(final: bool, m: Message, k: nat): bool { final && k == |m.buf| }

  /** The address and the first k bytes of a message; the last word of the last message ends the transfer. */
  function WordsOf(m: Message, final: bool, k: nat): (words: seq<nat>) {
    if k == 0 || m.read || k > |m.buf| then [AddressWord(m, LastIf(final, m, 0))]
    else WordsOf(m, final, k - 1) + [DataWord(m.buf[k - 1], LastIf(final, m, k))]
  }

  function AllWords(m: Message, final: bool): (words: seq<nat>) { WordsOf(m, final, |m.buf|) }

  /** The first n messages. */
  function EncodeTo(msgs: seq<Message>, n: nat): (words: seq<nat>) {
    if n == 0 || n > |msgs| then [] else EncodeTo(msgs, n - 1) + AllWords(msgs[n - 1], n == |msgs|)
  }

  function Encode(msgs: seq<Message>): (words: seq<nat>) { EncodeTo(msgs, |msgs|) }

  lemma {:induction false} EncodeGrows(msgs: seq<Message>, n: nat, k: nat)
    requires n <= k <= |msgs|
    ensures EncodeTo(msgs, n) <= EncodeTo(msgs, k)
  {
    if n < k {
      EncodeGrows(msgs, n, k - 1);
    }
  }

  lemma {:induction false} WordsOfGrow(m: Message, final: bool, j: nat, k: nat)
    requires j <= k <= |m.buf|
    ensures WordsOf(m, final, j) <= WordsOf(m, final, k)
  {
    if j < k {
      WordsOfGrow(m, final, j, k - 1);
    }
  }

  /** What was sent while message i is at position pos: -1 before its address, then bytes done. */
  function SentAt(msgs: seq<Message>, i: nat, pos: int): (words: seq<nat>) {
    if pos < 0 || i >= |msgs| then EncodeTo(msgs, i) else EncodeTo(msgs, i) + WordsOf(msgs[i], i + 1 == |msgs|, pos)
  }

  lemma PrefixSum(a: seq<nat>, b: seq<nat>, c: seq<nat>, d: seq<nat>)
    requires b <= c && a + c <= d
    ensures a + b <= d
  {
  }

  lemma SentWhole(msgs: seq<Message>, i: nat)
    requires i < |msgs|
    ensures SentAt(msgs, i, |msgs[i].buf|) == EncodeTo(msgs, i + 1)
  {
  }

  lemma SentIsPrefix(msgs: seq<Message>, i: nat, pos: int)
    requires i < |msgs| && pos <= |msgs[i].buf|
    ensures SentAt(msgs, i, pos) <= Encode(msgs)
  {
    if pos < 0 {
      EncodeGrows(msgs, i, |msgs|);
    } else {
      var final := i + 1 == |msgs|;
      EncodeGrows(msgs, i + 1, |msgs|);
      WordsOfGrow(msgs[i], final, pos, |msgs[i].buf|);
      PrefixSum(EncodeTo(msgs, i), WordsOf(msgs[i], final, pos), AllWords(msgs[i], final), Encode(msgs));
    }
  }

  lemma SendAddress(msgs: seq<Message>, i: nat)
    requires i < |msgs|
    ensures SentAt(msgs, i, 0) ==
      SentAt(msgs, i, -1) + [AddressWord(msgs[i], LastIf(i + 1 == |msgs|, msgs[i], 0))]
  {
  }

  lemma SendByte(msgs: seq<Message>, i: nat, pos: nat)
    requires i < |msgs| && pos < |msgs[i].buf| && !msgs[i].read
    ensures SentAt(msgs, i, pos + 1) ==
      SentAt(msgs, i, pos) + [DataWord(msgs[i].buf[pos], LastIf(i + 1 == |msgs|, msgs[i], pos + 1))]
  {
  }

  lemma ReadSendsNothing(msgs: seq<Message>, i: nat, pos: nat)
    requires i < |msgs| && msgs[i].read
    ensures SentAt(msgs, i, pos + 1) == SentAt(msgs, i, pos)
  {
  }

  // ----- what a slave hears

  /** A message as heard on the wire. */
  datatype Heard = Heard(addr: nat, read: bool, bytes: seq<nat>)

  /**
    A word with bit 8 set addresses a slave: bits 1 to 7 are the address, and bit 0 says that it is
    to be read.  A word with bit 8 clear is a byte for the slave addressed last, in bits 0 to 7.
  */
  function Hear(words: seq<nat>): (heard: seq<Heard>) {
    if words == [] then []
    else
      var before, w := Hear(words[..|words| - 1]), words[|words| - 1];
      var k := |before| - 1;
      if w / 0x100 % 2 == 1 then before + [Heard(w % 0x100 / 2, w % 2 == 1, [])]
      else if before != [] then before[k := before[k].(bytes := before[k].bytes + [w % 0x100])]
      else before
  }

  /** What is to be heard of a message of which k bytes were sent: nothing follows the address of a read. */
  function Said(m: Message, k: nat): Heard {
    Heard(m.addr, m.read, if m.read || k > |m.buf| then [] else m.buf[..k])
  }

  /** What is to be heard of the first n messages. */
  function SaidOf(msgs: seq<Message>, n: nat): (heard: seq<Heard>)
    requires n <= |msgs|
    ensures |heard| == n
  {
    seq(n, i requires 0 <= i < n => Said(msgs[i], |msgs[i].buf|))
  }

  lemma HearNext(words: seq<nat>, w: nat)
    ensures var before := Hear(words);
      Hear(words + [w]) ==
        if w / 0x100 % 2 == 1 then before + [Heard(w % 0x100 / 2, w % 2 == 1, [])]
        else if before == [] then []
        else before[|before| - 1 := before[|before| - 1].(bytes := before[|before| - 1].bytes + [w % 0x100])]
  {
    assert (words + [w])[..|words|] == words;
  }

  lemma AddressBits(m: Message, last: bool)
    ensures var w := AddressWord(m, last);
      w / 0x100 % 2 == 1 && w % 0x100 / 2 == m.addr && (w % 2 == 1 <==> m.read)
  {
  }

  lemma DataBits(b: Byte, last: bool)
    ensures var w := DataWord(b, last);
      w / 0x100 % 2 == 0 && w % 0x100 == b
  {
  }

  lemma HearAddress(before: seq<nat>, m: Message, last: bool)
    ensures Hear(before + [AddressWord(m, last)]) == Hear(before) + [Said(m, 0)]
  {
    hide Hear, AddressWord;
    HearNext(before, AddressWord(m, last));
    AddressBits(m, last);
  }

  lemma HearByte(words: seq<nat>, before: seq<Heard>, m: Message, k: nat, last: bool)
    requires k < |m.buf| && !m.read && Hear(words) == before + [Said(m, k)]
    ensures Hear(words + [DataWord(m.buf[k], last)]) == before + [Said(m, k + 1)]
  {
    hide Hear, DataWord;
    HearNext(words, DataWord(m.buf[k], last));
    DataBits(m.buf[k], last);
    assert m.buf[..k + 1] == m.buf[..k] + [m.buf[k]];
  }

  lemma {:induction false} HearMessage(before: seq<nat>, m: Message, final: bool, k: nat)
    requires k <= |m.buf|
    ensures Hear(before + WordsOf(m, final, k)) == Hear(before) + [Said(m, k)]
    decreases k
  {
    hide Hear, AddressWord, DataWord, LastIf;
    if k == 0 || m.read {
      HearAddress(before, m, LastIf(final, m, 0));
    } else {
      HearMessage(before, m, final, k - 1);
      HearByte(before + WordsOf(m, final, k - 1), Hear(before), m, k - 1, LastIf(final, m, k));
      assert before + WordsOf(m, final, k)
        == before + WordsOf(m, final, k - 1) + [DataWord(m.buf[k - 1], LastIf(final, m, k))];
    }
  }

  lemma HearNothing()
    ensures Hear([]) == []
  {
  }

  lemma AllWordsAre(m: Message, final: bool)
    ensures AllWords(m, final) == WordsOf(m, final, |m.buf|)
  {
  }

  lemma {:induction false} HearMessages(msgs: seq<Message>, n: nat)
    requires n <= |msgs|
    ensures Hear(EncodeTo(msgs, n)) == SaidOf(msgs, n)
  {
    hide Hear, AllWords, Said;
    if n == 0 {
      HearNothing();
    } else {
      HearMessages(msgs, n - 1);
      assert SaidOf(msgs, n) == SaidOf(msgs, n - 1) + [Said(msgs[n - 1], |msgs[n - 1].buf|)];
      assert AllWords(msgs[n - 1], n == |msgs|) == WordsOf(msgs[n - 1], n == |msgs|, |msgs[n - 1].buf|) by {
        AllWordsAre(msgs[n - 1], n == |msgs|);
      }
      HearMessage(EncodeTo(msgs, n - 1), msgs[n - 1], n == |msgs|, |msgs[n - 1].buf|);
    }
  }

  /** While message i is at position pos, the messages before it and its own first bytes are heard. */
  lemma SentIsHeard(msgs: seq<Message>, i: nat, pos: int)
    requires i < |msgs| && pos <= |msgs[i].buf|
    ensures Hear(SentAt(msgs, i, pos)) == SaidOf(msgs, i) + if pos < 0 then [] else [Said(msgs[i], pos)]
  {
    HearMessages(msgs, i);
    if pos >= 0 {
      HearMessage(EncodeTo(msgs, i), msgs[i], i + 1 == |msgs|, pos);
    }
  }

  // ----- the bit that ends a transfer

  /** Bit 9. */
  predicate EndsTransfer(w: nat) { w / 0x200 % 2 == 1 }

  lemma {:induction false} WordsOfLength(m: Message, final: bool, k: nat)
    requires k <= |m.buf|
    ensures |WordsOf(m, final, k)| == if m.read then 1 else k + 1
  {
    if k > 0 && !m.read {
      WordsOfLength(m, final, k - 1);
    }
  }

  lemma {:induction false} WordsOfBits(m: Message, final: bool, k: nat, j: nat)
    requires k <= |m.buf| && j < |WordsOf(m, final, k)|
    ensures EndsTransfer(WordsOf(m, final, k)[j]) <==> LastIf(final, m, j)
  {
    WordsOfLength(m, final, k);
    if k > 0 && !m.read {
      WordsOfLength(m, final, k - 1);
      if j < k {
        WordsOfBits(m, final, k - 1, j);
      }
    }
  }

  lemma {:induction false} NoEarlyEnd(msgs: seq<Message>, n: nat, j: nat)
    requires n < |msgs| && j < |EncodeTo(msgs, n)|
    ensures !EndsTransfer(EncodeTo(msgs, n)[j])
  {
    if n > 0 {
      var before := EncodeTo(msgs, n - 1);
      if j < |before| {
        NoEarlyEnd(msgs, n - 1, j);
      } else {
        WordsOfBits(msgs[n - 1], false, |msgs[n - 1].buf|, j - |before|);
      }
    }
  }

  /**
    The word that ends the transfer is the last one, when the last message is a write or
    empty; no other word does.
  */
  lemma EndBitIsLast(msgs: seq<Message>, j: nat)
    requires j < |Encode(msgs)|
    ensures |msgs| > 0
    ensures Encode(msgs)[j] / 0x200 % 2 == 1 <==>
      j == |Encode(msgs)| - 1 && (!msgs[|msgs| - 1].read || msgs[|msgs| - 1].buf == [])
  {
    var n := |msgs| - 1;
    var before, m := EncodeTo(msgs, n), msgs[n];
    if j < |before| {
      NoEarlyEnd(msgs, n, j);
      WordsOfLength(m, true, |m.buf|);
    } else {
      WordsOfLength(m, true, |m.buf|);
      WordsOfBits(m, true, |m.buf|, j - |before|);
    }
  }

  // ----- the device record, as a value

  /** What a transfer has done so far. */
  datatype Log = Log(
    /** The messages as they were handed over. */
    asked: seq<Message>,
    /** Every word sent. */
    sent: seq<nat>,
    /** For each message, the bytes taken for it and the stops asked for before its last byte. */
    got: seq<seq<Byte>>,
    stops: seq<nat>,
    /** Bytes thrown away since the last one kept. */
    thrown: nat,
    /** Stops asked for on every second byte that nobody wanted. */
    flushStops: nat,
    /** Completion was signalled; an interrupt reported an error; the timeout that was left over. */
    completed: bool,
    failed: bool,
    leftOver: int)

  datatype Dev = Dev(
    log: Log,
    msgs: seq<Message>,
    msg: nat,
    rem: int,
    pos: int,
    cnt: int,
    ret: int,
    needFlush: bool,
    flushCnt: nat,
    timeout: int)

  /** An interrupt: what the status register says, and the byte the data register holds. */
  datatype Interrupt = Interrupt(status: bv32, byte: Byte)

  predicate HasError(irq: Interrupt) { irq.status & ERROR_MASK != 0 }
  predicate CanWrite(irq: Interrupt) { irq.status & WR_BUFFER_FULL == 0 }
  predicate CanRead(irq: Interrupt) { irq.status & RD_BUFFER_FULL != 0 }

  function Current(d: Dev): Message { if d.msg < |d.msgs| then d.msgs[d.msg] else Message(0, false, []) }

  predicate Reading(d: Dev) { Current(d).read && d.pos >= 0 && d.cnt != 0 }

  predicate CanSend(d: Dev) { d.pos < 0 || (!Current(d).read && d.cnt != 0) }

  function Sent(log: Log, word: nat): Log { log.(sent := log.sent + [word]) }

  /** Send the address, or the next byte of a write. */
  function AfterFill(d: Dev): (e: Dev) {
    var m := Current(d);
    if d.pos < 0 then d.(log := Sent(d.log, AddressWord(m, d.rem == 1 && m.buf == [])), pos := d.pos + 1)
    else if CanSend(d) && d.pos < |m.buf| then
      d.(log := Sent(d.log, DataWord(m.buf[d.pos], d.rem == 1 && d.cnt == 1)), pos := d.pos + 1, cnt := d.cnt - 1)
    else d
  }

  predicate SingleByte(d: Dev) { d.cnt == 1 && d.pos == 0 }

  /** A byte for message i, and the stops it takes. */
  function Kept(log: Log, i: nat, byte: Byte, stops: nat): Log {
    if i < |log.got| && i < |log.stops|
    then log.(got := log.got[i := log.got[i] + [byte]], stops := log.stops[i := log.stops[i] + stops], thrown := 0)
    else log
  }

  function Dropped(log: Log, stops: nat): Log {
    log.(thrown := log.thrown + 1, flushStops := log.flushStops + stops)
  }

  function WithByte(msgs: seq<Message>, i: nat, pos: int, byte: Byte): seq<Message> {
    if i < |msgs| && 0 <= pos < |msgs[i].buf| then msgs[i := msgs[i].(buf := msgs[i].buf[pos := byte])] else msgs
  }

  /** Take a byte: for the current read message if it still expects one, otherwise throw it away. */
  function AfterRead(d: Dev, byte: Byte): (e: Dev) {
    if Reading(d)
    then d.(log := Kept(d.log, d.msg, byte, if d.cnt == 2 || SingleByte(d) then 1 else 0),
            msgs := WithByte(d.msgs, d.msg, d.pos, byte),
            pos := d.pos + 1, cnt := d.cnt - 1, needFlush := d.needFlush || SingleByte(d))
    else d.(log := Dropped(d.log, if d.flushCnt % 2 == 1 then 1 else 0), needFlush := false,
            flushCnt := if d.needFlush then d.flushCnt else d.flushCnt + 1)
  }

  /** When a message is through, go on to the next one or signal completion. */
  function AfterNext(d: Dev, notDone: bool): (e: Dev) {
    if d.pos < 0 || d.cnt != 0 then d
    else if d.rem > 1 then Advanced(d)
    else if !notDone && !d.needFlush then Completed(d)
    else d
  }

  function Advanced(d: Dev): (e: Dev) {
    var next := d.(rem := d.rem - 1, msg := d.msg + 1, pos := -1);
    next.(cnt := |Current(next).buf|)
  }

  function Completed(d: Dev): (e: Dev) { d.(log := d.log.(completed := true), timeout := 0) }

  function Failed(d: Dev): (e: Dev) {
    d.(log := d.log.(failed := true), ret := ERROR, timeout := ERR_TIMED_OUT)
  }

  /** Send and take what the status register allows. */
  function Exchanged(d: Dev, irq: Interrupt): (e: Dev) {
    var filled := if CanWrite(irq) then AfterFill(d) else d;
    if CanRead(irq) then AfterRead(filled, irq.byte) else filled
  }

  function AfterInterrupt(d: Dev, irq: Interrupt): (e: Dev) {
    if HasError(irq) then Failed(d) else AfterNext(Exchanged(d, irq), CanWrite(irq) ==> CanSend(d))
  }

  function AfterAll(d: Dev, irqs: seq<Interrupt>, n: nat): (e: Dev) {
    if n == 0 || n > |irqs| then d else AfterInterrupt(AfterAll(d, irqs, n - 1), irqs[n - 1])
  }

  /** The record at the start of a transfer. */
  function Begun(msgs: seq<Message>, timeout: int): (d: Dev) {
    var log := Log(msgs, [], seq(|msgs|, _ => []), seq(|msgs|, _ => 0), 0, 0, false, false, timeout);
    Dev(log, msgs, 0, |msgs|, -1, if msgs == [] then 0 else |msgs[0].buf|, |msgs|, false, 0, timeout)
  }

  // ----- what every interrupt keeps

  /** Bytes of message i that were read, when message `current` is at position pos. */
  function BytesRead(msgs: seq<Message>, current: nat, pos: int, i: nat): nat {
    if i >= |msgs| || !msgs[i].read || current < i then 0
    else if i < current then |msgs[i].buf|
    else if pos < 0 then 0 else pos
  }

  /** A read asks for the stop before its last byte; a single byte has none before it. */
  function StopsDue(len: nat, done: nat): nat {
    if done == 0 then 0 else if len == 1 || done + 1 >= len then 1 else 0
  }

  /** A buffer that starts with the bytes got, and keeps the rest of what it held. */
  function Overlaid(buf: seq<Byte>, got: seq<Byte>): seq<Byte> {
    if |got| <= |buf| then got + buf[|got|..] else buf
  }

  /**
    A message of which `done` bytes were read: it holds the bytes got and otherwise what it was
    asked with, and the stops it needs so far were asked for.
  */
  predicate HalfDone(asked: Message, now: Message, got: seq<Byte>, stops: nat, done: nat) {
    |got| == done && stops == StopsDue(|asked.buf|, done) && now == asked.(buf := Overlaid(asked.buf, got))
  }

  predicate Good(log: Log, msgs: seq<Message>, current: nat, pos: int, i: nat) {
    i < |log.asked| && i < |msgs| && i < |log.got| && i < |log.stops| &&
    HalfDone(log.asked[i], msgs[i], log.got[i], log.stops[i], BytesRead(log.asked, current, pos, i))
  }

  /** Where the current message stands. */
  predicate Placed(d: Dev) {
    d.msg < |d.log.asked| && d.rem == |d.log.asked| - d.msg &&
    -1 <= d.pos <= |d.log.asked[d.msg].buf| &&
    d.cnt == |d.log.asked[d.msg].buf| - if d.pos < 0 then 0 else d.pos
  }

  predicate Sized(log: Log, msgs: seq<Message>) { |log.asked| == |msgs| == |log.got| == |log.stops| }

  /** An error sticks; without one, the timeout of an earlier transfer stays until this one completes. */
  predicate Outcome(d: Dev) {
    if d.log.failed then d.ret == ERROR
    else d.ret == |d.log.asked| && d.timeout == if d.log.completed then 0 else d.log.leftOver
  }

  predicate Finished(d: Dev) { d.rem == 1 && d.pos >= 0 && d.cnt == 0 && !d.needFlush }

  /** The extra byte of a one-byte read is thrown away, or still expected. */
  predicate ExtraByte(d: Dev) {
    d.msg < |d.log.asked| && d.log.asked[d.msg].read && |d.log.asked[d.msg].buf| == 1 && d.pos == 1 ==>
      d.needFlush || d.log.thrown > 0
  }

  ghost predicate Holds(d: Dev) {
    Placed(d) && Sized(d.log, d.msgs) && Outcome(d) && ExtraByte(d) &&
    d.log.sent == SentAt(d.log.asked, d.msg, d.pos) &&
    (forall i :: 0 <= i < |d.log.asked| ==> Good(d.log, d.msgs, d.msg, d.pos, i)) &&
    (d.log.completed ==> Finished(d))
  }

  lemma CurrentIs(d: Dev)
    requires Holds(d)
    ensures Current(d).addr == d.log.asked[d.msg].addr && Current(d).read == d.log.asked[d.msg].read
    ensures |Current(d).buf| == |d.log.asked[d.msg].buf|
    ensures !Current(d).read ==> Current(d) == d.log.asked[d.msg]
  {
    assert Good(d.log, d.msgs, d.msg, d.pos, d.msg);
  }

  lemma FillHolds(d: Dev)
    requires Holds(d)
    ensures Holds(AfterFill(d))
    ensures AfterFill(d).pos >= 0 && (!CanSend(d) ==> AfterFill(d) == d) && Kin(d, AfterFill(d))
  {
    CurrentIs(d);
    var e := AfterFill(d);
    if d.pos < 0 {
      SendAddress(d.log.asked, d.msg);
    } else if CanSend(d) {
      SendByte(d.log.asked, d.msg, d.pos);
    }
    forall i | 0 <= i < |e.log.asked|
      ensures Good(e.log, e.msgs, e.msg, e.pos, i)
    {
      assert Good(d.log, d.msgs, d.msg, d.pos, i);
    }
  }

  lemma StopStep(len: nat, pos: nat)
    requires pos < len
    ensures StopsDue(len, pos + 1) ==
      StopsDue(len, pos) + if len - pos == 2 || (len - pos == 1 && pos == 0) then 1 else 0
  {
  }

  lemma OverlayStep(buf: seq<Byte>, got: seq<Byte>, byte: Byte)
    requires |got| < |buf|
    ensures |Overlaid(buf, got)| == |buf|
    ensures Overlaid(buf, got)[|got| := byte] == Overlaid(buf, got + [byte])
  {
  }

  lemma ReadHolds(d: Dev, byte: Byte)
    requires Holds(d)
    ensures Holds(AfterRead(d, byte)) && Kin(d, AfterRead(d, byte))
  {
    CurrentIs(d);
    var e := AfterRead(d, byte);
    if Reading(d) {
      assert Good(d.log, d.msgs, d.msg, d.pos, d.msg);
      OverlayStep(d.log.asked[d.msg].buf, d.log.got[d.msg], byte);
      StopStep(|d.log.asked[d.msg].buf|, d.pos);
      ReadSendsNothing(d.log.asked, d.msg, d.pos);
    }
    forall i | 0 <= i < |e.log.asked|
      ensures Good(e.log, e.msgs, e.msg, e.pos, i)
    {
      assert Good(d.log, d.msgs, d.msg, d.pos, i);
    }
  }

  lemma AdvancedHolds(d: Dev)
    requires Holds(d) && d.pos >= 0 && d.cnt == 0 && d.rem > 1
    ensures Holds(Advanced(d))
  {
    var e := Advanced(d);
    assert Good(d.log, d.msgs, d.msg, d.pos, d.msg + 1);
    SentWhole(d.log.asked, d.msg);
    forall i | 0 <= i < |e.log.asked|
      ensures Good(e.log, e.msgs, e.msg, e.pos, i)
    {
      assert Good(d.log, d.msgs, d.msg, d.pos, i);
    }
  }

  lemma CompletedHolds(d: Dev)
    requires Holds(d) && Finished(d)
    ensures Holds(Completed(d))
  {
    var e := Completed(d);
    forall i | 0 <= i < |e.log.asked|
      ensures Good(e.log, e.msgs, e.msg, e.pos, i)
    {
      assert Good(d.log, d.msgs, d.msg, d.pos, i);
    }
  }

  lemma NextHolds(d: Dev, notDone: bool)
    requires Holds(d)
    ensures Holds(AfterNext(d, notDone)) && Kin(d, AfterNext(d, notDone))
  {
    if d.pos >= 0 && d.cnt == 0 {
      if d.rem > 1 {
        AdvancedHolds(d);
      } else if !notDone && !d.needFlush {
        CompletedHolds(d);
      }
    }
  }

  lemma ErrorHolds(d: Dev)
    requires Holds(d)
    ensures Holds(Failed(d))
  {
    var e := Failed(d);
    forall i | 0 <= i < |e.log.asked|
      ensures Good(e.log, e.msgs, e.msg, e.pos, i)
    {
      assert Good(d.log, d.msgs, d.msg, d.pos, i);
    }
  }

  lemma ExchangedHolds(d: Dev, irq: Interrupt)
    requires Holds(d)
    ensures Holds(Exchanged(d, irq)) && Kin(d, Exchanged(d, irq))
  {
    hide Holds, AfterFill, AfterRead, CanWrite, CanRead;
    FillHolds(d);
    ReadHolds(if CanWrite(irq) then AfterFill(d) else d, irq.byte);
  }

  /** The transfer is the same and went on without an error. */
  predicate Kin(d: Dev, e: Dev) {
    e.log.asked == d.log.asked && e.log.leftOver == d.log.leftOver && e.log.failed == d.log.failed
  }

  lemma InterruptHolds(d: Dev, irq: Interrupt)
    requires Holds(d)
    ensures Holds(AfterInterrupt(d, irq))
    ensures AfterInterrupt(d, irq).log.asked == d.log.asked && AfterInterrupt(d, irq).log.leftOver == d.log.leftOver
    ensures AfterInterrupt(d, irq).log.failed == (d.log.failed || HasError(irq))
  {
    if HasError(irq) {
      ErrorHolds(d);
    } else {
      ExchangedHolds(d, irq);
      NextHolds(Exchanged(d, irq), CanWrite(irq) ==> CanSend(d));
    }
  }

  /** Bit 0 of the status, when clear, lets one word go: the address, or a byte still to be written. */
  lemma WordGoes(d: Dev, irq: Interrupt)
    requires Holds(d)
    ensures var m := d.log.asked[d.msg];
      var goes := irq.status & 0xFC == 0 && irq.status & 1 == 0 && (d.pos < 0 || (!m.read && d.pos < |m.buf|));
      |AfterInterrupt(d, irq).log.sent| == |d.log.sent| + if goes then 1 else 0
  {
    CurrentIs(d);
  }

  /**
    Bit 1 of the status says that a byte is there.  It is added to the bytes got for the current
    message, if that is a read, addressed by now, that still expects one; otherwise none is added.
    The stop is asked for with the last but one of several bytes, or with the only one.
  */
  lemma ByteArrives(d: Dev, irq: Interrupt)
    requires Holds(d)
    ensures var m, got, stops, e := d.log.asked[d.msg], d.log.got, d.log.stops, AfterInterrupt(d, irq).log;
      var taken := irq.status & 0xFC == 0 && irq.status & 2 != 0 && (d.pos >= 0 || irq.status & 1 == 0)
        && m.read && |got[d.msg]| < |m.buf|;
      var stop := |got[d.msg]| + 2 == |m.buf| || |m.buf| == 1;
      && e.got == (if taken then got[d.msg := got[d.msg] + [irq.byte]] else got)
      && e.stops == (if taken && stop then stops[d.msg := stops[d.msg] + 1] else stops)
  {
    hide Holds, HasError, CanWrite, CanRead, AfterFill, AfterRead, CanSend;
    CurrentPlace(d);
    StatusBits(irq);
    FillPlace(d);
    ReadPlace(if CanWrite(irq) then AfterFill(d) else d, irq.byte);
  }

  lemma StatusBits(irq: Interrupt)
    ensures HasError(irq) <==> irq.status & 0xFC != 0
    ensures CanWrite(irq) <==> irq.status & 1 == 0
    ensures CanRead(irq) <==> irq.status & 2 != 0
  {
  }

  lemma FillPlace(d: Dev)
    requires d.pos >= -1
    ensures var e := AfterFill(d);
      && e.log.got == d.log.got && e.log.stops == d.log.stops && e.msg == d.msg && e.msgs == d.msgs && e.pos >= 0
      && (Current(d).read ==> e.cnt == d.cnt && e.pos == if d.pos < 0 then d.pos + 1 else d.pos)
  {
  }

  lemma ReadPlace(d: Dev, byte: Byte)
    requires d.msg < |d.log.got| == |d.log.stops|
    ensures AfterRead(d, byte).log.got ==
      if Current(d).read && d.pos >= 0 && d.cnt != 0 then d.log.got[d.msg := d.log.got[d.msg] + [byte]] else d.log.got
    ensures AfterRead(d, byte).log.stops ==
      if Current(d).read && d.pos >= 0 && (d.cnt == 2 || (d.cnt == 1 && d.pos == 0))
      then d.log.stops[d.msg := d.log.stops[d.msg] + 1] else d.log.stops
  {
  }

  lemma CurrentPlace(d: Dev)
    requires Holds(d)
    ensures d.msg < |d.log.asked| == |d.log.got| == |d.log.stops| && Current(d).read == d.log.asked[d.msg].read
    ensures |Current(d).buf| == |d.log.asked[d.msg].buf|
    ensures var done := if d.pos < 0 then 0 else d.pos;
      && -1 <= d.pos && 0 <= d.cnt == |Current(d).buf| - done
      && (Current(d).read ==> |d.log.got[d.msg]| == done)
  {
    assert Good(d.log, d.msgs, d.msg, d.pos, d.msg);
    CurrentIs(d);
  }

  lemma BegunHolds(msgs: seq<Message>, timeout: int)
    requires msgs != []
    ensures Holds(Begun(msgs, timeout))
  {
  }

  lemma {:induction false} AllHolds(d: Dev, irqs: seq<Interrupt>, n: nat)
    requires Holds(d) && n <= |irqs|
    ensures Holds(AfterAll(d, irqs, n))
    ensures AfterAll(d, irqs, n).log.asked == d.log.asked && AfterAll(d, irqs, n).log.leftOver == d.log.leftOver
    ensures AfterAll(d, irqs, n).log.failed <==> d.log.failed || exists k :: 0 <= k < n && HasError(irqs[k])
  {
    hide AfterInterrupt, Holds, HasError;
    if n > 0 {
      AllHolds(d, irqs, n - 1);
      InterruptHolds(AfterAll(d, irqs, n - 1), irqs[n - 1]);
    }
  }

  /**
    Bytes that keep coming once nothing is left to be sent or taken are thrown away, and every
    second of them is answered with a request to stop.
  */
  lemma {:induction false} UnwantedBytes(d: Dev, irqs: seq<Interrupt>, n: nat)
    requires n <= |irqs| && d.rem == 1 && d.pos >= 0 && d.cnt == 0 && !d.needFlush
    requires forall k :: 0 <= k < |irqs| ==> irqs[k].status & 0xFC == 0 && irqs[k].status & 2 != 0
    ensures var e := AfterAll(d, irqs, n);
      && e.rem == 1 && e.pos == d.pos && e.cnt == 0 && !e.needFlush && e.msgs == d.msgs && e.log.sent == d.log.sent
      && e.log.thrown == d.log.thrown + n && e.flushCnt == d.flushCnt + n
      && e.log.flushStops == d.log.flushStops + (d.flushCnt + n) / 2 - d.flushCnt / 2
  {
    hide AfterInterrupt;
    if n > 0 {
      UnwantedBytes(d, irqs, n - 1);
      UnwantedByte(AfterAll(d, irqs, n - 1), irqs[n - 1]);
      assert (d.flushCnt + n) / 2 == (d.flushCnt + n - 1) / 2 + (d.flushCnt + n - 1) % 2;
    }
  }

  lemma UnwantedByte(d: Dev, irq: Interrupt)
    requires d.rem == 1 && d.pos >= 0 && d.cnt == 0 && !d.needFlush
    requires irq.status & 0xFC == 0 && irq.status & 2 != 0
    ensures var e := AfterInterrupt(d, irq);
      && e.rem == 1 && e.pos == d.pos && e.cnt == 0 && !e.needFlush && e.msgs == d.msgs && e.log.sent == d.log.sent
      && e.log.thrown == d.log.thrown + 1 && e.flushCnt == d.flushCnt + 1
      && e.log.flushStops == d.log.flushStops + d.flushCnt % 2
  {
    hide CanWrite, CanRead, HasError;
    StatusBits(irq);
  }

  // ----- what a transfer delivers

  /** Message i is through: a read holds exactly the bytes taken for it, and asked for one stop unless empty. */
  predicate Done(d: Dev, i: nat) {
    i < |d.log.asked| && i < |d.msgs| && i < |d.log.got| && i < |d.log.stops| &&
    if d.log.asked[i].read
    then |d.log.got[i]| == |d.log.asked[i].buf| && d.msgs[i] == d.log.asked[i].(buf := d.log.got[i]) &&
         d.log.stops[i] == if d.log.got[i] == [] then 0 else 1
    else d.msgs[i] == d.log.asked[i] && d.log.got[i] == [] && d.log.stops[i] == 0
  }

  lemma CompletedDelivers(d: Dev, i: nat)
    requires Holds(d) && d.log.completed && i < |d.log.asked|
    ensures Done(d, i)
  {
    assert Good(d.log, d.msgs, d.msg, d.pos, i);
    var got, buf := d.log.got[i], d.log.asked[i].buf;
    assert |got| <= |buf| && Overlaid(buf, got) == got + buf[|got|..];
  }

  ghost predicate Delivered(d: Dev) {
    var n := |d.log.asked|;
    d.log.sent == Encode(d.log.asked) && Hear(d.log.sent) == SaidOf(d.log.asked, n) &&
    (forall i :: 0 <= i < n ==> Done(d, i)) &&
    (n > 0 && d.log.asked[n - 1].read && |d.log.asked[n - 1].buf| == 1 ==> d.log.thrown > 0)
  }

  /** A slave heard whole messages as they were asked for, and of the last one the first bytes. */
  ghost predicate HeardSoFar(heard: seq<Heard>, msgs: seq<Message>) {
    |heard| <= |msgs| &&
    (forall i :: 0 <= i < |heard| ==> heard[i].addr == msgs[i].addr && heard[i].read == msgs[i].read) &&
    (forall i :: 0 <= i < |heard| && msgs[i].read ==> heard[i].bytes == []) &&
    (forall i :: 0 <= i < |heard| && !msgs[i].read ==> heard[i].bytes <= msgs[i].buf) &&
    (forall i :: 0 <= i < |heard| - 1 && !msgs[i].read ==> heard[i].bytes == msgs[i].buf)
  }

  lemma HeardInTime(msgs: seq<Message>, i: nat, pos: int)
    requires i < |msgs| && pos <= |msgs[i].buf|
    ensures HeardSoFar(Hear(SentAt(msgs, i, pos)), msgs)
    ensures i == |msgs| - 1 && pos == |msgs[i].buf| ==> Hear(SentAt(msgs, i, pos)) == SaidOf(msgs, |msgs|)
  {
    hide Hear, SentAt;
    SentIsHeard(msgs, i, pos);
  }

  lemma HoldsDelivers(d: Dev)
    requires Holds(d)
    ensures d.log.sent <= Encode(d.log.asked)
    ensures HeardSoFar(Hear(d.log.sent), d.log.asked)
    ensures d.log.completed ==> Delivered(d)
  {
    hide Hear, HeardSoFar, SaidOf, SentAt;
    HeardInTime(d.log.asked, d.msg, d.pos);
    SentIsPrefix(d.log.asked, d.msg, d.pos);
    SentWhole(d.log.asked, d.msg);
    if d.log.completed {
      forall i | 0 <= i < |d.log.asked|
        ensures Done(d, i)
      {
        CompletedDelivers(d, i);
      }
    }
  }

  /**
    Whatever interrupts arrive, the words sent are a prefix of the encoding of the messages, and
    are heard as these messages up to the bytes still to come; on completion they are all of it
    and heard as exactly the messages asked for, every message is through, and after a final
    one-byte read the extra byte was thrown away.
  */
  lemma {:induction false} TransferDelivers(msgs: seq<Message>, timeout: int, irqs: seq<Interrupt>)
    requires msgs != []
    ensures var d := AfterAll(Begun(msgs, timeout), irqs, |irqs|);
      && d.log.asked == msgs && d.log.sent <= Encode(msgs) && HeardSoFar(Hear(d.log.sent), msgs)
      && (d.log.completed ==> Delivered(d) && Hear(d.log.sent) == SaidOf(msgs, |msgs|))
  {
    BegunHolds(msgs, timeout);
    AllHolds(Begun(msgs, timeout), irqs, |irqs|);
    HoldsDelivers(AfterAll(Begun(msgs, timeout), irqs, |irqs|));
  }

  // ----- when a transfer completes

  /** Nothing is wrong, a word can be sent and a byte is there. */
  predicate Ready(irq: Interrupt) { !HasError(irq) && CanWrite(irq) && CanRead(irq) }

  predicate NoError(irqs: seq<Interrupt>) { forall k :: 0 <= k < |irqs| ==> !HasError(irqs[k]) }

  predicate Single(m: Message) { m.read && |m.buf| == 1 }

  /** What a message takes: its address, its bytes, and the extra byte of a one-byte read. */
  function Due(m: Message): nat { 1 + |m.buf| + if Single(m) then 1 else 0 }

  function DueFrom(msgs: seq<Message>, i: nat): (n: nat)
    decreases |msgs| - i
  {
    if i >= |msgs| then 0 else Due(msgs[i]) + DueFrom(msgs, i + 1)
  }

  /** As many interrupts that find everything ready complete any transfer of these messages. */
  function Enough(msgs: seq<Message>): nat { 1 + DueFrom(msgs, 0) }

  /** What is still due; nothing once completion was signalled. */
  function Left(d: Dev): (n: int) {
    if d.log.completed then 0
    else
      var m := if d.msg < |d.log.asked| then d.log.asked[d.msg] else Message(0, false, []);
      1 + (if d.needFlush then 1 else 0) + DueFrom(d.log.asked, d.msg + 1) +
      if d.pos < 0 then Due(m) else d.cnt + if Single(m) && d.pos == 0 then 1 else 0
  }

  /** Only at the last message is there nothing to send or take. */
  predicate Waiting(d: Dev) { d.pos >= 0 && d.cnt == 0 ==> d.rem == 1 }

  /** Sending and taking never adds to what is due, and does away with some of it when all is ready. */
  lemma ExchangeLeft(d: Dev, irq: Interrupt)
    requires Holds(d) && !d.log.completed
    ensures var e := Exchanged(d, irq);
      && !e.log.completed && e.msg == d.msg && e.rem == d.rem && e.log.asked == d.log.asked
      && Left(e) <= Left(d)
      && (Ready(irq) && (d.pos < 0 || d.cnt != 0 || d.needFlush) ==> Left(e) < Left(d))
      && (Ready(irq) && d.pos >= 0 && d.cnt == 0 ==> !e.needFlush && e.pos == d.pos && e.cnt == 0)
  {
    CurrentIs(d);
    FillHolds(d);
    CurrentIs(AfterFill(d));
  }

  lemma NextLeft(e: Dev, notDone: bool)
    requires Holds(e) && !e.log.completed
    ensures var f := AfterNext(e, notDone);
      && Left(f) <= Left(e) && (f.log.completed ==> Left(f) < Left(e)) && Waiting(f)
      && (e.pos >= 0 && e.cnt == 0 && e.rem == 1 && !notDone && !e.needFlush ==> f.log.completed)
  {
    if e.pos >= 0 && e.cnt == 0 && e.rem > 1 {
      AdvancedHolds(e);
      CurrentIs(Advanced(e));
    }
  }

  lemma InterruptLeft(d: Dev, irq: Interrupt)
    requires Holds(d) && Waiting(d) && !HasError(irq)
    ensures var e := AfterInterrupt(d, irq);
      && Left(e) <= Left(d) && Waiting(e) && (d.log.completed ==> e.log.completed)
      && (Ready(irq) && !d.log.completed ==> Left(e) < Left(d))
  {
    if !d.log.completed {
      ExchangeLeft(d, irq);
      ExchangedHolds(d, irq);
      NextLeft(Exchanged(d, irq), CanWrite(irq) ==> CanSend(d));
    }
  }

  datatype Kind = EverythingReady | WordCanGo | ByteIsThere

  predicate OfKind(irq: Interrupt, kind: Kind) {
    match kind
    case EverythingReady => Ready(irq)
    case WordCanGo => CanWrite(irq)
    case ByteIsThere => CanRead(irq)
  }

  /** How many of the first n interrupts are of this kind. */
  function Count(irqs: seq<Interrupt>, n: nat, kind: Kind): (c: nat) {
    if n == 0 || n > |irqs| then 0 else Count(irqs, n - 1, kind) + if OfKind(irqs[n - 1], kind) then 1 else 0
  }

  function CountAll(irqs: seq<Interrupt>, kind: Kind): nat { Count(irqs, |irqs|, kind) }

  /** Completed, or what was done by `count` ready interrupts is off the budget. */
  ghost predicate InBudget(d: Dev, count: nat, budget: nat) {
    Holds(d) && Waiting(d) && (d.log.completed || Left(d) + count <= budget)
  }

  lemma BegunInBudget(msgs: seq<Message>, timeout: int)
    requires msgs != []
    ensures InBudget(Begun(msgs, timeout), 0, Enough(msgs))
  {
    BegunHolds(msgs, timeout);
  }

  lemma StaysInBudget(d: Dev, irq: Interrupt, count: nat, budget: nat)
    requires InBudget(d, count, budget) && !HasError(irq)
    ensures InBudget(AfterInterrupt(d, irq), if Ready(irq) then count + 1 else count, budget)
  {
    hide AfterInterrupt, Left, Ready, HasError;
    InterruptLeft(d, irq);
    InterruptHolds(d, irq);
  }

  lemma {:induction false} AllInBudget(msgs: seq<Message>, timeout: int, irqs: seq<Interrupt>, n: nat)
    requires msgs != [] && NoError(irqs) && n <= |irqs|
    ensures InBudget(AfterAll(Begun(msgs, timeout), irqs, n), Count(irqs, n, EverythingReady), Enough(msgs))
  {
    hide AfterInterrupt, InBudget, Begun, Enough, Ready, HasError;
    if n == 0 {
      BegunInBudget(msgs, timeout);
    } else {
      AllInBudget(msgs, timeout, irqs, n - 1);
      StaysInBudget(AfterAll(Begun(msgs, timeout), irqs, n - 1), irqs[n - 1], Count(irqs, n - 1, EverythingReady),
                    Enough(msgs));
    }
  }

  lemma LeftPositive(d: Dev)
    requires Holds(d) && !d.log.completed
    ensures Left(d) >= 1
  {
  }

  /**
    Whatever the order of the interrupts, a transfer without errors completes once enough of
    them found everything ready.
  */
  lemma {:induction false} ReadyCompletes(msgs: seq<Message>, timeout: int, irqs: seq<Interrupt>)
    requires msgs != [] && NoError(irqs) && CountAll(irqs, EverythingReady) >= Enough(msgs)
    ensures AfterAll(Begun(msgs, timeout), irqs, |irqs|).log.completed
  {
    AllInBudget(msgs, timeout, irqs, |irqs|);
    var d := AfterAll(Begun(msgs, timeout), irqs, |irqs|);
    if !d.log.completed {
      LeftPositive(d);
    }
  }

  // ----- what completion takes at least

  function Total(got: seq<seq<Byte>>): (n: nat) {
    if got == [] then 0 else Total(got[..|got| - 1]) + |got[|got| - 1]|
  }

  lemma {:induction false} TotalUpdate(got: seq<seq<Byte>>, i: nat, byte: Byte)
    requires i < |got|
    ensures Total(got[i := got[i] + [byte]]) == Total(got) + 1
  {
    var n := |got| - 1;
    if i == n {
      assert got[i := got[i] + [byte]][..n] == got[..n];
    } else {
      assert got[i := got[i] + [byte]][..n] == got[..n][i := got[..n][i] + [byte]];
      TotalUpdate(got[..n], i, byte);
    }
  }

  /** The bytes that are read for the first n messages. */
  function ReadBytes(msgs: seq<Message>, n: nat): nat {
    if n == 0 || n > |msgs| then 0 else ReadBytes(msgs, n - 1) + if msgs[n - 1].read then |msgs[n - 1].buf| else 0
  }

  /** All bytes to be read, and one more behind a final one-byte read. */
  function BytesDue(msgs: seq<Message>): nat {
    ReadBytes(msgs, |msgs|) + if msgs != [] && Single(msgs[|msgs| - 1]) then 1 else 0
  }

  /** Bytes kept, and one if some were thrown away since. */
  function Taken(d: Dev): nat { Total(d.log.got) + if d.log.thrown > 0 then 1 else 0 }

  lemma FillTakes(d: Dev)
    ensures |AfterFill(d).log.sent| <= |d.log.sent| + 1 && Taken(AfterFill(d)) == Taken(d)
  {
  }

  lemma ReadTakes(d: Dev, byte: Byte)
    ensures AfterRead(d, byte).log.sent == d.log.sent && Taken(AfterRead(d, byte)) <= Taken(d) + 1
  {
    if d.msg < |d.log.got| {
      TotalUpdate(d.log.got, d.msg, byte);
    }
  }

  lemma InterruptTakes(d: Dev, irq: Interrupt)
    ensures var e := AfterInterrupt(d, irq);
      && |e.log.sent| <= |d.log.sent| + (if CanWrite(irq) then 1 else 0)
      && Taken(e) <= Taken(d) + (if CanRead(irq) then 1 else 0)
  {
    hide AfterFill, AfterRead, Total;
    FillTakes(d);
    ReadTakes(if CanWrite(irq) then AfterFill(d) else d, irq.byte);
  }

  lemma {:induction false} AllTakes(d: Dev, irqs: seq<Interrupt>, n: nat)
    requires n <= |irqs|
    ensures var e := AfterAll(d, irqs, n);
      && |e.log.sent| <= |d.log.sent| + Count(irqs, n, WordCanGo)
      && Taken(e) <= Taken(d) + Count(irqs, n, ByteIsThere)
  {
    if n > 0 {
      AllTakes(d, irqs, n - 1);
      InterruptTakes(AfterAll(d, irqs, n - 1), irqs[n - 1]);
    }
  }

  lemma {:induction false} TotalDelivered(d: Dev, n: nat)
    requires Delivered(d) && n <= |d.log.asked| == |d.log.got|
    ensures Total(d.log.got[..n]) == ReadBytes(d.log.asked, n)
  {
    if n > 0 {
      TotalDelivered(d, n - 1);
      assert d.log.got[..n][..n - 1] == d.log.got[..n - 1];
      assert Done(d, n - 1);
    }
  }

  lemma {:induction false} TotalEmpty(got: seq<seq<Byte>>)
    requires forall i :: 0 <= i < |got| ==> got[i] == []
    ensures Total(got) == 0
  {
    if got != [] {
      TotalEmpty(got[..|got| - 1]);
    }
  }

  /** A completed transfer took an interrupt that can write for every word, and one that can read for every byte. */
  lemma {:induction false} CompletionTakes(msgs: seq<Message>, timeout: int, irqs: seq<Interrupt>)
    requires msgs != [] && AfterAll(Begun(msgs, timeout), irqs, |irqs|).log.completed
    ensures CountAll(irqs, WordCanGo) >= |Encode(msgs)| && CountAll(irqs, ByteIsThere) >= BytesDue(msgs)
  {
    var d := AfterAll(Begun(msgs, timeout), irqs, |irqs|);
    BegunHolds(msgs, timeout);
    AllHolds(Begun(msgs, timeout), irqs, |irqs|);
    HoldsDelivers(d);
    AllTakes(Begun(msgs, timeout), irqs, |irqs|);
    TotalDelivered(d, |msgs|);
    assert d.log.got[..|msgs|] == d.log.got;
    TotalEmpty(Begun(msgs, timeout).log.got);
  }

  // ----- exactly when it completes, if every interrupt finds everything ready

  /** A read takes its first byte with its address. */
  function Time(m: Message): nat { if m.read && m.buf != [] then |m.buf| else 1 + |m.buf| }

  function TimeFrom(msgs: seq<Message>, i: nat): (n: nat)
    decreases |msgs| - i
  {
    if i >= |msgs| then 0 else Time(msgs[i]) + TimeFrom(msgs, i + 1)
  }

  /** Whether the extra byte of a one-byte read is still expected after message m. */
  function OwedAfter(m: Message, owed: bool): bool { Single(m) || (m.read && |m.buf| >= 2 && owed) }

  /** The same at the beginning of the last message. */
  function OwedAtLast(msgs: seq<Message>, i: nat, owed: bool): bool
    decreases |msgs| - i
  {
    if i + 1 >= |msgs| then owed else OwedAtLast(msgs, i + 1, OwedAfter(msgs[i], owed))
  }

  /** A longer read at the end completes with its last byte; anything else takes one interrupt more. */
  function Extra(msgs: seq<Message>, i: nat, owed: bool): nat {
    if msgs != [] && msgs[|msgs| - 1].read && |msgs[|msgs| - 1].buf| >= 2 && !OwedAtLast(msgs, i, owed) then 0 else 1
  }

  function WholeTime(msgs: seq<Message>): nat { TimeFrom(msgs, 0) + Extra(msgs, 0, false) }

  function TimeLeft(d: Dev): (n: int) {
    if d.log.completed then 0
    else
      var m := if d.msg < |d.log.asked| then d.log.asked[d.msg] else Message(0, false, []);
      TimeFrom(d.log.asked, d.msg + 1) + (if d.pos < 0 then Time(m) else d.cnt) +
      if d.pos >= 0 && d.cnt == 0 then 1 else Extra(d.log.asked, d.msg, d.needFlush)
  }

  /** After a ready interrupt's sending and taking, before the next message is looked at. */
  lemma ExchangeTime(d: Dev, irq: Interrupt)
    requires Holds(d) && Ready(irq) && !d.log.completed
    ensures var e := Exchanged(d, irq);
      && e.msg == d.msg && e.rem == d.rem && !e.log.completed && e.log.asked == d.log.asked
      && e.pos >= 0 && e.cnt >= 0
      && e.cnt == (if d.pos < 0 then Time(d.log.asked[d.msg]) else if d.cnt == 0 then 1 else d.cnt) - 1
      && (d.pos < 0 ==> e.needFlush == OwedAfter(d.log.asked[d.msg], d.needFlush))
      && (d.pos >= 0 && (d.cnt == 0 || !d.log.asked[d.msg].read) ==> !e.needFlush)
      && (d.pos >= 0 && d.cnt != 0 && d.log.asked[d.msg].read ==>
            e.needFlush == (d.needFlush || Single(d.log.asked[d.msg])))
  {
    CurrentIs(d);
    FillHolds(d);
    CurrentIs(AfterFill(d));
  }

  /** Every ready interrupt brings completion nearer by exactly one. */
  lemma ReadyTime(d: Dev, irq: Interrupt)
    requires Holds(d) && Waiting(d) && Ready(irq) && !d.log.completed
    ensures TimeLeft(AfterInterrupt(d, irq)) == TimeLeft(d) - 1
  {
    hide AfterFill, AfterRead;
    CurrentIs(d);
    var e := Exchanged(d, irq);
    ExchangeTime(d, irq);
    ExchangedHolds(d, irq);
    hide Exchanged;
    if e.cnt == 0 && e.rem > 1 {
      AdvancedHolds(e);
      CurrentIs(Advanced(e));
    }
  }

  lemma TimePositive(d: Dev)
    requires Holds(d) && Waiting(d) && !d.log.completed
    ensures TimeLeft(d) >= 1
  {
  }

  predicate AllReady(irqs: seq<Interrupt>) { forall k :: 0 <= k < |irqs| ==> Ready(irqs[k]) }

  lemma BegunTime(msgs: seq<Message>, timeout: int)
    requires msgs != []
    ensures var d := Begun(msgs, timeout);
      Holds(d) && Waiting(d) && !d.log.completed && TimeLeft(d) == WholeTime(msgs) && WholeTime(msgs) >= 1
  {
    BegunHolds(msgs, timeout);
    TimePositive(Begun(msgs, timeout));
  }

  lemma {:induction false} AllTime(msgs: seq<Message>, timeout: int, irqs: seq<Interrupt>, n: nat)
    requires msgs != [] && AllReady(irqs) && n <= |irqs|
    ensures var d := AfterAll(Begun(msgs, timeout), irqs, n);
      && Holds(d) && Waiting(d) && (d.log.completed <==> n >= WholeTime(msgs))
      && (!d.log.completed ==> TimeLeft(d) == WholeTime(msgs) - n)
  {
    BegunTime(msgs, timeout);
    hide AfterInterrupt, TimeLeft, WholeTime, Holds, Waiting, Begun;
    if n > 0 {
      AllTime(msgs, timeout, irqs, n - 1);
      var d := AfterAll(Begun(msgs, timeout), irqs, n - 1);
      InterruptLeft(d, irqs[n - 1]);
      InterruptHolds(d, irqs[n - 1]);
      if !d.log.completed {
        ReadyTime(d, irqs[n - 1]);
        if !AfterInterrupt(d, irqs[n - 1]).log.completed {
          TimePositive(AfterInterrupt(d, irqs[n - 1]));
        }
      }
    }
  }

  /** If every interrupt finds everything ready, the transfer completes with this many and no fewer. */
  lemma {:induction false} CompletesExactly(msgs: seq<Message>, timeout: int, irqs: seq<Interrupt>)
    requires msgs != [] && AllReady(irqs)
    ensures AfterAll(Begun(msgs, timeout), irqs, |irqs|).log.completed <==> |irqs| >= WholeTime(msgs)
  {
    AllTime(msgs, timeout, irqs, |irqs|);
  }

  // ----- the result

  /** What the caller is told. */
  function Result(d: Dev): int { if d.timeout == ERR_TIMED_OUT then ERR_TIMED_OUT else d.ret }

  lemma {:induction false} ResultAfter(msgs: seq<Message>, timeout: int, irqs: seq<Interrupt>)
    requires msgs != []
    ensures var d := AfterAll(Begun(msgs, timeout), irqs, |irqs|);
      Result(d) == |msgs| <==> NoError(irqs) && (d.log.completed || timeout != ERR_TIMED_OUT)
  {
    BegunHolds(msgs, timeout);
    AllHolds(Begun(msgs, timeout), irqs, |irqs|);
  }

  /**
    When the count of messages is returned.  Without a timeout left over from an earlier transfer
    it says that no interrupt reported an error, and nothing more; with one, it also takes
    completion, and so an interrupt for every word and byte.  Once enough interrupts found
    everything ready it can be trusted either way.
  */
  lemma {:induction false} ResultMeans(msgs: seq<Message>, timeout: int, irqs: seq<Interrupt>)
    requires msgs != []
    ensures var d := AfterAll(Begun(msgs, timeout), irqs, |irqs|);
      && (timeout != ERR_TIMED_OUT ==> (Result(d) == |msgs| <==> NoError(irqs)))
      && (timeout == ERR_TIMED_OUT && Result(d) == |msgs| ==>
            NoError(irqs) && Delivered(d) &&
            CountAll(irqs, WordCanGo) >= |Encode(msgs)| && CountAll(irqs, ByteIsThere) >= BytesDue(msgs))
      && (timeout == ERR_TIMED_OUT && AllReady(irqs) ==> (Result(d) == |msgs| <==> |irqs| >= WholeTime(msgs)))
      && (CountAll(irqs, EverythingReady) >= Enough(msgs) ==> (Result(d) == |msgs| <==> NoError(irqs)))
      && (CountAll(irqs, EverythingReady) >= Enough(msgs) && Result(d) == |msgs| ==> Delivered(d))
  {
    var d := AfterAll(Begun(msgs, timeout), irqs, |irqs|);
    ResultAfter(msgs, timeout, irqs);
    TransferDelivers(msgs, timeout, irqs);
    if d.log.completed {
      CompletionTakes(msgs, timeout, irqs);
    }
    if AllReady(irqs) {
      CompletesExactly(msgs, timeout, irqs);
    }
    if NoError(irqs) && CountAll(irqs, EverythingReady) >= Enough(msgs) {
      ReadyCompletes(msgs, timeout, irqs);
    }
  }

  /** With the write buffer full throughout, nothing is sent and success is reported. */
  lemma SuccessWithoutTransfer(msgs: seq<Message>)
    requires msgs != []
    ensures var d := AfterAll(Begun(msgs, 0), [Interrupt(WR_BUFFER_FULL, 0)], 1);
      Result(d) == |msgs| && d.log.sent == [] && !d.log.completed
  {
  }

  /** A write is sent whole without any error, yet after an earlier timeout it is reported as timed out. */
  lemma OldTimeoutFails(addr: Address, byte: Byte)
    ensures var msgs, irq := [Message(addr, false, [byte])], Interrupt(0, 0);
      var d := AfterAll(Begun(msgs, ERR_TIMED_OUT), [irq, irq], 2);
      Result(d) == ERR_TIMED_OUT && NoError([irq, irq]) && d.log.sent == Encode(msgs)
  {
    var msgs, irq := [Message(addr, false, [byte])], Interrupt(0, 0);
    var d0 := Begun(msgs, ERR_TIMED_OUT);
    var d1 := AfterInterrupt(d0, irq);
    assert AfterAll(d0, [irq, irq], 0) == d0;
    assert AfterAll(d0, [irq, irq], 1) == d1;
    BegunHolds(msgs, ERR_TIMED_OUT);
    InterruptHolds(d0, irq);
    InterruptHolds(d1, irq);
    SentWhole(msgs, 0);
  }

  /** The driver's device record, changed in place by every interrupt. */
  class Controller {
    var msgs: seq<Message>
    var busy: bool
    var msg: nat
    var rem: int
    var pos: int
    var cnt: int
    var ret: int
    var needFlush: bool
    var flushCnt: nat
    var timeout: int
    ghost var log: Log

    constructor ()
      ensures !busy && timeout == 0
    {
      msgs, busy, needFlush := [], false, false;
      msg, flushCnt := 0, 0;
      rem, pos, cnt, ret, timeout := 0, 0, 0, 0, 0;
      log := Log([], [], [], [], 0, 0, false, false, 0);
    }

    ghost function Now(): Dev
      reads this
    {
      Dev(log, msgs, msg, rem, pos, cnt, ret, needFlush, flushCnt, timeout)
    }

    method FillWriteBuffer() returns (more: bool)
      requires Holds(Now())
      modifies this`log, this`pos, this`cnt
      ensures Now() == AfterFill(old(Now())) && more == CanSend(old(Now()))
    {
      CurrentIs(Now());
      if pos < 0 {
        var val := ADDR_BYTE + 2 * msgs[msg].addr;
        if msgs[msg].read {
          val := val + 1;
        }
        if rem == 1 && |msgs[msg].buf| == 0 {
          val := val + LAST_BYTE;
        }
        log := Sent(log, val);
        pos := pos + 1;
        return true;
      }
      if msgs[msg].read {
        return false;
      }
      if cnt == 0 {
        return false;
      }
      var val: nat := msgs[msg].buf[pos];
      if cnt == 1 && rem == 1 {
        val := val + LAST_BYTE;
      }
      log := Sent(log, val);
      pos := pos + 1;
      cnt := cnt - 1;
      return true;
    }

    method ReadBuffer(byte: Byte)
      requires Holds(Now())
      modifies this`log, this`msgs, this`pos, this`cnt, this`needFlush, this`flushCnt
      ensures Now() == AfterRead(old(Now()), byte)
    {
      CurrentIs(Now());
      if msgs[msg].read && pos >= 0 && cnt != 0 {
        ghost var stops: nat := 0;
        if cnt == 1 {
          if pos == 0 {
            needFlush := true;
            stops := 1;
          }
        } else if cnt == 2 {
          stops := 1;
        }
        msgs := msgs[msg := msgs[msg].(buf := msgs[msg].buf[pos := byte])];
        log := Kept(log, msg, byte, stops);
        cnt := cnt - 1;
        pos := pos + 1;
      } else {
        log := Dropped(log, if flushCnt % 2 == 1 then 1 else 0);
        if needFlush {
          needFlush := false;
        } else {
          flushCnt := flushCnt + 1;
        }
      }
    }

    /** One interrupt; without a transfer there is nothing to do. */
    method InterruptLocked(irq: Interrupt)
      requires busy ==> Holds(Now())
      modifies this
      ensures busy == old(busy) && (busy ==> Holds(Now()))
      ensures Now() == if busy then AfterInterrupt(old(Now()), irq) else old(Now())
    {
      hide Holds, Exchanged, AfterNext, CanSend, CanWrite, CanRead;
      if !busy {
        return;
      }
      InterruptHolds(Now(), irq);
      if irq.status & ERROR_MASK != 0 {
        ret := ERROR;
        timeout := ERR_TIMED_OUT;
        log := log.(failed := true);
        return;
      }
      ExchangedHolds(Now(), irq);
      var notDone := Exchange(irq);
      NextMessage(notDone);
    }

    /** Send and take what the status register allows; notDone unless there was nothing left to send. */
    method Exchange(irq: Interrupt) returns (notDone: bool)
      requires Holds(Now())
      modifies this`log, this`msgs, this`pos, this`cnt, this`needFlush, this`flushCnt
      ensures Now() == Exchanged(old(Now()), irq) && notDone == (CanWrite(irq) ==> CanSend(old(Now())))
    {
      notDone := true;
      FillHolds(Now());
      if irq.status & WR_BUFFER_FULL == 0 {
        notDone := FillWriteBuffer();
      }
      if irq.status & RD_BUFFER_FULL != 0 {
        ReadBuffer(irq.byte);
      }
    }

    method NextMessage(notDone: bool)
      requires Holds(Now())
      modifies this`log, this`rem, this`msg, this`pos, this`cnt, this`timeout
      ensures Now() == AfterNext(old(Now()), notDone)
    {
      if pos >= 0 && cnt == 0 {
        if rem > 1 {
          rem := rem - 1;
          msg := msg + 1;
          pos := -1;
          cnt := |msgs[msg].buf|;
        } else if !notDone && !needFlush {
          timeout := 0;
          log := log.(completed := true);
        }
      }
    }

    method Start(messages: seq<Message>)
      requires messages != []
      modifies this
      ensures busy && Now() == Begun(messages, old(timeout))
    {
      log := Begun(messages, timeout).log;
      msgs, busy := messages, true;
      msg := 0;
      rem := |messages|;
      pos := -1;
      ret := |messages|;
      needFlush := false;
      flushCnt := 0;
      cnt := |messages[0].buf|;
    }

    /** A whole transfer, during which the given interrupts arrive; the messages are returned as they are left. */
    method Xfer(messages: seq<Message>, irqs: seq<Interrupt>) returns (result: int, left: seq<Message>)
      requires messages != []
      modifies this
      ensures var d := AfterAll(Begun(messages, old(timeout)), irqs, |irqs|);
        !busy && log == d.log && timeout == d.timeout && left == d.msgs && result == Result(d)
      ensures HeardSoFar(Hear(log.sent), messages)
      ensures log.completed ==> Hear(log.sent) == SaidOf(messages, |messages|)
      ensures result == |messages| || result == -1 || result == -13
    {
      TransferDelivers(messages, timeout, irqs);
      hide HeardSoFar, Hear, SaidOf, Delivered, Encode;
      Start(messages);
      BegunHolds(messages, timeout);
      ghost var start := Now();
      for k := 0 to |irqs|
        invariant busy && Holds(Now()) && Now() == AfterAll(start, irqs, k)
      {
        InterruptLocked(irqs[k]);
      }
      left := msgs;
      result := ret;
      busy := false;
      rem, pos, ret, flushCnt, cnt := 0, 0, 0, 0, 0;
      if timeout == ERR_TIMED_OUT {
        result := ERR_TIMED_OUT;
      }
    }
  }
}
