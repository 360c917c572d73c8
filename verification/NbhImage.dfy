/**
  HTC ROM images (yang.c, nbhextract.c, nbh.c): a table of sections, the DBH, is cut
  into signed blocks, the NBH, and put together again.  An unsigned long has four bytes.
*/
module NbhImage {

  type Byte = b: nat | b < 0x100

  const WORD: nat := 0x1_0000_0000
  const SECTIONS: nat := 32
  const SIGN_LEN: nat := 128
  const MAGIC_LEN: nat := 32
  const HEADER_LEN: nat := 480
  const NEW_FORMAT_LEN: nat := 999999999

  // ----- words, little end first

  function LE4(n: nat): (bytes: seq<Byte>)
    ensures |bytes| == 4
  {
    [n % 0x100, n / 0x100 % 0x100, n / 0x1_0000 % 0x100, n / 0x100_0000 % 0x100]
  }

  /** The number in n bytes from p on. */
  function Number(bytes: seq<Byte>, p: nat, n: nat): nat
    decreases n, bytes
  {
    if n == 0 || p >= |bytes| then 0 else bytes[p] + 0x100 * Number(bytes, p + 1, n - 1)
  }

  function WordAt(bytes: seq<Byte>, p: nat): nat { Number(bytes, p, 4) }

  function Zeros(n: nat): (bytes: seq<Byte>)
    ensures |bytes| == n
  {
    seq(n, _ => 0)
  }

  /** A text copied into a field of n bytes, cut off or filled up with zeros. */
  function Padded(text: seq<Byte>, n: nat): (bytes: seq<Byte>)
    ensures |bytes| == n
  {
    if |text| >= n then text[..n] else text + Zeros(n - |text|)
  }

  predicate SameAt(bytes: seq<Byte>, p: nat, x: seq<Byte>, k: nat)
    requires k < |x| && p + |x| <= |bytes|
  {
    bytes[p + k] == x[k]
  }

  /** x stands in bytes at p. */
  predicate At(bytes: seq<Byte>, p: nat, x: seq<Byte>) {
    p + |x| <= |bytes| && forall k :: 0 <= k < |x| ==> SameAt(bytes, p, x, k)
  }

  lemma AtSplit(bytes: seq<Byte>, p: nat, a: seq<Byte>, b: seq<Byte>)
    requires At(bytes, p, a + b)
    ensures At(bytes, p, a) && At(bytes, p + |a|, b)
  {
    forall k | 0 <= k < |a|
      ensures SameAt(bytes, p, a, k)
    {
      assert SameAt(bytes, p, a + b, k);
    }
    var q := p + |a|;
    forall k | 0 <= k < |b|
      ensures SameAt(bytes, q, b, k)
    {
      assert SameAt(bytes, p, a + b, |a| + k);
    }
  }

  lemma AtFront(x: seq<Byte>, back: seq<Byte>)
    ensures At(x + back, 0, x)
  {
  }

  lemma AtBack(front: seq<Byte>, x: seq<Byte>)
    ensures At(front + x, |front|, x)
  {
  }

  lemma AtSelf(x: seq<Byte>)
    ensures At(x, 0, x)
  {
  }

  lemma AtInside(bytes: seq<Byte>, p: nat, x: seq<Byte>, q: nat, y: seq<Byte>)
    requires At(bytes, p, x) && At(x, q, y)
    ensures At(bytes, p + q, y)
  {
    var r := p + q;
    forall k | 0 <= k < |y|
      ensures SameAt(bytes, r, y, k)
    {
      assert SameAt(x, q, y, k) && SameAt(bytes, p, x, q + k);
    }
  }

  lemma WordRoundTrip(bytes: seq<Byte>, p: nat, n: nat)
    requires At(bytes, p, LE4(n)) && n < WORD
    ensures WordAt(bytes, p) == n
  {
    assert SameAt(bytes, p, LE4(n), 0) && SameAt(bytes, p, LE4(n), 1);
    assert SameAt(bytes, p, LE4(n), 2) && SameAt(bytes, p, LE4(n), 3);
    assert Number(bytes, p + 3, 1) == bytes[p + 3] by { assert Number(bytes, p + 4, 0) == 0; }
    assert Number(bytes, p + 2, 2) == bytes[p + 2] + 0x100 * Number(bytes, p + 3, 1);
    assert Number(bytes, p + 1, 3) == bytes[p + 1] + 0x100 * Number(bytes, p + 2, 2);
    FourBytes(n);
  }

  lemma FourBytes(n: nat)
    requires n < WORD
    ensures n == n % 0x100 + 0x100 * (n / 0x100 % 0x100) + 0x1_0000 * (n / 0x1_0000 % 0x100) +
      0x100_0000 * (n / 0x100_0000 % 0x100)
  {
  }

  function Min(a: nat, b: nat): nat { if a < b then a else b }

  lemma AppendNothing(x: seq<Byte>)
    ensures x + [] == x
  {
  }

  lemma Associate(a: seq<Byte>, b: seq<Byte>, c: seq<Byte>)
    ensures a + (b + c) == (a + b) + c
  {
  }

  /** At most n bytes from p on. */
  function Available(bytes: seq<Byte>, p: nat, n: nat): (r: seq<Byte>)
    decreases n, bytes
  {
    if n == 0 || p >= |bytes| then [] else [bytes[p]] + Available(bytes, p + 1, n - 1)
  }

  lemma {:induction false} AvailableIs(bytes: seq<Byte>, p: nat, n: nat)
    requires p <= |bytes|
    ensures Available(bytes, p, n) == bytes[p..Min(p + n, |bytes|)]
    decreases n
  {
    if n > 0 && p < |bytes| {
      AvailableIs(bytes, p + 1, n - 1);
    }
  }

  lemma {:induction false} AvailableSum(bytes: seq<Byte>, p: nat, m: nat, n: nat)
    requires p + m <= |bytes|
    ensures Available(bytes, p, m) + Available(bytes, p + m, n) == Available(bytes, p, m + n)
    ensures |Available(bytes, p, m)| == m
    decreases m
  {
    if m > 0 {
      AvailableSum(bytes, p + 1, m - 1, n);
      Associate([bytes[p]], Available(bytes, p + 1, m - 1), Available(bytes, p + m, n));
    } else {
      assert [] + Available(bytes, p, n) == Available(bytes, p, n);
    }
  }

  lemma AtAvailable(bytes: seq<Byte>, p: nat, x: seq<Byte>)
    requires At(bytes, p, x)
    ensures Available(bytes, p, |x|) == x
  {
    AvailableIs(bytes, p, |x|);
    var r := bytes[p..p + |x|];
    forall k | 0 <= k < |x|
      ensures r[k] == x[k]
    {
      assert SameAt(bytes, p, x, k);
    }
  }

  // ----- the table of sections

  /** What the command line gives: the names, and a type and a file for every section. */
  datatype Rom = Rom(
    device: seq<Byte>,
    cid: seq<Byte>,
    version: seq<Byte>,
    language: seq<Byte>,
    types: seq<nat>,
    files: seq<seq<Byte>>)

  function Magic(): (bytes: seq<Byte>)
    ensures |bytes| == MAGIC_LEN
  {
    LE4(0x48) + LE4(0x54) + LE4(0x43) + LE4(0x49) + LE4(0x4D) + LE4(0x41) + LE4(0x47) + LE4(0x45)
  }

  /** The length of the first n files. */
  function LengthTo(files: seq<seq<Byte>>, n: nat): nat {
    if n == 0 || n > |files| then 0 else LengthTo(files, n - 1) + |files[n - 1]|
  }

  function Offset(files: seq<seq<Byte>>, i: nat): nat {
    if i < |files| then MAGIC_LEN + HEADER_LEN + LengthTo(files, i) else 0
  }

  function Length(files: seq<seq<Byte>>, i: nat): nat { if i < |files| then |files[i]| else 0 }

  function Type(types: seq<nat>, i: nat): nat { if i < |types| then types[i] else 0 }

  /** A table of n words. */
  function Table(words: seq<nat>, n: nat): (bytes: seq<Byte>)
    ensures |bytes| == 4 * n
  {
    if n == 0 then [] else Table(words, n - 1) + LE4(Type(words, n - 1))
  }

  function Offsets(rom: Rom): seq<nat> { seq(|rom.files|, (i: nat) => Offset(rom.files, i)) }

  function Lengths(rom: Rom): seq<nat> { seq(|rom.files|, (i: nat) => Length(rom.files, i)) }

  function Header(rom: Rom): (bytes: seq<Byte>)
    ensures |bytes| == HEADER_LEN
  {
    Padded(rom.device, 32) + Table(rom.types, SECTIONS) + Table(Offsets(rom), SECTIONS) +
    Table(Lengths(rom), SECTIONS) + Padded(rom.cid, 32) + Padded(rom.version, 16) + Padded(rom.language, 16)
  }

  /** The first n files, one after the other. */
  function FilesTo(files: seq<seq<Byte>>, n: nat): (bytes: seq<Byte>) {
    if n == 0 || n > |files| then [] else FilesTo(files, n - 1) + files[n - 1]
  }

  function Dbh(rom: Rom): (bytes: seq<Byte>) { Magic() + Header(rom) + FilesTo(rom.files, |rom.files|) }

  // ----- signed blocks

  function Block(payload: seq<Byte>, flag: Byte): (bytes: seq<Byte>) {
    LE4(|payload|) + (LE4(SIGN_LEN) + ([flag] + (payload + Zeros(SIGN_LEN))))
  }

  /** The blocks for what follows `at`; the first one is written even when nothing does. */
  function Blocks(data: seq<Byte>, chunk: nat, at: nat): (bytes: seq<Byte>)
    requires chunk > 0 && at <= |data|
    decreases |data| - at
  {
    var lps := Min(|data| - at, chunk);
    var first := Block(Available(data, at, lps), 1);
    if at + lps < |data| then first + Blocks(data, chunk, at + lps) else first
  }

  function Preamble(): (bytes: seq<Byte>)
    ensures |bytes| == 7
  {
    [0x52, 0x30, 0x30, 0x30, 0x46, 0x46, 0x0A]
  }

  function InitialSignature(): (bytes: seq<Byte>)
    ensures |bytes| == 16
  {
    [0x58, 0x44, 0x41, 0x2D, 0x44, 0x65, 0x76, 0x65, 0x6C, 0x6F, 0x70, 0x65, 0x72, 0x73, 0x21, 0x20]
  }

  function Nbh(dbh: seq<Byte>, chunk: nat): (bytes: seq<Byte>)
    requires chunk > 0
  {
    Preamble() + (InitialSignature() + (Blocks(dbh, chunk, 0) + Block([], 2)))
  }

  // ----- putting the blocks together again

  /** What one block adds, and where the next one starts, if there is one. */
  datatype Step = Stop(data: seq<Byte>) | More(data: seq<Byte>, next: nat)

  /** Read a block; the first block of the new format claims to be longer than any file. */
  function ReadBlock(bytes: seq<Byte>, p: nat, oversize: bool): (s: Step)
    ensures s.More? ==> p < s.next <= |bytes|
  {
    if p + 9 > |bytes| then Stop([])
    else
      var blockLen := if oversize then NEW_FORMAT_LEN else WordAt(bytes, p);
      var signLen, flag := WordAt(bytes, p + 4), Number(bytes, p + 8, 1);
      var data := Available(bytes, p + 9, blockLen);
      if |data| < blockLen || p + 9 + blockLen + signLen > |bytes| || flag == 2 then Stop(data)
      else More(data, p + 9 + blockLen + signLen)
  }

  function Unblocked(bytes: seq<Byte>, p: nat, oversize: bool): (data: seq<Byte>)
    decreases |bytes| - p
  {
    match ReadBlock(bytes, p, oversize)
    case Stop(data) => data
    case More(data, next) => data + Unblocked(bytes, next, false)
  }

  /** A file that is too short to hold the magic and the initial signature is rejected. */
  function ExtractDbh(nbh: seq<Byte>): (r: Option<seq<Byte>>) {
    var initSign := if At(nbh, 0, Preamble()) then 16 else 240;
    if 7 + initSign > |nbh| then None else Some(Unblocked(nbh, 7 + initSign, initSign != 16))
  }

  datatype Option<T> = None | Some(value: T)

  // ----- taking the sections out

  /** An extracted file; incomplete when the image ends before it does. */
  datatype Section = Section(index: nat, kind: nat, data: seq<Byte>, complete: bool)

  const TYPES_AT: nat := MAGIC_LEN + 32
  const OFFSETS_AT: nat := TYPES_AT + 4 * SECTIONS
  const LENGTHS_AT: nat := OFFSETS_AT + 4 * SECTIONS

  function SectionAt(dbh: seq<Byte>, i: nat): (s: Section) {
    var start, len := WordAt(dbh, OFFSETS_AT + 4 * i), WordAt(dbh, LENGTHS_AT + 4 * i);
    var data := Available(dbh, start, len);
    Section(i, WordAt(dbh, TYPES_AT + 4 * i), data, |data| == len)
  }

  predicate Wanted(dbh: seq<Byte>, i: nat) { i + 50 < 95 && WordAt(dbh, TYPES_AT + 4 * i) != 0 && i != 31 }

  /** The first n entries of the table; those of type zero, and the last, are passed over. */
  function SectionsTo(dbh: seq<Byte>, n: nat): (sections: seq<Section>) {
    if n == 0 then []
    else SectionsTo(dbh, n - 1) + if Wanted(dbh, n - 1) then [SectionAt(dbh, n - 1)] else []
  }

  function ExtractSections(dbh: seq<Byte>): (r: Option<seq<Section>>) {
    if At(dbh, 0, Magic()) && |dbh| >= MAGIC_LEN + HEADER_LEN then Some(SectionsTo(dbh, SECTIONS)) else None
  }

  // ----- the round trip

  lemma BlockRead(bytes: seq<Byte>, p: nat, payload: seq<Byte>, flag: Byte)
    requires At(bytes, p, Block(payload, flag)) && |payload| < WORD
    ensures ReadBlock(bytes, p, false) == if flag == 2 then Stop(payload) else More(payload, BlockEnd(p, |payload|))
  {
    AtSplit(bytes, p, LE4(|payload|), LE4(SIGN_LEN) + ([flag] + (payload + Zeros(SIGN_LEN))));
    AtSplit(bytes, p + 4, LE4(SIGN_LEN), [flag] + (payload + Zeros(SIGN_LEN)));
    AtSplit(bytes, p + 8, [flag], payload + Zeros(SIGN_LEN));
    AtSplit(bytes, p + 9, payload, Zeros(SIGN_LEN));
    WordRoundTrip(bytes, p, |payload|);
    WordRoundTrip(bytes, p + 4, SIGN_LEN);
    AtAvailable(bytes, p + 9, payload);
    assert SameAt(bytes, p + 8, [flag], 0) && Number(bytes, p + 9, 0) == 0;
  }

  function BlockEnd(p: nat, len: nat): nat { p + 9 + len + SIGN_LEN }

  /** A block that is not the last one: its payload is taken, and reading goes on behind it. */
  lemma InnerBlock(bytes: seq<Byte>, p: nat, payload: seq<Byte>)
    requires At(bytes, p, Block(payload, 1)) && |payload| < WORD
    ensures Unblocked(bytes, p, false) == payload + Unblocked(bytes, BlockEnd(p, |payload|), false)
  {
    BlockRead(bytes, p, payload, 1);
  }

  lemma LastBlock(bytes: seq<Byte>, p: nat)
    requires At(bytes, p, Block([], 2))
    ensures Unblocked(bytes, p, false) == []
  {
    BlockRead(bytes, p, [], 2);
  }

  function Next(data: seq<Byte>, chunk: nat, at: nat): nat
    requires chunk > 0 && at <= |data|
  {
    at + Min(|data| - at, chunk)
  }

  lemma BlocksSplit(bytes: seq<Byte>, p: nat, data: seq<Byte>, chunk: nat, at: nat)
    requires chunk > 0 && at <= |data| && At(bytes, p, Blocks(data, chunk, at))
    ensures var next := Next(data, chunk, at);
      At(bytes, p, Block(Available(data, at, next - at), 1)) &&
      if next < |data| then At(bytes, BlockEnd(p, next - at), Blocks(data, chunk, next))
      else p + |Blocks(data, chunk, at)| == BlockEnd(p, next - at)
  {
    var next := Next(data, chunk, at);
    var first := Block(Available(data, at, next - at), 1);
    AvailableSum(data, at, next - at, 0);
    if next < |data| {
      AtSplit(bytes, p, first, Blocks(data, chunk, next));
    }
  }

  lemma BlocksLength(data: seq<Byte>, chunk: nat, at: nat)
    requires chunk > 0 && at <= |data|
    ensures var next := Next(data, chunk, at);
      |Blocks(data, chunk, at)| == BlockEnd(0, next - at) + if next < |data| then |Blocks(data, chunk, next)| else 0
  {
    AvailableSum(data, at, Next(data, chunk, at) - at, 0);
  }

  /** From p on, reading gives the data and then whatever it gives from q on. */
  predicate Reads(bytes: seq<Byte>, p: nat, data: seq<Byte>, q: nat) {
    Unblocked(bytes, p, false) == data + Unblocked(bytes, q, false)
  }

  lemma ReadsOn(bytes: seq<Byte>, p: nat, a: seq<Byte>, q: nat, b: seq<Byte>, r: nat)
    requires Reads(bytes, p, a, q) && Reads(bytes, q, b, r)
    ensures Reads(bytes, p, a + b, r)
  {
  }

  lemma BlocksStep(bytes: seq<Byte>, p: nat, data: seq<Byte>, chunk: nat, at: nat)
    requires chunk > 0 && at <= |data| < WORD && At(bytes, p, Blocks(data, chunk, at))
    ensures var next := Next(data, chunk, at);
      Reads(bytes, p, Available(data, at, next - at), BlockEnd(p, next - at))
    ensures var next := Next(data, chunk, at);
      if next < |data|
      then At(bytes, BlockEnd(p, next - at), Blocks(data, chunk, next)) &&
           p + |Blocks(data, chunk, at)| == BlockEnd(p, next - at) + |Blocks(data, chunk, next)|
      else p + |Blocks(data, chunk, at)| == BlockEnd(p, next - at)
  {
    var n := Next(data, chunk, at) - at;
    BlocksSplit(bytes, p, data, chunk, at);
    BlocksLength(data, chunk, at);
    AvailableSum(data, at, n, 0);
    InnerBlock(bytes, p, Available(data, at, n));
  }

  /** Reading the blocks of what follows `at` gives just that, and goes on behind them. */
  lemma {:induction false} BlocksRead(bytes: seq<Byte>, p: nat, data: seq<Byte>, chunk: nat, at: nat)
    requires chunk > 0 && at <= |data| < WORD && At(bytes, p, Blocks(data, chunk, at))
    ensures Reads(bytes, p, Available(data, at, |data| - at), p + |Blocks(data, chunk, at)|)
    decreases |data| - at
  {
    hide At, Available, Reads, Blocks, BlockEnd, Block;
    var next, end := Next(data, chunk, at), p + |Blocks(data, chunk, at)|;
    var q := BlockEnd(p, next - at);
    BlocksStep(bytes, p, data, chunk, at);
    if next < |data| {
      BlocksRead(bytes, q, data, chunk, next);
      var first, rest := Available(data, at, next - at), Available(data, next, |data| - next);
      ReadsOn(bytes, p, first, q, rest, end);
      assert first + rest == Available(data, at, |data| - at) by {
        AvailableSum(data, at, next - at, |data| - next);
      }
    }
  }

  /** Whatever the chunk size, the blocks give back the exact bytes. */
  lemma NbhRoundTrip(dbh: seq<Byte>, chunk: nat)
    requires chunk > 0 && |dbh| < WORD
    ensures ExtractDbh(Nbh(dbh, chunk)) == Some(dbh)
  {
    var nbh, blocks, last := Nbh(dbh, chunk), Blocks(dbh, chunk, 0), Block([], 2);
    AtSelf(nbh);
    AtSplit(nbh, 0, Preamble(), InitialSignature() + (blocks + last));
    AtSplit(nbh, 7, InitialSignature(), blocks + last);
    AtSplit(nbh, 23, blocks, last);
    BlocksRead(nbh, 23, dbh, chunk, 0);
    LastBlock(nbh, 23 + |blocks|);
    AvailableIs(dbh, 0, |dbh|);
    AppendNothing(dbh);
  }

  lemma {:induction false} TableWord(words: seq<nat>, n: nat, i: nat)
    requires i < n
    ensures At(Table(words, n), 4 * i, LE4(Type(words, i)))
  {
    var before, last := Table(words, n - 1), LE4(Type(words, n - 1));
    if i < n - 1 {
      TableWord(words, n - 1, i);
      AtFront(before, last);
      AtInside(Table(words, n), 0, before, 4 * i, LE4(Type(words, i)));
    } else {
      AtBack(before, last);
    }
  }

  /** Where the parts of the header stand in a DBH. */
  lemma HeaderParts(rom: Rom)
    ensures At(Dbh(rom), 0, Magic())
    ensures At(Dbh(rom), TYPES_AT, Table(rom.types, SECTIONS))
    ensures At(Dbh(rom), OFFSETS_AT, Table(Offsets(rom), SECTIONS))
    ensures At(Dbh(rom), LENGTHS_AT, Table(Lengths(rom), SECTIONS))
  {
  }

  lemma {:induction false} FileInside(files: seq<seq<Byte>>, n: nat, i: nat)
    requires i < n <= |files|
    ensures |FilesTo(files, n)| == LengthTo(files, n)
    ensures At(FilesTo(files, n), LengthTo(files, i), files[i])
  {
    var before, last := FilesTo(files, n - 1), files[n - 1];
    FilesLength(files, n - 1);
    if i < n - 1 {
      FileInside(files, n - 1, i);
      AtFront(before, last);
      AtInside(FilesTo(files, n), 0, before, LengthTo(files, i), files[i]);
    } else {
      AtBack(before, last);
    }
  }

  lemma {:induction false} FilesLength(files: seq<seq<Byte>>, n: nat)
    requires n <= |files|
    ensures |FilesTo(files, n)| == LengthTo(files, n)
  {
    if n > 0 {
      FilesLength(files, n - 1);
    }
  }

  lemma FileInDbh(rom: Rom, i: nat)
    requires i < |rom.files|
    ensures At(Dbh(rom), Offset(rom.files, i), rom.files[i])
  {
    var front, files := Magic() + Header(rom), FilesTo(rom.files, |rom.files|);
    FileInside(rom.files, |rom.files|, i);
    AtBack(front, files);
    AtInside(Dbh(rom), |front|, files, LengthTo(rom.files, i), rom.files[i]);
  }

  lemma WordInDbh(bytes: seq<Byte>, p: nat, words: seq<nat>, n: nat, i: nat)
    requires At(bytes, p, Table(words, n)) && i < n && Type(words, i) < WORD
    ensures WordAt(bytes, p + 4 * i) == Type(words, i)
  {
    TableWord(words, n, i);
    AtInside(bytes, p, Table(words, n), 4 * i, LE4(Type(words, i)));
    WordRoundTrip(bytes, p + 4 * i, Type(words, i));
  }

  lemma {:induction false} LengthGrows(files: seq<seq<Byte>>, i: nat, n: nat)
    requires i <= n <= |files|
    ensures LengthTo(files, i) <= LengthTo(files, n)
  {
    if i < n {
      LengthGrows(files, i, n - 1);
    }
  }

  /** A ROM the program can describe: at most 31 sections, each with a file, in less than 4 GB. */
  predicate Describable(rom: Rom) {
    |rom.types| == |rom.files| <= 31 && MAGIC_LEN + HEADER_LEN + LengthTo(rom.files, |rom.files|) < WORD &&
    forall i :: 0 <= i < |rom.types| ==> rom.types[i] < WORD
  }

  lemma EntryRead(rom: Rom, i: nat)
    requires Describable(rom) && i < SECTIONS
    ensures WordAt(Dbh(rom), TYPES_AT + 4 * i) == Type(rom.types, i)
    ensures WordAt(Dbh(rom), OFFSETS_AT + 4 * i) == Offset(rom.files, i)
    ensures WordAt(Dbh(rom), LENGTHS_AT + 4 * i) == Length(rom.files, i)
  {
    HeaderParts(rom);
    if i < |rom.files| {
      LengthGrows(rom.files, i, |rom.files|);
      LengthGrows(rom.files, i + 1, |rom.files|);
    }
    WordInDbh(Dbh(rom), TYPES_AT, rom.types, SECTIONS, i);
    WordInDbh(Dbh(rom), OFFSETS_AT, Offsets(rom), SECTIONS, i);
    WordInDbh(Dbh(rom), LENGTHS_AT, Lengths(rom), SECTIONS, i);
  }

  /** The sections of a ROM that have a type, in order, among its first n. */
  function SectionsOf(rom: Rom, n: nat): (sections: seq<Section>) {
    if n == 0 then []
    else if n > |rom.files| || Type(rom.types, n - 1) == 0 then SectionsOf(rom, n - 1)
    else SectionsOf(rom, n - 1) + [Section(n - 1, Type(rom.types, n - 1), rom.files[n - 1], true)]
  }

  lemma SectionRead(rom: Rom, i: nat)
    requires Describable(rom) && i < |rom.files|
    ensures SectionAt(Dbh(rom), i) == Section(i, rom.types[i], rom.files[i], true)
  {
    EntryRead(rom, i);
    FileInDbh(rom, i);
    AtAvailable(Dbh(rom), Offset(rom.files, i), rom.files[i]);
  }

  lemma {:induction false} SectionsRead(rom: Rom, n: nat)
    requires Describable(rom) && n <= SECTIONS
    ensures SectionsTo(Dbh(rom), n) == SectionsOf(rom, n)
  {
    if n > 0 {
      SectionsRead(rom, n - 1);
      EntryRead(rom, n - 1);
      if n <= |rom.files| {
        SectionRead(rom, n - 1);
      }
    }
  }

  /**
    Packing a ROM and extracting it gives back every section that has a type, with its exact
    contents, whatever the chunk size.
  */
  lemma PackThenExtract(rom: Rom, chunk: nat)
    requires Describable(rom) && chunk > 0
    ensures ExtractDbh(Nbh(Dbh(rom), chunk)) == Some(Dbh(rom))
    ensures ExtractSections(Dbh(rom)) == Some(SectionsOf(rom, SECTIONS))
  {
    FilesLength(rom.files, |rom.files|);
    NbhRoundTrip(Dbh(rom), chunk);
    HeaderParts(rom);
    SectionsRead(rom, SECTIONS);
  }

  /** With a type for every section, every section comes back. */
  lemma {:induction false} EverySectionComesBack(rom: Rom, n: nat)
    requires |rom.types| == |rom.files| && forall i :: 0 <= i < |rom.types| ==> rom.types[i] != 0
    ensures |SectionsOf(rom, n)| == Min(n, |rom.files|)
    ensures forall i :: 0 <= i < |SectionsOf(rom, n)| ==>
      SectionsOf(rom, n)[i] == Section(i, rom.types[i], rom.files[i], true)
  {
    if n > 0 {
      EverySectionComesBack(rom, n - 1);
    }
  }
}
