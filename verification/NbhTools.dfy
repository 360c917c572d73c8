/** The programs: yang's packer, the extractor, and the copy loop they share. */
module NbhTools {
  import opened NbhImage

  const BUFFER_LEN: nat := 2048

  /** An open file: its contents and the place to read next. */
  class File {
    var bytes: seq<Byte>
    var pos: nat

    constructor (bytes: seq<Byte>)
      ensures this.bytes == bytes && pos == 0
    {
      this.bytes := bytes;
      pos := 0;
    }

    /** As much of n bytes as there is. */
    method Read(n: nat) returns (got: seq<Byte>)
      modifies this`pos
      ensures got == Available(bytes, old(pos), n) && pos == old(pos) + |got|
      ensures |got| == Left(bytes, old(pos), n)
    {
      got := if pos >= |bytes| then [] else bytes[pos..Min(pos + n, |bytes|)];
      if pos <= |bytes| {
        AvailableIs(bytes, pos, n);
      }
      pos := pos + |got|;
    }

    method Write(x: seq<Byte>)
      modifies this`bytes
      ensures bytes == old(bytes) + x
    {
      bytes := bytes + x;
    }

    method Seek(start: nat)
      modifies this`pos
      ensures pos == start
    {
      pos := start;
    }
  }

  function Left(bytes: seq<Byte>, p: nat, n: nat): nat { if p >= |bytes| then 0 else Min(n, |bytes| - p) }

  lemma AvailableSplit(bytes: seq<Byte>, p: nat, m: nat, n: nat)
    requires m <= n
    ensures |Available(bytes, p, n)| == Left(bytes, p, n)
    ensures var k := Left(bytes, p, m);
      && k <= m && Left(bytes, p, n) == k + Left(bytes, p + k, n - k)
      && Available(bytes, p, n) == Available(bytes, p, m) + Available(bytes, p + k, n - k)
  {
    var k := Left(bytes, p, m);
    LeftIs(bytes, p, n);
    LeftIs(bytes, p, m);
    LeftIs(bytes, p + k, n - k);
    hide Available;
    if p < |bytes| {
      assert bytes[p..p + Left(bytes, p, n)] == bytes[p..p + k] + bytes[p + k..p + k + Left(bytes, p + k, n - k)];
    }
  }

  lemma LeftIs(bytes: seq<Byte>, p: nat, n: nat)
    ensures |Available(bytes, p, n)| == Left(bytes, p, n)
    ensures p >= |bytes| ==> Available(bytes, p, n) == []
    ensures p < |bytes| ==> Available(bytes, p, n) == bytes[p..p + Left(bytes, p, n)]
  {
    if p < |bytes| {
      AvailableIs(bytes, p, n);
    }
  }

  lemma NothingLeft(bytes: seq<Byte>, p: nat, m: nat, n: nat)
    requires 0 < m <= n && Left(bytes, p, m) == 0
    ensures Available(bytes, p, n) == [] && Left(bytes, p, n) == 0
  {
    LeftIs(bytes, p, n);
  }

  /** A copy under way: `left` bytes are still to come, from p on, behind what was written so far. */
  ghost predicate Copying(front: seq<Byte>, now: seq<Byte>, bytes: seq<Byte>, start: nat, length: nat,
                          p: nat, left: nat)
  {
    && left <= length && p == start + (length - left)
    && Left(bytes, start, length) == p - start + Left(bytes, p, left)
    && front + Available(bytes, start, length) == now + Available(bytes, p, left)
  }

  lemma CopyBegins(front: seq<Byte>, bytes: seq<Byte>, start: nat, length: nat)
    ensures Copying(front, front, bytes, start, length, start, length)
  {
  }

  lemma CopyGoesOn(front: seq<Byte>, now: seq<Byte>, bytes: seq<Byte>, start: nat, length: nat, p: nat, left: nat,
                   data: seq<Byte>, m: nat)
    requires Copying(front, now, bytes, start, length, p, left) && 0 < m <= left
    requires data == Available(bytes, p, m) && |data| == Left(bytes, p, m)
    ensures |data| <= left && Copying(front, now + data, bytes, start, length, p + |data|, left - |data|)
    ensures data == [] ==> Copied(front, now, bytes, start, length, p) && Left(bytes, start, length) < length
  {
    hide Available, Left;
    AvailableSplit(bytes, p, m, left);
    Associate(now, data, Available(bytes, p + |data|, left - |data|));
    if data == [] {
      NothingLeft(bytes, p, m, left);
      assert now + [] == now;
    }
  }

  /** The copy is made: all that was available was written, and read. */
  ghost predicate Copied(front: seq<Byte>, now: seq<Byte>, bytes: seq<Byte>, start: nat, length: nat, p: nat) {
    now == front + Available(bytes, start, length) && p == start + Left(bytes, start, length)
  }

  lemma CopyEnds(front: seq<Byte>, now: seq<Byte>, bytes: seq<Byte>, start: nat, length: nat, p: nat)
    requires Copying(front, now, bytes, start, length, p, 0)
    ensures Copied(front, now, bytes, start, length, p) && Left(bytes, start, length) == length
  {
    assert Available(bytes, p, 0) == [] && now + [] == now;
  }

  /** Copy `length` bytes through a small buffer; false when the input ends before that. */
  method BufferedReadWrite(input: File, output: File, length: nat) returns (ok: bool)
    requires input != output
    modifies input`pos, output`bytes
    ensures output.bytes == old(output.bytes) + Available(input.bytes, old(input.pos), length)
    ensures input.pos == old(input.pos) + Left(input.bytes, old(input.pos), length)
    ensures ok <==> Left(input.bytes, old(input.pos), length) == length
  {
    hide Copying, Available, Left;
    var left := length;
    ghost var bytes, start, front := input.bytes, input.pos, output.bytes;
    CopyBegins(front, bytes, start, length);
    while left > 0
      invariant input.bytes == bytes && 0 <= left
      invariant Copying(front, output.bytes, bytes, start, length, input.pos, left)
    {
      var nread := if left > BUFFER_LEN then BUFFER_LEN else left;
      ghost var p := input.pos;
      var data := input.Read(nread);
      CopyGoesOn(front, output.bytes, bytes, start, length, p, left, data, nread);
      if |data| == 0 {
        return false;
      }
      output.Write(data);
      left := left - |data|;
    }
    CopyEnds(front, output.bytes, bytes, start, length, input.pos);
    return true;
  }

  // ----- packing

  /** The table entries: where every file starts and how long it is. */
  method Measure(rom: Rom) returns (offsets: seq<nat>, lengths: seq<nat>)
    requires Describable(rom)
    ensures offsets == Offsets(rom) && lengths == Lengths(rom)
  {
    offsets, lengths := [], [];
    var offset := MAGIC_LEN + HEADER_LEN;
    for i := 0 to |rom.files|
      invariant |offsets| == |lengths| == i
      invariant offset == MAGIC_LEN + HEADER_LEN + LengthTo(rom.files, i)
      invariant forall j :: 0 <= j < i ==> offsets[j] == Offset(rom.files, j) && lengths[j] == Length(rom.files, j)
    {
      var sectionLen := |rom.files[i]|;
      LengthGrows(rom.files, i + 1, |rom.files|);
      offsets := offsets + [offset];
      lengths := lengths + [sectionLen];
      offset := (offset + sectionLen) % WORD;
    }
  }

  /** Write the DBH: the magic word, the header, and the files. */
  method WriteDbh(rom: Rom, dbh: File)
    requires Describable(rom) && dbh.bytes == []
    modifies dbh
    ensures dbh.bytes == Dbh(rom) && dbh.pos == old(dbh.pos)
  {
    var offsets, lengths := Measure(rom);
    dbh.Write(Magic());
    dbh.Write(Padded(rom.device, 32) + Table(rom.types, SECTIONS) + Table(offsets, SECTIONS) +
              Table(lengths, SECTIONS) + Padded(rom.cid, 32) + Padded(rom.version, 16) + Padded(rom.language, 16));
    AppendNothing(Magic() + Header(rom));
    for i := 0 to |rom.files|
      invariant dbh.bytes == Magic() + Header(rom) + FilesTo(rom.files, i) && dbh.pos == old(dbh.pos)
    {
      var nb := new File(rom.files[i]);
      AvailableIs(nb.bytes, 0, |nb.bytes|);
      Associate(Magic() + Header(rom), FilesTo(rom.files, i), rom.files[i]);
      var _ := BufferedReadWrite(nb, dbh, |nb.bytes|);
    }
  }

  method WriteBlock(input: File, output: File, lps: nat, flag: Byte)
    requires input != output && lps < WORD && input.pos + lps <= |input.bytes|
    modifies input`pos, output`bytes
    ensures output.bytes == old(output.bytes) + Block(Available(input.bytes, old(input.pos), lps), flag)
    ensures input.pos == old(input.pos) + lps
  {
    ghost var payload := Available(input.bytes, input.pos, lps);
    AvailableSum(input.bytes, input.pos, lps, 0);
    ghost var start := output.bytes;
    output.Write(LE4(lps));
    output.Write(LE4(SIGN_LEN));
    output.Write([flag]);
    var _ := BufferedReadWrite(input, output, lps);
    output.Write(Zeros(SIGN_LEN));
    BlockIs(start, payload, flag);
  }

  lemma BlockIs(start: seq<Byte>, payload: seq<Byte>, flag: Byte)
    ensures start + LE4(|payload|) + LE4(SIGN_LEN) + [flag] + payload + Zeros(SIGN_LEN) == start + Block(payload, flag)
  {
  }

  /** Cut the DBH into blocks, the first of them even if there is nothing to cut, and end with an empty one. */
  method WriteNbh(dbh: File, nbh: File, blockLen: nat)
    requires dbh != nbh && dbh.pos == 0 && nbh.bytes == [] && 0 < blockLen && |dbh.bytes| < WORD
    modifies dbh`pos, nbh`bytes
    ensures nbh.bytes == Nbh(dbh.bytes, blockLen)
  {
    nbh.Write(Preamble());
    nbh.Write(InitialSignature());
    ghost var start := Preamble() + InitialSignature();
    AppendFirst(Preamble());
    var totalSize, totalWrite := |dbh.bytes|, 0;
    var more := true;
    while more
      invariant dbh.pos == totalWrite <= totalSize
      invariant more ==> nbh.bytes + Blocks(dbh.bytes, blockLen, totalWrite) == start + Blocks(dbh.bytes, blockLen, 0)
      invariant !more ==> nbh.bytes == start + Blocks(dbh.bytes, blockLen, 0)
      decreases totalSize - totalWrite, more
    {
      var lps := if totalSize - totalWrite < blockLen then totalSize - totalWrite else blockLen;
      if totalWrite + lps < totalSize {
        Associate(nbh.bytes, Block(Available(dbh.bytes, totalWrite, lps), 1),
                  Blocks(dbh.bytes, blockLen, totalWrite + lps));
      }
      WriteBlock(dbh, nbh, lps, 1);
      totalWrite := totalWrite + lps;
      more := totalWrite < totalSize;
    }
    WriteBlock(dbh, nbh, 0, 2);
    Associate(start, Blocks(dbh.bytes, blockLen, 0), Block([], 2));
    Associate(Preamble(), InitialSignature(), Blocks(dbh.bytes, blockLen, 0) + Block([], 2));
  }

  lemma AppendFirst(x: seq<Byte>)
    ensures [] + x == x
  {
  }

  /** Pack a ROM; the chunk size is given in kilobytes. */
  method Pack(rom: Rom, signMaxChunkSize: int) returns (r: Option<seq<Byte>>)
    requires |rom.types| == |rom.files| ==> Describable(rom)
    ensures r == if |rom.types| == |rom.files| && signMaxChunkSize in {64, 1024}
                 then Some(Nbh(Dbh(rom), signMaxChunkSize * 1024)) else None
  {
    var blockLen: nat;
    if signMaxChunkSize == 64 {
      blockLen := 0x10000;
    } else if signMaxChunkSize == 1024 {
      blockLen := 0x100000;
    } else {
      return None;
    }
    if |rom.types| != |rom.files| {
      return None;
    }
    var dbh := new File([]);
    var nbh := new File([]);
    WriteDbh(rom, dbh);
    FilesLength(rom.files, |rom.files|);
    WriteNbh(dbh, nbh, blockLen);
    return Some(nbh.bytes);
  }

  // ----- extracting

  /** A word, if four bytes are left. */
  method ReadWord(input: File) returns (r: Option<nat>)
    modifies input`pos
    ensures input.pos >= old(input.pos)
    ensures old(input.pos) + 4 <= |input.bytes| ==>
      r == Some(WordAt(input.bytes, old(input.pos))) && input.pos == old(input.pos) + 4
    ensures old(input.pos) + 4 > |input.bytes| ==> r == None
  {
    var p := input.pos;
    var got := input.Read(4);
    if |got| < 4 {
      return None;
    }
    AvailableIs(input.bytes, p, 4);
    NumberIs(input.bytes, p, got);
    return Some(WordAt(got, 0));
  }

  lemma NumberIs(bytes: seq<Byte>, p: nat, got: seq<Byte>)
    requires p + 4 <= |bytes| && got == bytes[p..p + 4]
    ensures WordAt(got, 0) == WordAt(bytes, p)
  {
    SameNumber(bytes, p, got, 0, 4);
  }

  lemma {:induction false} SameNumber(bytes: seq<Byte>, p: nat, got: seq<Byte>, k: nat, n: nat)
    requires k + n <= |got| && p + |got| <= |bytes| && got == bytes[p..p + |got|]
    ensures Number(got, k, n) == Number(bytes, p + k, n)
    decreases n
  {
    if n > 0 {
      SameNumber(bytes, p, got, k + 1, n - 1);
      assert got[k] == bytes[p + k];
    }
  }

  /** One block; false when it was the last, or incomplete. */
  method CopyBlock(input: File, output: File, oversize: bool) returns (more: bool)
    requires input != output
    modifies input`pos, output`bytes
    ensures input.pos >= old(input.pos)
    ensures match ReadBlock(input.bytes, old(input.pos), oversize)
            case Stop(data) => !more && output.bytes == old(output.bytes) + data
            case More(data, next) => more && output.bytes == old(output.bytes) + data && input.pos == next
  {
    hide WordAt, Available;
    AppendNothing(output.bytes);
    var p := input.pos;
    var blockLen := ReadWord(input);
    if blockLen.None? {
      return false;
    }
    var signLen := ReadWord(input);
    if signLen.None? {
      return false;
    }
    var flag := input.Read(1);
    if |flag| == 0 {
      return false;
    }
    assert flag[0] == Number(input.bytes, p + 8, 1) by { AvailableIs(input.bytes, p + 8, 1); }
    var len := if oversize then NEW_FORMAT_LEN else blockLen.value;
    AvailableSplit(input.bytes, p + 9, 0, len);
    var ok := BufferedReadWrite(input, output, len);
    if !ok {
      return false;
    }
    var blockSign := input.Read(signLen.value);
    if |blockSign| != signLen.value {
      return false;
    }
    return flag[0] != 2;
  }

  /** NBH to DBH: undo the blocks, in the old format or the new. */
  method UndoBlocks(input: File, output: File) returns (ok: bool)
    requires input != output && input.pos == 0 && output.bytes == []
    modifies input`pos, output`bytes
    ensures match ExtractDbh(input.bytes)
            case None => !ok
            case Some(dbh) => ok && output.bytes == dbh
  {
    var magic := input.Read(7);
    PreambleIs(input.bytes);
    if |magic| != 7 {
      return false;
    }
    var initSign := if magic != Preamble() then 240 else 16;
    var signature := input.Read(initSign);
    if |signature| != initSign {
      return false;
    }
    var blockIndex := 0;
    ghost var whole := Unblocked(input.bytes, input.pos, initSign != 16);
    var more := true;
    assert [] + whole == whole;
    while more
      invariant more ==> input.pos <= |input.bytes|
      invariant more ==> whole == output.bytes + Unblocked(input.bytes, input.pos, initSign != 16 && blockIndex == 0)
      invariant !more ==> whole == output.bytes
      decreases |input.bytes| - input.pos, more
    {
      ghost var before, p := output.bytes, input.pos;
      more := CopyBlock(input, output, initSign != 16 && blockIndex == 0);
      if more {
        ghost var data := ReadBlock(input.bytes, p, initSign != 16 && blockIndex == 0).data;
        Associate(before, data, Unblocked(input.bytes, input.pos, false));
      }
      blockIndex := blockIndex + 1;
    }
    return true;
  }

  lemma PreambleIs(bytes: seq<Byte>)
    ensures |bytes| >= 7 ==> (Available(bytes, 0, 7) == Preamble() <==> At(bytes, 0, Preamble()))
  {
    AvailableIs(bytes, 0, 7);
    if |bytes| >= 7 && At(bytes, 0, Preamble()) {
      AtAvailable(bytes, 0, Preamble());
    }
  }

  // ----- the sections

  predicate IsSectionImage(kind: nat) { kind == 0x600 || kind == 0x601 }

  predicate KnownImageSize(len: nat) { len in {262144, 153600, 655360, 614912} }

  /** The entries among the first n that the extractor reports as failed. */
  function FailuresTo(dbh: seq<Byte>, n: nat): (failed: seq<nat>) {
    if n == 0 then []
    else
      var len := WordAt(dbh, LENGTHS_AT + 4 * (n - 1));
      var fails := Wanted(dbh, n - 1) && Fails(SectionAt(dbh, n - 1), len);
      FailuresTo(dbh, n - 1) + if fails then [n - 1] else []
  }

  /** The file ends inside the section, or it is a splash screen of no known size. */
  predicate Fails(s: Section, len: nat) { !s.complete || (IsSectionImage(s.kind) && !KnownImageSize(len)) }

  /** The splash screens of a ROM, among its first n sections, that have no known size. */
  function OddScreens(rom: Rom, n: nat): (indices: seq<nat>) {
    if n == 0 then []
    else
      var odd := n <= |rom.files| && n <= |rom.types| &&
        IsSectionImage(rom.types[n - 1]) && !KnownImageSize(|rom.files[n - 1]|);
      OddScreens(rom, n - 1) + if odd then [n - 1] else []
  }

  /** These are the sections of type 0x600 or 0x601 with none of the four lengths of a picture. */
  lemma {:induction false} OddScreensAre(rom: Rom, n: nat, i: nat)
    ensures i in OddScreens(rom, n) <==>
      && i < n && i < |rom.files| && i < |rom.types| && rom.types[i] in {0x600, 0x601}
      && |rom.files[i]| !in {153600, 262144, 614912, 655360}
  {
    if n > 0 {
      OddScreensAre(rom, n - 1, i);
    }
  }

  /** Of a packed ROM exactly the splash screens of no known size are reported, though every section is whole. */
  lemma {:induction false} PackedFailures(rom: Rom, n: nat)
    requires Describable(rom) && n <= SECTIONS
    ensures FailuresTo(Dbh(rom), n) == OddScreens(rom, n)
  {
    if n > 0 {
      PackedFailures(rom, n - 1);
      EntryRead(rom, n - 1);
      if n <= |rom.files| {
        SectionRead(rom, n - 1);
      }
    }
  }

  /** Such a section: one byte long, extracted whole, and reported. */
  lemma WholeYetReported(rom: Rom, byte: Byte)
    requires rom.types == [0x600] && rom.files == [[byte]]
    ensures SectionsTo(Dbh(rom), 1) == [Section(0, 0x600, [byte], true)] && FailuresTo(Dbh(rom), 1) == [0]
  {
    assert LengthTo(rom.files, 1) == 1;
    SectionsRead(rom, 1);
    EverySectionComesBack(rom, 1);
    PackedFailures(rom, 1);
    assert OddScreens(rom, 0) == [];
  }

  method ExtractNb(input: File, index: nat, kind: nat, start: nat, len: nat) returns (s: Section, reported: bool)
    modifies input`pos
    ensures var data := Available(input.bytes, start, len);
      s == Section(index, kind, data, |data| == len)
    ensures !reported <==> Fails(s, len)
  {
    var output := new File([]);
    input.Seek(start);
    AvailableSplit(input.bytes, start, 0, len);
    assert [] + Available(input.bytes, start, len) == Available(input.bytes, start, len);
    var ok := BufferedReadWrite(input, output, len);
    s := Section(index, kind, output.bytes, ok);
    reported := ok;
    if IsSectionImage(kind) && !KnownImageSize(len) {
      reported := false;
    }
  }

  /** Walk the table of sections; None for a file that is not a DBH.  Also, which entries are reported as failed. */
  method ExtractAll(dbh: File) returns (r: Option<seq<Section>>, failed: seq<nat>)
    requires dbh.pos == 0
    modifies dbh`pos
    ensures r == ExtractSections(dbh.bytes)
    ensures failed == if r.Some? then FailuresTo(dbh.bytes, SECTIONS) else []
  {
    var magic := dbh.Read(MAGIC_LEN);
    MagicIs(dbh.bytes);
    if |magic| != MAGIC_LEN {
      return None, [];
    }
    if magic != Magic() {
      return None, [];
    }
    var header := dbh.Read(HEADER_LEN);
    if |header| != HEADER_LEN {
      return None, [];
    }
    AvailableIs(dbh.bytes, MAGIC_LEN, HEADER_LEN);
    var sections := [];
    failed := [];
    for i := 0 to SECTIONS
      invariant sections == SectionsTo(dbh.bytes, i) && failed == FailuresTo(dbh.bytes, i)
    {
      hide Fails;
      var s, reported := ExtractEntry(dbh, header, i);
      if s.Some? {
        sections := sections + [s.value];
        if !reported {
          failed := failed + [i];
        }
      }
    }
    r := Some(sections);
  }

  /** The section of one entry, if it is wanted, and whether that is reported as a success. */
  method ExtractEntry(dbh: File, header: seq<Byte>, i: nat) returns (s: Option<Section>, reported: bool)
    requires i < SECTIONS && |dbh.bytes| >= MAGIC_LEN + HEADER_LEN
    requires header == dbh.bytes[MAGIC_LEN..MAGIC_LEN + HEADER_LEN]
    modifies dbh`pos
    ensures s == if Wanted(dbh.bytes, i) then Some(SectionAt(dbh.bytes, i)) else None
    ensures s.Some? ==> (!reported <==> Fails(s.value, WordAt(dbh.bytes, LENGTHS_AT + 4 * i)))
  {
    HeaderWords(dbh.bytes, header, i);
    hide WordAt, Fails, Available;
    s, reported := None, true;
    if i + 50 < 95 {
      var kind := WordAt(header, TYPES_AT - MAGIC_LEN + 4 * i);
      if kind != 0 && i != 31 {
        var start := WordAt(header, OFFSETS_AT - MAGIC_LEN + 4 * i);
        var len := WordAt(header, LENGTHS_AT - MAGIC_LEN + 4 * i);
        var section;
        section, reported := ExtractNb(dbh, i, kind, start, len);
        s := Some(section);
      }
    }
  }

  lemma MagicIs(bytes: seq<Byte>)
    ensures |bytes| >= MAGIC_LEN ==> (Available(bytes, 0, MAGIC_LEN) == Magic() <==> At(bytes, 0, Magic()))
  {
    AvailableIs(bytes, 0, MAGIC_LEN);
    if |bytes| >= MAGIC_LEN && At(bytes, 0, Magic()) {
      AtAvailable(bytes, 0, Magic());
    }
  }

  lemma HeaderWords(bytes: seq<Byte>, header: seq<Byte>, i: nat)
    requires |bytes| >= MAGIC_LEN + HEADER_LEN && header == bytes[MAGIC_LEN..MAGIC_LEN + HEADER_LEN] && i < SECTIONS
    ensures WordAt(header, TYPES_AT - MAGIC_LEN + 4 * i) == WordAt(bytes, TYPES_AT + 4 * i)
    ensures WordAt(header, OFFSETS_AT - MAGIC_LEN + 4 * i) == WordAt(bytes, OFFSETS_AT + 4 * i)
    ensures WordAt(header, LENGTHS_AT - MAGIC_LEN + 4 * i) == WordAt(bytes, LENGTHS_AT + 4 * i)
  {
    SameNumber(bytes, MAGIC_LEN, header, TYPES_AT - MAGIC_LEN + 4 * i, 4);
    SameNumber(bytes, MAGIC_LEN, header, OFFSETS_AT - MAGIC_LEN + 4 * i, 4);
    SameNumber(bytes, MAGIC_LEN, header, LENGTHS_AT - MAGIC_LEN + 4 * i, 4);
  }

  /** Everything the extractor gets out of an NBH file. */
  method ExtractNbh(nbh: seq<Byte>) returns (r: Option<seq<Section>>, failed: seq<nat>)
    ensures match ExtractDbh(nbh)
            case None => r == None && failed == []
            case Some(dbh) =>
              r == ExtractSections(dbh) && failed == if r.Some? then FailuresTo(dbh, SECTIONS) else []
  {
    var input := new File(nbh);
    var tmp := new File([]);
    var ok := UndoBlocks(input, tmp);
    if !ok {
      return None, [];
    }
    r, failed := ExtractAll(tmp);
  }

  /** Pack a ROM and extract the result: every section that has a type comes back whole. */
  method PackAndExtract(rom: Rom, signMaxChunkSize: int) returns (r: Option<seq<Section>>, failed: seq<nat>)
    requires Describable(rom) && signMaxChunkSize in {64, 1024}
    ensures r == Some(SectionsOf(rom, SECTIONS)) && failed == OddScreens(rom, SECTIONS)
  {
    var nbh := Pack(rom, signMaxChunkSize);
    PackThenExtract(rom, signMaxChunkSize * 1024);
    PackedFailures(rom, SECTIONS);
    r, failed := ExtractNbh(nbh.value);
  }
}
