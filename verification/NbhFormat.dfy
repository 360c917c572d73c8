/**
  The image files byte by byte: where in a DBH and in an NBH which number, text and file stands,
  and what is taken out of an image that was not written by this packer.
*/
module NbhFormat {
  import opened NbhImage
  import opened NbhTools

  /** Four bytes as a number, the lowest byte first. */
  function Word(b: seq<Byte>, p: nat): (n: nat)
    requires p + 4 <= |b|
  {
    var b0: nat, b1: nat, b2: nat, b3: nat := b[p], b[p + 1], b[p + 2], b[p + 3];
    b0 + 0x100 * b1 + 0x1_0000 * b2 + 0x100_0000 * b3
  }

  lemma WordIsAt(b: seq<Byte>, p: nat)
    requires p + 4 <= |b|
    ensures WordAt(b, p) == Word(b, p)
  {
    assert Number(b, p + 3, 1) == b[p + 3] by { assert Number(b, p + 4, 0) == 0; }
    assert Number(b, p + 2, 2) == b[p + 2] + 0x100 * Number(b, p + 3, 1);
    assert Number(b, p + 1, 3) == b[p + 1] + 0x100 * Number(b, p + 2, 2);
  }

  function Ascii(text: string): (bytes: seq<Byte>)
    ensures |bytes| == |text|
  {
    seq(|text|, i requires 0 <= i < |text| => text[i] as int % 0x100)
  }

  /** The bytes x stand in b from p on. */
  predicate Stands(b: seq<Byte>, p: nat, x: seq<Byte>) { p + |x| <= |b| && b[p..p + |x|] == x }

  /** A field of n bytes holds a text, cut off at n or followed by zeros. */
  predicate Field(b: seq<Byte>, p: nat, n: nat, text: seq<Byte>) {
    p + n <= |b| && forall k :: 0 <= k < n ==> b[p + k] == if k < |text| then text[k] else 0
  }

  /** 128 zeros: the signature of a block. */
  predicate Unsigned(b: seq<Byte>, p: nat) { Field(b, p, 128, []) }

  lemma AtStands(b: seq<Byte>, p: nat, x: seq<Byte>)
    ensures At(b, p, x) <==> Stands(b, p, x)
  {
    if At(b, p, x) {
      forall k | 0 <= k < |x|
        ensures b[p..p + |x|][k] == x[k]
      {
        assert SameAt(b, p, x, k);
      }
    }
    if Stands(b, p, x) {
      forall k | 0 <= k < |x|
        ensures SameAt(b, p, x, k)
      {
        assert b[p..p + |x|][k] == x[k];
      }
    }
  }

  lemma AtField(b: seq<Byte>, p: nat, n: nat, text: seq<Byte>)
    requires At(b, p, Padded(text, n))
    ensures Field(b, p, n, text)
  {
    forall k | 0 <= k < n
      ensures b[p + k] == if k < |text| then text[k] else 0
    {
      assert SameAt(b, p, Padded(text, n), k);
    }
  }

  lemma AtWord(b: seq<Byte>, p: nat, n: nat)
    requires At(b, p, LE4(n)) && n < 0x1_0000_0000
    ensures p + 4 <= |b| && Word(b, p) == n
  {
    WordRoundTrip(b, p, n);
    WordIsAt(b, p);
  }

  // ----- the DBH

  /** HTCIMAGE, each letter in a word of its own. */
  ghost predicate Marked(b: seq<Byte>) {
    |b| >= 32 && forall k :: 0 <= k < 8 ==> LetterAt(b, k)
  }

  predicate LetterAt(b: seq<Byte>, k: nat)
    requires k < 8 && |b| >= 32
  {
    b[4 * k] == "HTCIMAGE"[k] as int && b[4 * k + 1] == 0 && b[4 * k + 2] == 0 && b[4 * k + 3] == 0
  }

  lemma MagicLetter(k: nat)
    requires k < 8
    ensures LetterAt(Magic(), k)
  {
    hide LE4;
    LetterWords(k);
    assert Magic()[4 * k..4 * k + 4] == LE4("HTCIMAGE"[k] as int);
  }

  lemma LetterWords(k: nat)
    requires k < 8
    ensures var word := LE4("HTCIMAGE"[k] as int);
      word[0] == "HTCIMAGE"[k] as int && word[1] == 0 && word[2] == 0 && word[3] == 0
  {
  }

  lemma MarkedIs(b: seq<Byte>)
    ensures At(b, 0, Magic()) <==> Marked(b)
  {
    hide Magic;
    AtStands(b, 0, Magic());
    forall k | 0 <= k < 8
      ensures LetterAt(Magic(), k)
    {
      MagicLetter(k);
    }
    if Stands(b, 0, Magic()) {
      assert b[..32] == Magic();
      forall k | 0 <= k < 8
        ensures LetterAt(b, k)
      {
        assert LetterAt(b[..32], k);
      }
    }
    if Marked(b) {
      forall j | 0 <= j < 32
        ensures b[j] == Magic()[j]
      {
        var k := j / 4;
        assert LetterAt(b, k) && LetterAt(Magic(), k);
      }
    }
  }

  /** The NBH's mark and its first signature. */
  lemma Marks()
    ensures Preamble() == Ascii("R000FF\n")
    ensures InitialSignature() == Ascii("XDA-Developers! ")
  {
  }

  lemma HeaderTexts(rom: Rom)
    ensures At(Dbh(rom), 32, Padded(rom.device, 32)) && At(Dbh(rom), 448, Padded(rom.cid, 32))
    ensures At(Dbh(rom), 480, Padded(rom.version, 16)) && At(Dbh(rom), 496, Padded(rom.language, 16))
  {
  }

  lemma DbhLength(rom: Rom)
    ensures |Dbh(rom)| == 512 + LengthTo(rom.files, |rom.files|)
  {
    FilesLength(rom.files, |rom.files|);
  }

  /** The magic and the four texts of a DBH, each where it belongs. */
  lemma DbhTexts(rom: Rom)
    ensures var d := Dbh(rom);
      && Marked(d) && Field(d, 32, 32, rom.device) && Field(d, 448, 32, rom.cid)
      && Field(d, 480, 16, rom.version) && Field(d, 496, 16, rom.language)
  {
    hide Dbh, At, Padded, Field, Marked;
    HeaderParts(rom);
    MarkedIs(Dbh(rom));
    HeaderTexts(rom);
    AtField(Dbh(rom), 32, 32, rom.device);
    AtField(Dbh(rom), 448, 32, rom.cid);
    AtField(Dbh(rom), 480, 16, rom.version);
    AtField(Dbh(rom), 496, 16, rom.language);
  }

  /** The files of a DBH follow one another from byte 512 on. */
  lemma DbhFiles(rom: Rom, i: nat)
    requires i < |rom.files|
    ensures Stands(Dbh(rom), 512 + LengthTo(rom.files, i), rom.files[i])
    ensures |Dbh(rom)| == 512 + LengthTo(rom.files, |rom.files|)
  {
    hide Dbh, At, Stands;
    DbhLength(rom);
    FileInDbh(rom, i);
    AtStands(Dbh(rom), 512 + LengthTo(rom.files, i), rom.files[i]);
  }

  /** Entry i of the three tables of a DBH: the type, the place and the length of file i, or zeros. */
  lemma DbhEntries(rom: Rom, i: nat)
    requires Describable(rom) && i < 32
    ensures var d := Dbh(rom);
      && |d| >= 512
      && Word(d, 64 + 4 * i) == (if i < |rom.files| then rom.types[i] else 0)
      && Word(d, 192 + 4 * i) == (if i < |rom.files| then 512 + LengthTo(rom.files, i) else 0)
      && Word(d, 320 + 4 * i) == (if i < |rom.files| then |rom.files[i]| else 0)
  {
    hide Dbh, WordAt, Word;
    EntryRead(rom, i);
    DbhLength(rom);
    WordIsAt(Dbh(rom), 64 + 4 * i);
    WordIsAt(Dbh(rom), 192 + 4 * i);
    WordIsAt(Dbh(rom), 320 + 4 * i);
  }

  // ----- the NBH

  /** A block: the length of the payload, that of the signature, the flag, the payload and 128 zeros. */
  ghost predicate IsBlock(b: seq<Byte>, p: nat, payload: seq<Byte>, flag: Byte) {
    p + 9 + |payload| + 128 <= |b| && Word(b, p) == |payload| && Word(b, p + 4) == 128 && b[p + 8] == flag &&
    Stands(b, p + 9, payload) && Unsigned(b, p + 9 + |payload|)
  }

  lemma AtBlock(b: seq<Byte>, p: nat, payload: seq<Byte>, flag: Byte)
    requires At(b, p, Block(payload, flag)) && |payload| < 0x1_0000_0000
    ensures IsBlock(b, p, payload, flag)
  {
    var zeros := Zeros(SIGN_LEN);
    AtSplit(b, p, LE4(|payload|), LE4(SIGN_LEN) + ([flag] + (payload + zeros)));
    AtSplit(b, p + 4, LE4(SIGN_LEN), [flag] + (payload + zeros));
    AtSplit(b, p + 8, [flag], payload + zeros);
    AtSplit(b, p + 9, payload, zeros);
    AtWord(b, p, |payload|);
    AtWord(b, p + 4, SIGN_LEN);
    AtStands(b, p + 8, [flag]);
    assert b[p + 8..p + 9][0] == flag;
    AtStands(b, p + 9, payload);
    assert [] + zeros == zeros;
    AtField(b, p + 9 + |payload|, 128, []);
  }

  /** From p to q there are blocks with flag 1 for what follows `at`, all but the last with `chunk` bytes. */
  ghost predicate InBlocks(b: seq<Byte>, p: nat, data: seq<Byte>, chunk: nat, at: nat, q: nat)
    requires chunk > 0 && at <= |data|
    decreases |data| - at
  {
    var n := if |data| - at < chunk then |data| - at else chunk;
    IsBlock(b, p, data[at..at + n], 1) &&
    if at + n < |data| then InBlocks(b, p + 9 + n + 128, data, chunk, at + n, q) else q == p + 9 + n + 128
  }

  lemma {:induction false} BlocksStand(b: seq<Byte>, p: nat, data: seq<Byte>, chunk: nat, at: nat)
    requires chunk > 0 && at <= |data| < 0x1_0000_0000 && At(b, p, Blocks(data, chunk, at))
    ensures InBlocks(b, p, data, chunk, at, p + |Blocks(data, chunk, at)|)
    decreases |data| - at
  {
    hide IsBlock, At, Available, Block, Blocks;
    var next := Next(data, chunk, at);
    AvailableIs(data, at, next - at);
    BlocksSplit(b, p, data, chunk, at);
    BlocksLength(data, chunk, at);
    AtBlock(b, p, data[at..next], 1);
    if next < |data| {
      BlocksStand(b, BlockEnd(p, next - at), data, chunk, next);
    }
  }

  /** An NBH: the two marks, the data in blocks, and an empty block with flag 2 at the end. */
  lemma NbhLayout(dbh: seq<Byte>, chunk: nat)
    requires chunk > 0 && |dbh| < 0x1_0000_0000
    ensures var b := Nbh(dbh, chunk);
      && |b| >= 137 && Stands(b, 0, Ascii("R000FF\n")) && Stands(b, 7, Ascii("XDA-Developers! "))
      && InBlocks(b, 23, dbh, chunk, 0, |b| - 137) && IsBlock(b, |b| - 137, [], 2)
  {
    var b, blocks, last := Nbh(dbh, chunk), Blocks(dbh, chunk, 0), Block([], 2);
    hide At, Stands, Ascii, Preamble, InitialSignature, Blocks, IsBlock, InBlocks;
    Marks();
    AtSelf(b);
    AtSplit(b, 0, Preamble(), InitialSignature() + (blocks + last));
    AtSplit(b, 7, InitialSignature(), blocks + last);
    AtSplit(b, 23, blocks, last);
    AtStands(b, 0, Preamble());
    AtStands(b, 7, InitialSignature());
    BlocksStand(b, 23, dbh, chunk, 0);
    assert |last| == 137;
    AtBlock(b, 23 + |blocks|, [], 2);
  }

  // ----- reading any image

  lemma AvailableSlice(b: seq<Byte>, p: nat, n: nat)
    ensures Available(b, p, n) ==
      if p >= |b| then [] else if p + n > |b| then b[p..] else b[p..p + n]
  {
    if p < |b| {
      AvailableIs(b, p, n);
      assert b[p..|b|] == b[p..];
    }
  }

  lemma FlagIs(b: seq<Byte>, p: nat)
    requires p < |b|
    ensures Number(b, p, 1) == b[p]
  {
    assert Number(b, p + 1, 0) == 0;
  }

  /** One block of the old format, whole or cut short, and where reading goes on. */
  lemma BlockTaken(b: seq<Byte>, p: nat)
    requires p + 9 <= |b|
    ensures var len, sign, rest := Word(b, p), Word(b, p + 4), |b| - (p + 9);
      Unblocked(b, p, false) ==
        if len > rest then b[p + 9..]
        else if len + sign > rest || b[p + 8] == 2 then b[p + 9..p + 9 + len]
        else b[p + 9..p + 9 + len] + Unblocked(b, p + 9 + len + sign, false)
  {
    hide WordAt, Number, Word, Available;
    WordIsAt(b, p);
    WordIsAt(b, p + 4);
    FlagIs(b, p + 8);
    AvailableSlice(b, p + 9, Word(b, p));
  }

  /**
    What is taken out of an NBH.  One that begins with R000FF and a newline is read block by block
    from byte 23 on; any other is taken for the new format and what follows its first 256 bytes
    comes out as it is.
  */
  lemma DbhTaken(b: seq<Byte>)
    ensures var old_format := Stands(b, 0, Ascii("R000FF\n"));
      && (old_format ==> ExtractDbh(b) == if |b| < 23 then None else Some(Unblocked(b, 23, false)))
      && (!old_format && |b| < 247 ==> ExtractDbh(b) == None)
      && (!old_format && 247 <= |b| < 256 ==> ExtractDbh(b) == Some([]))
      && (!old_format && 256 <= |b| < 256 + 999999999 ==> ExtractDbh(b) == Some(b[256..]))
  {
    hide Ascii, Stands, At, Preamble, Number, Available;
    Marks();
    AtStands(b, 0, Preamble());
    AvailableSlice(b, 256, NEW_FORMAT_LEN);
  }

  /** A DBH is one that has 512 bytes and begins with HTCIMAGE, each letter in a word of its own. */
  lemma DbhKnown(b: seq<Byte>)
    ensures ExtractSections(b).Some? <==>
      |b| >= 512 && Marked(b)
  {
    hide At, Marked, Magic, SectionsTo;
    MarkedIs(b);
  }

  /** What entry i of the table says, as far as the file goes. */
  function Entry(b: seq<Byte>, i: nat): (s: Section)
    requires i < 32 && |b| >= 512
  {
    var start, len := Word(b, 192 + 4 * i), Word(b, 320 + 4 * i);
    if len == 0 || start >= |b| then Section(i, Word(b, 64 + 4 * i), [], len == 0)
    else if start + len > |b| then Section(i, Word(b, 64 + 4 * i), b[start..], false)
    else Section(i, Word(b, 64 + 4 * i), b[start..start + len], true)
  }

  lemma EntryIsSection(b: seq<Byte>, i: nat)
    requires i < 32 && |b| >= 512
    ensures SectionAt(b, i) == Entry(b, i) && (Wanted(b, i) <==> i < 31 && Word(b, 64 + 4 * i) != 0)
  {
    hide WordAt, Word, Available;
    WordIsAt(b, 64 + 4 * i);
    WordIsAt(b, 192 + 4 * i);
    WordIsAt(b, 320 + 4 * i);
    AvailableSlice(b, Word(b, 192 + 4 * i), Word(b, 320 + 4 * i));
  }

  /** The entries below n with a type, in order; the last of the 32 is never taken. */
  function Entries(b: seq<Byte>, n: nat): (sections: seq<Section>)
    requires n <= 32 && |b| >= 512
  {
    if n == 0 then []
    else Entries(b, n - 1) + if n < 32 && Word(b, 60 + 4 * n) != 0 then [Entry(b, n - 1)] else []
  }

  /** What is taken out of any DBH. */
  lemma {:induction false} SectionsTaken(b: seq<Byte>, n: nat)
    requires n <= 32 && |b| >= 512
    ensures SectionsTo(b, n) == Entries(b, n)
  {
    if n > 0 {
      SectionsTaken(b, n - 1);
      EntryIsSection(b, n - 1);
      hide Wanted, SectionAt, Entry, Word;
    }
  }

  /** Entry i is reported as failed: its file ends too early, or it is a picture of an unknown length. */
  predicate Reported(b: seq<Byte>, i: nat)
    requires i < 32 && |b| >= 512
  {
    i < 31 && Word(b, 64 + 4 * i) != 0 &&
    (!Entry(b, i).complete ||
     (Word(b, 64 + 4 * i) in {0x600, 0x601} && Word(b, 320 + 4 * i) !in {153600, 262144, 614912, 655360}))
  }

  lemma EntryReported(b: seq<Byte>, i: nat)
    requires i < 32 && |b| >= 512
    ensures Wanted(b, i) && Fails(SectionAt(b, i), WordAt(b, LENGTHS_AT + 4 * i)) <==> Reported(b, i)
  {
    hide Wanted, SectionAt, WordAt, Word;
    EntryIsSection(b, i);
    WordIsAt(b, 320 + 4 * i);
  }

  lemma {:induction false} FailuresAre(b: seq<Byte>, n: nat, i: nat)
    requires n <= 32 && |b| >= 512
    ensures i in FailuresTo(b, n) <==> i < n && Reported(b, i)
  {
    hide Wanted, SectionAt, WordAt, Fails, Reported;
    if n > 0 {
      FailuresAre(b, n - 1, i);
      EntryReported(b, n - 1);
    }
  }
}
