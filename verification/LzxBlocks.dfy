/**
 The blocks of an LZX chunk as a function from one state of the decoder to the next.  The decoder
 computes it, and an encoder is undone by it.
 */
module LzxBlocks {
  import opened Common
  import opened Bits
  import opened Huffman
  import opened LzxReader
  import F = LzxFormat

  const MAIN_CODE_COUNT: nat := 496
  const LEN_CODE_COUNT: nat := 249
  const WINDOW_SIZE: nat := 32768

  // ----- one block -----------------------------------------------------------------------------

  /** What one block leaves for the next: trees, recent offsets, and the output so far. */
  datatype Coding = Coding(main: seq<nat>, length: seq<nat>, lru: F.Lru, out: seq<byte>)

  /** Everything about the decoder that decides what it does next. */
  datatype Snapshot = Snapshot(source: F.Source, unaligned: bool, coding: Coding)

  ghost predicate CodingOk(c: Coding) {
    |c.main| == MAIN_CODE_COUNT && |c.length| == LEN_CODE_COUNT
  }

  ghost function Blank(): (c: Coding)
    ensures CodingOk(c)
  {
    Coding(seq(MAIN_CODE_COUNT, _ => 0), seq(LEN_CODE_COUNT, _ => 0), F.Lru(1, 1, 1), [])
  }

  ghost function Initial(input: seq<byte>): Snapshot {
    Snapshot(SourceOf(input, [], 0), false, Blank())
  }

  function CheckKind(kind: nat, size: nat, s: F.Source): Option<(nat, nat, F.Source)> {
    if 1 <= kind <= 3 then Some((kind, size, s)) else None
  }

  /** A block's type and size, and where the reader stands after them. */
  function HeaderAt(s: F.Source): Option<(nat, nat, F.Source)> {
    match F.TakeNumber(s, 3)
    case None => None
    case Some((kind, s1)) =>
      match F.TakeNumber(s1, 1)
      case None => None
      case Some((full, s2)) =>
        if full != 0 then CheckKind(kind, F.MAX_BLOCK_SIZE, s2)
        else
          match F.TakeNumber(s2, 16)
          case None => None
          case Some((size, s3)) => if size > F.MAX_BLOCK_SIZE then None else CheckKind(kind, size, s3)
  }

  /** The header of the block after `s`, read past the padding byte of an odd raw block. */
  function NextHeader(input: seq<byte>, s: Snapshot): Option<(nat, nat, F.Source)> {
    if !s.unaligned then HeaderAt(s.source)
    else if s.source.at >= |input| then None
    else HeaderAt(SourceOf(input, [], s.source.at + 1))
  }

  /** A little-endian word of the raw block header, cut to 16 bits. */
  function RawOffset(bytes: seq<byte>, at: nat): nat
    requires at + 4 <= |bytes|
  {
    Word(bytes[at], bytes[at + 1])
  }

  function RawLru(bytes: seq<byte>): F.Lru
    requires |bytes| == 12
  {
    F.Lru(RawOffset(bytes, 0), RawOffset(bytes, 4), RawOffset(bytes, 8))
  }

  /** Where the raw data start when the header left `ahead` bits in the register and the reader at byte `at`. */
  function RawStart(ahead: nat, at: nat): (start: nat)
    ensures start >= 12
  {
    at + (if ahead == 0 then 2 else 0) + 12
  }

  /** The raw block: everything buffered is dropped, then twelve bytes of offsets, then the data. */
  function RawBlock(input: seq<byte>, c: Coding, size: nat, s: F.Source): Option<Snapshot> {
    var at := RawStart(s.ahead, s.at);
    if at + size > |input| then None
    else
      var out := c.out + input[at..at + size];
      Some(Snapshot(SourceOf(input, [], at + size), size % 2 == 1, c.(lru := RawLru(input[at - 12..at]), out := out)))
  }

  /** The compressed block: trees, then tokens, expanded behind the output so far. */
  ghost function PackedBlock(c: Coding, aligned: bool, size: nat, s: F.Source): Option<Snapshot>
    requires CodingOk(c)
  {
    match F.ReadTrees(s, c.main, c.length, aligned)
    case None => None
    case Some((t, s1)) =>
      match F.DecodeTokens(t, s1, c.out, c.lru, size)
      case None => None
      case Some((out, lru, s2)) => Some(Snapshot(s2, false, Coding(t.main, t.length, lru, out)))
  }

  predicate IsAligned(kind: nat) {
    kind == F.ALIGNED_OFFSET_BLOCK
  }

  /** One block decoded: the header says which kind, and the kind what the output grows by. */
  ghost function NextBlock(input: seq<byte>, s: Snapshot): (r: Option<Snapshot>)
    requires CodingOk(s.coding)
    ensures r.Some? ==> CodingOk(r.value.coding)
  {
    match NextHeader(input, s)
    case None => None
    case Some((kind, size, src)) =>
      if |s.coding.out| + size > WINDOW_SIZE then None
      else if kind == F.UNCOMPRESSED_BLOCK then RawBlock(input, s.coding, size, src)
      else PackedBlock(s.coding, IsAligned(kind), size, src)
  }

  // ----- the blocks of a chunk ---------------------------------------------------------------------

  /** The decoder after `n` blocks of the input. */
  ghost function AfterBlocks(input: seq<byte>, n: nat): (r: Option<Snapshot>)
    ensures r.Some? ==> CodingOk(r.value.coding)
  {
    if n == 0 then Some(Initial(input))
    else
      match AfterBlocks(input, n - 1)
      case None => None
      case Some(s) => NextBlock(input, s)
  }

  /** The first `n` blocks are decoded and fall short of `size`. */
  ghost predicate ShortFor(chunk: seq<byte>, size: nat, n: nat) {
    forall k: nat :: k < n ==> AfterBlocks(chunk, k).Some? && |AfterBlocks(chunk, k).value.coding.out| < size
  }

  /** `n` blocks, and no fewer, reach `size` bytes. */
  ghost predicate Finishes(chunk: seq<byte>, size: nat, n: nat) {
    && ShortFor(chunk, size, n)
    && AfterBlocks(chunk, n).Some? && size <= |AfterBlocks(chunk, n).value.coding.out|
  }

  /** After `n - 1` blocks that fall short of `size`, no block follows. */
  ghost predicate Fails(chunk: seq<byte>, size: nat, n: nat) {
    ShortFor(chunk, size, n) && AfterBlocks(chunk, n).None?
  }

  /** DETERMINISM: a chunk has one outcome for a size, reached after one number of blocks. */
  lemma OneOutcome(chunk: seq<byte>, size: nat, n: nat, m: nat)
    requires Finishes(chunk, size, n) || Fails(chunk, size, n)
    requires Finishes(chunk, size, m) || Fails(chunk, size, m)
    ensures n == m
    ensures !(Finishes(chunk, size, n) && Fails(chunk, size, m))
  {
    hide AfterBlocks;
  }

  // ----- what a reader's source is --------------------------------------------------------------------

  /** The source is what a reader of `input` sees: its register, then the words not yet read. */
  ghost predicate Held(input: seq<byte>, s: F.Source) {
    && s.at <= |input| && s.ahead <= 31 && s.ahead <= |s.bits|
    && s.bits[s.ahead..] == Words(input[s.at..])
  }

  /** A later source of the same reader. */
  ghost predicate Follows(input: seq<byte>, s: F.Source, t: F.Source) {
    Held(input, t) && t.at % 2 == s.at % 2
  }

  lemma SourceIsHeld(input: seq<byte>, at: nat)
    requires at <= |input|
    ensures Held(input, SourceOf(input, [], at))
  {
    hide Words;
  }

  lemma HeldFed(input: seq<byte>, s: F.Source)
    requires Held(input, s) && s.ahead <= 15
    ensures Follows(input, s, F.Fed(s))
    ensures F.Fed(s).ahead < 16 ==> F.Fed(s) == s && |s.bits| == s.ahead
  {
    hide ToBits, Word, Words;
    WordsLength(input[s.at..]);
    if s.ahead + 16 <= |s.bits| {
      WordsStep(input, s.at);
      assert s.bits[s.ahead + 16..] == s.bits[s.ahead..][16..];
    }
  }

  lemma HeldTaken(input: seq<byte>, s: F.Source, n: nat)
    requires Held(input, s) && n <= s.ahead
    ensures Follows(input, s, F.Taken(s, n)) && F.Taken(s, n).ahead == s.ahead - n
  {
    hide Words;
    assert s.bits[n..][s.ahead - n..] == s.bits[s.ahead..];
  }

  lemma HeldNumber(input: seq<byte>, s: F.Source, n: nat)
    requires Held(input, s) && n <= 16 && F.TakeNumber(s, n).Some?
    ensures Follows(input, s, F.TakeNumber(s, n).value.1)
    ensures F.TakeNumber(s, n).value.1.ahead == (if n <= s.ahead then s.ahead - n else s.ahead + 16 - n)
  {
    hide Words, Value;
    if n <= s.ahead {
      HeldTaken(input, s, n);
    } else {
      HeldFed(input, s);
      HeldTaken(input, F.Fed(s), n);
    }
  }

  /** After a symbol the register holds between 16 and 31 bits less its code, if the input lasts. */
  lemma HeldSymbol(input: seq<byte>, lens: seq<nat>, s: F.Source)
    requires Held(input, s) && LengthsOk(lens) && F.TakeSymbol(lens, s).Some?
    ensures Follows(input, s, F.TakeSymbol(lens, s).value.1)
    ensures F.TakeSymbol(lens, s).value.0 < |lens|
    ensures |s.bits| >= 32 ==>
              F.TakeSymbol(lens, s).value.1.ahead == 16 + s.ahead % 16 - lens[F.TakeSymbol(lens, s).value.0]
  {
    hide Words, Codeword, F.Fed;
    var f := if s.ahead < MAX_TREE_PATH_LEN then F.Fed(s) else s;
    assert exists i: nat ::
        Decodes(lens, s.bits, i) && F.TakeSymbol(lens, s) == Some((i, F.Taken(f, lens[i])));
    var i: nat :| Decodes(lens, s.bits, i) && F.TakeSymbol(lens, s) == Some((i, F.Taken(f, lens[i])));
    if s.ahead < MAX_TREE_PATH_LEN { HeldFed(input, s); FedMore(s); }
    HeldTaken(input, f, lens[i]);
  }

  lemma FedMore(s: F.Source)
    ensures s.ahead < 16 && |s.bits| >= 32 ==> F.Fed(s).ahead == s.ahead + 16
  {
  }

  lemma {:induction false} HeldNumbers(input: seq<byte>, s: F.Source, width: nat, count: nat)
    requires Held(input, s) && width <= 16 && F.TakeNumbers(s, width, count).Some?
    ensures Follows(input, s, F.TakeNumbers(s, width, count).value.1)
  {
    hide Held, F.TakeNumber;
    if count > 0 {
      HeldNumbers(input, s, width, count - 1);
      HeldNumber(input, F.TakeNumbers(s, width, count - 1).value.1, width);
    }
  }

  lemma HeldItem(input: seq<byte>, pre: seq<nat>, s: F.Source)
    requires Held(input, s) && LengthsOk(pre) && F.ParseTreeItem(pre, s).Some?
    ensures Follows(input, s, F.ParseTreeItem(pre, s).value.1)
    ensures F.ParseTreeItem(pre, s).value.0.ZeroRun? || F.ParseTreeItem(pre, s).value.0.delta <= 16
  {
    hide Held, F.TakeNumber, F.TakeSymbol, LengthsOk;
    HeldSymbol(input, pre, s);
    var (c, s1) := F.TakeSymbol(pre, s).value;
    if 17 <= c <= 19 {
      var n := if c == 17 then 4 else if c == 18 then 5 else 1;
      HeldNumber(input, s1, n);
      if c == 19 { HeldSymbol(input, pre, F.TakeNumber(s1, n).value.1); }
    }
  }

  lemma {:induction false} HeldTree(input: seq<byte>, pre: seq<nat>, s: F.Source, lens: seq<nat>, i: nat)
    requires Held(input, s) && LengthsOk(pre) && i <= |lens| && F.ParseTree(pre, s, lens, i).Some?
    ensures Follows(input, s, F.ParseTree(pre, s, lens, i).value.1)
    decreases |lens| - i
  {
    hide Held, F.ParseTreeItem, F.ApplyItem, LengthsOk;
    if i < |lens| {
      HeldItem(input, pre, s);
      var (item, rest) := F.ParseTreeItem(pre, s).value;
      HeldTree(input, pre, rest, F.ApplyItem(lens, i, item), i + F.ItemSize(item));
    }
  }

  lemma HeldReadTree(input: seq<byte>, s: F.Source, lens: seq<nat>)
    requires Held(input, s) && F.ReadTree(s, lens).Some?
    ensures Follows(input, s, F.ReadTree(s, lens).value.1)
  {
    hide Held, F.TakeNumbers, F.ParseTree, LengthsOk, Complete;
    HeldNumbers(input, s, 4, 20);
    var (pre, rest) := F.TakeNumbers(s, 4, 20).value;
    HeldTree(input, pre, rest, lens, 0);
  }

  lemma HeldTrees(input: seq<byte>, s: F.Source, main: seq<nat>, length: seq<nat>, aligned: bool)
    requires Held(input, s) && |main| >= F.MAIN_CODE_SPLIT && F.ReadTrees(s, main, length, aligned).Some?
    ensures Follows(input, s, F.ReadTrees(s, main, length, aligned).value.1)
    ensures var t := F.ReadTrees(s, main, length, aligned).value.0;
            LengthsOk(t.main) && LengthsOk(t.length) && (t.aligned.Some? ==> LengthsOk(t.aligned.value))
  {
    hide Held, F.TakeNumbers, F.ReadTree, LengthsOk, Complete, AllZero;
    if aligned { HeldNumbers(input, s, 3, 8); }
    var s1 := F.ReadAligned(s, aligned).value.1;
    HeldReadTree(input, s1, main[..F.MAIN_CODE_SPLIT]);
    var s2 := F.ReadTree(s1, main[..F.MAIN_CODE_SPLIT]).value.1;
    HeldReadTree(input, s2, main[F.MAIN_CODE_SPLIT..]);
    HeldReadTree(input, F.ReadMain(s1, main).value.1, length);
  }

  lemma HeldToken(input: seq<byte>, t: F.Trees, s: F.Source)
    requires LengthsOk(t.main) && LengthsOk(t.length) && (t.aligned.Some? ==> LengthsOk(t.aligned.value))
    requires Held(input, s) && F.ParseToken(t, s).Some?
    ensures Follows(input, s, F.ParseToken(t, s).value.1)
  {
    hide Held, F.TakeNumber, F.TakeSymbol, LengthsOk, F.FooterBits, F.ExplicitOffset;
    HeldSymbol(input, t.main, s);
    var (m, s1) := F.TakeSymbol(t.main, s).value;
    if m >= 256 {
      if (m - 256) % 8 == 7 { HeldSymbol(input, t.length, s1); }
      var (n, s2) := F.ParseLength(t.length, (m - 256) % 8, s1).value;
      if (m - 256) / 8 >= 3 { HeldOffset(input, t.aligned, (m - 256) / 8, s2); }
    }
  }

  lemma HeldOffset(input: seq<byte>, aligned: Option<seq<nat>>, slot: nat, s: F.Source)
    requires Held(input, s) && slot < F.SLOTS && (aligned.Some? ==> LengthsOk(aligned.value))
    requires F.ParseOffset(aligned, slot, s).Some?
    ensures Follows(input, s, F.ParseOffset(aligned, slot, s).value.1)
  {
    hide Held, F.TakeNumber, F.TakeSymbol, LengthsOk, F.ExplicitOffset;
    var bits := F.FooterBits(slot);
    if bits >= 3 && aligned.Some? {
      HeldNumber(input, s, bits - 3);
      HeldSymbol(input, aligned.value, F.TakeNumber(s, bits - 3).value.1);
    } else {
      HeldNumber(input, s, bits);
    }
  }

  lemma {:induction false} HeldTokens(input: seq<byte>, t: F.Trees, s: F.Source, todo: nat)
    requires LengthsOk(t.main) && LengthsOk(t.length) && (t.aligned.Some? ==> LengthsOk(t.aligned.value))
    requires Held(input, s) && F.ParseTokens(t, s, todo).Some?
    ensures Follows(input, s, F.ParseTokens(t, s, todo).value.1)
    decreases todo
  {
    hide Held, F.ParseToken, LengthsOk;
    if todo > 0 {
      HeldToken(input, t, s);
      var (token, rest) := F.ParseToken(t, s).value;
      HeldTokens(input, t, rest, todo - F.TokenSize(token));
    }
  }

  lemma HeldHeader(input: seq<byte>, s: F.Source)
    requires Held(input, s) && HeaderAt(s).Some?
    ensures Follows(input, s, HeaderAt(s).value.2)
  {
    hide Held, F.TakeNumber;
    HeldNumber(input, s, 3);
    var (kind, s1) := F.TakeNumber(s, 3).value;
    HeldNumber(input, s1, 1);
    var (full, s2) := F.TakeNumber(s1, 1).value;
    if full == 0 { HeldNumber(input, s2, 16); }
  }

  /** The state of a decoder between two blocks. */
  ghost predicate SnapshotOk(input: seq<byte>, s: Snapshot) {
    CodingOk(s.coding) && Held(input, s.source) && (s.unaligned ==> s.source.ahead == 0)
  }

  lemma HeldBlock(input: seq<byte>, s: Snapshot)
    requires SnapshotOk(input, s) && NextBlock(input, s).Some?
    ensures SnapshotOk(input, NextBlock(input, s).value)
  {
    hide Held, HeaderAt, F.ReadTrees, F.ParseTokens, F.Expand, LengthsOk, RawLru, Words;
    var start := if s.unaligned then SourceOf(input, [], s.source.at + 1) else s.source;
    if s.unaligned { SourceIsHeld(input, s.source.at + 1); }
    HeldHeader(input, start);
    var (kind, size, src) := NextHeader(input, s).value;
    if kind == F.UNCOMPRESSED_BLOCK {
      SourceIsHeld(input, RawStart(src.ahead, src.at) + size);
    } else {
      HeldTrees(input, src, s.coding.main, s.coding.length, IsAligned(kind));
      var (t, s1) := F.ReadTrees(src, s.coding.main, s.coding.length, IsAligned(kind)).value;
      HeldTokens(input, t, s1, size);
    }
  }

  /** Every state the decoder reaches is one of a reader of the chunk. */
  lemma {:induction false} RunsAreHeld(chunk: seq<byte>, n: nat)
    requires AfterBlocks(chunk, n).Some?
    ensures SnapshotOk(chunk, AfterBlocks(chunk, n).value)
  {
    hide NextBlock, Held;
    if n == 0 {
      SourceIsHeld(chunk, 0);
    } else {
      RunsAreHeld(chunk, n - 1);
      HeldBlock(chunk, AfterBlocks(chunk, n - 1).value);
    }
  }

  // ----- where raw data are read from -----------------------------------------------------------------

  /** LZX pads a raw block to the next 16-bit boundary, by 1 to 16 bits. */
  function Padding(bits: nat): nat {
    if bits % 16 == 0 then 16 else bits % 16
  }

  lemma NumberParts(s: F.Source, n: nat)
    requires F.TakeNumber(s, n).Some?
    ensures n <= |s.bits|
    ensures F.TakeNumber(s, n).value.0 == Value(s.bits[..n]) && F.TakeNumber(s, n).value.1.bits == s.bits[n..]
  {
  }

  lemma AheadBound(input: seq<byte>, s: F.Source)
    requires Held(input, s)
    ensures s.ahead <= 31
  {
  }

  lemma OneBit(b: seq<bool>)
    requires |b| == 1
    ensures Value(b) == if b[0] then 1 else 0
  {
    assert b[..0] == [];
  }

  /** The register holds more than 20 bits, and the size bit of the header among them is set. */
  predicate FarAhead(s: F.Source) {
    s.ahead > 20 && |s.bits| > 3 && s.bits[3]
  }

  /** Such a header, and no other, leaves more than a word in the register. */
  lemma HeaderAhead(input: seq<byte>, s: F.Source)
    requires Held(input, s) && HeaderAt(s).Some?
    ensures HeaderAt(s).value.2.ahead <= 16 <==> !FarAhead(s)
    ensures FarAhead(s) ==> HeaderAt(s).value.1 == F.MAX_BLOCK_SIZE
  {
    hide Held, F.TakeNumber;
    AheadBound(input, s);
    HeldNumber(input, s, 3);
    NumberParts(s, 3);
    var (kind, s1) := F.TakeNumber(s, 3).value;
    HeldNumber(input, s1, 1);
    NumberParts(s1, 1);
    var (full, s2) := F.TakeNumber(s1, 1).value;
    OneBit(s1.bits[..1]);
    if full == 0 { HeldNumber(input, s2, 16); }
  }

  /** Dropping the register and dropping to the boundary are the same iff the register holds at most a word. */
  lemma RawStartsAtBoundary(input: seq<byte>, s: F.Source)
    requires Held(input, s) && RawStart(s.ahead, s.at) <= |input|
    ensures Padding(|s.bits|) <= |s.bits|
    ensures Words(input[RawStart(s.ahead, s.at) - 12..]) == s.bits[Padding(|s.bits|)..] <==> s.ahead <= 16
    ensures s.ahead > 16 ==> |Words(input[RawStart(s.ahead, s.at) - 12..])| == |s.bits[Padding(|s.bits|)..]| - 16
  {
    hide Words, ToBits, Word;
    WordsLength(input[s.at..]);
    assert |s.bits| == s.ahead + 16 * ((|input| - s.at) / 2);
    if s.ahead == 0 {
      WordsStep(input, s.at);
      assert s.bits[16..] == s.bits[s.ahead..][16..];
    } else if s.ahead <= 16 {
      assert Padding(|s.bits|) == s.ahead;
    } else {
      assert Padding(|s.bits|) == s.ahead - 16;
    }
  }

  /**
   RAW BLOCKS: in every reachable state, if a raw block follows, its data are taken from the next word
   boundary of the bit stream, as the format has it, if and only if the header's full-size bit is clear or
   at most 20 bits are in the register before it.  Otherwise they are taken one word too late, and that can only
   happen before any output.
   */
  lemma RawPlacedIff(chunk: seq<byte>, n: nat)
    requires AfterBlocks(chunk, n).Some? && AfterBlocks(chunk, n + 1).Some?
    requires NextHeader(chunk, AfterBlocks(chunk, n).value).value.0 == F.UNCOMPRESSED_BLOCK
    ensures var s := AfterBlocks(chunk, n).value;
            var (_, size, src) := NextHeader(chunk, s).value;
            var at := RawStart(src.ahead, src.at);
            && Padding(|src.bits|) <= |src.bits| && at <= |chunk|
            && (Words(chunk[at - 12..]) == src.bits[Padding(|src.bits|)..] <==> !FarAhead(s.source))
            && (Words(chunk[at - 12..]) != src.bits[Padding(|src.bits|)..] ==>
                  && s.coding.out == [] && size == F.MAX_BLOCK_SIZE
                  && |Words(chunk[at - 12..])| == |src.bits[Padding(|src.bits|)..]| - 16)
  {
    hide Held, HeaderAt, Words, RawLru, AfterBlocks;
    var s := AfterBlocks(chunk, n).value;
    RunsAreHeld(chunk, n);
    assert NextBlock(chunk, s).Some? by { BlockAfter(chunk, n); }
    var start := if s.unaligned then SourceOf(chunk, [], s.source.at + 1) else s.source;
    if s.unaligned { SourceIsHeld(chunk, s.source.at + 1); }
    HeldHeader(chunk, start);
    HeaderAhead(chunk, start);
    RawStartsAtBoundary(chunk, NextHeader(chunk, s).value.2);
  }

  lemma BlockAfter(chunk: seq<byte>, n: nat)
    requires AfterBlocks(chunk, n).Some?
    ensures AfterBlocks(chunk, n + 1) == NextBlock(chunk, AfterBlocks(chunk, n).value)
  {
  }
}
