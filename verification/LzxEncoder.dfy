/** An encoder for LZX chunks, which the decoder undoes, and what it shows about the decoder. */
module LzxEncoder {
  import opened Common
  import opened Bits
  import opened LzxReader
  import opened LzxBlocks
  import E8Filter
  import F = LzxFormat

  // ----- compressed blocks ---------------------------------------------------------------------

  /** How a block is sent: trees and tokens, or the recent offsets and the bytes themselves. */
  datatype Block = Packed(plan: F.BlockPlan, tokens: seq<F.Token>) | Raw(lru: F.Lru, data: seq<byte>)

  function Kind(b: Block): nat {
    if b.Raw? then F.UNCOMPRESSED_BLOCK
    else if b.plan.aligned.Some? then F.ALIGNED_OFFSET_BLOCK else F.VERBATIM_BLOCK
  }

  function BlockSize(b: Block): nat {
    if b.Raw? then |b.data| else F.TotalSize(b.tokens)
  }

  /** A block that can be sent after `c`: usable trees, tokens they can express, and room in the window. */
  ghost predicate BlockOk(c: Coding, b: Block) {
    && CodingOk(c) && |c.out| + BlockSize(b) <= WINDOW_SIZE
    && match b
       case Packed(plan, tokens) =>
         && F.BlockPlanOk(plan, c.main, c.length)
         && TokensOk(F.PlannedTrees(plan, c.main, c.length), tokens)
         && F.Expand(c.out, c.lru, tokens).Some?
       case Raw(lru, _) => lru.r0 < 65536 && lru.r1 < 65536 && lru.r2 < 65536
  }

  ghost predicate TokensOk(t: F.Trees, ts: seq<F.Token>) {
    forall i :: 0 <= i < |ts| ==> F.Encodable(t, ts[i])
  }

  /** Type and size; only the full size can be sent as one bit. */
  function HeaderBits(kind: nat, size: nat, full: bool): seq<bool>
    requires full ==> size == F.MAX_BLOCK_SIZE
  {
    ToBits(kind, 3) + (if full then ToBits(1, 1) else ToBits(0, 1) + ToBits(size, 16))
  }

  ghost function EncodePacked(c: Coding, b: Block): seq<bool>
    requires b.Packed? && BlockOk(c, b)
  {
    var size := F.TotalSize(b.tokens);
    HeaderBits(Kind(b), size, size == F.MAX_BLOCK_SIZE)
    + F.EncodeTrees(b.plan, c.main, c.length)
    + F.EncodeTokens(F.PlannedTrees(b.plan, c.main, c.length), b.tokens)
  }

  /** What the block means: its trees, and the LZ77 expansion of its tokens; or its offsets and its bytes. */
  ghost function Then(c: Coding, b: Block): (r: Coding)
    requires BlockOk(c, b)
    ensures CodingOk(r)
  {
    match b
    case Packed(plan, tokens) =>
      var t := F.PlannedTrees(plan, c.main, c.length);
      var (out, lru) := F.Expand(c.out, c.lru, tokens).value;
      Coding(t.main, t.length, lru, out)
    case Raw(lru, data) => c.(lru := lru, out := c.out + data)
  }

  lemma HeaderRoundTrip(kind: nat, size: nat, full: bool, s: F.Source, rest: seq<bool>)
    requires 1 <= kind <= 3 && size <= F.MAX_BLOCK_SIZE && (full ==> size == F.MAX_BLOCK_SIZE)
    requires s.bits == HeaderBits(kind, size, full) + rest
    ensures HeaderAt(s).Some? && HeaderAt(s).value.0 == kind && HeaderAt(s).value.1 == size
    ensures HeaderAt(s).value.2.bits == rest
  {
    hide ToBits, F.TakeNumber, Pow2;
    Pow2Values();
    var flag, tail := if full then 1 else 0, if full then rest else ToBits(size, 16) + rest;
    assert s.bits == ToBits(kind, 3) + (ToBits(flag, 1) + tail);
    F.TakeWritten(kind, 3, s, ToBits(flag, 1) + tail);
    var s1 := F.TakeNumber(s, 3).value.1;
    F.TakeWritten(flag, 1, s1, tail);
    if !full { F.TakeWritten(size, 16, F.TakeNumber(s1, 1).value.1, rest); }
  }

  /** Where the next header is read from: past the padding byte of an odd raw block. */
  function Upcoming(input: seq<byte>, s: Snapshot): F.Source {
    if s.unaligned then SourceOf(input, [], s.source.at + 1) else s.source
  }

  /** The padding byte, if there is one, is there. */
  predicate Aligned(input: seq<byte>, s: Snapshot) {
    s.unaligned ==> s.source.at < |input|
  }

  /** The block is decoded into what it means, and the decoder stops after it. */
  ghost predicate DecodesTo(input: seq<byte>, s: Snapshot, b: Block, rest: seq<bool>)
    requires BlockOk(s.coding, b)
  {
    && NextBlock(input, s).Some?
    && NextBlock(input, s).value.coding == Then(s.coding, b)
    && Aligned(input, NextBlock(input, s).value)
    && Upcoming(input, NextBlock(input, s).value).bits == rest
  }

  lemma PackedRoundTrip(input: seq<byte>, s: Snapshot, b: Block, rest: seq<bool>)
    requires b.Packed? && BlockOk(s.coding, b) && Aligned(input, s)
    requires Upcoming(input, s).bits == EncodePacked(s.coding, b) + rest
    ensures DecodesTo(input, s, b, rest)
  {
    hide HeaderBits, HeaderAt, F.EncodeTrees, F.EncodeTokens, F.ReadTrees, F.ParseTokens, F.Expand, F.TotalSize;
    hide F.BlockPlanOk, F.PlannedTrees, F.Encodable, SourceOf;
    var c, size, start := s.coding, F.TotalSize(b.tokens), Upcoming(input, s);
    var t := F.PlannedTrees(b.plan, c.main, c.length);
    var tokens := F.EncodeTokens(t, b.tokens) + rest;
    var trees := F.EncodeTrees(b.plan, c.main, c.length) + tokens;
    assert start.bits == HeaderBits(Kind(b), size, size == F.MAX_BLOCK_SIZE) + trees;
    HeaderRoundTrip(Kind(b), size, size == F.MAX_BLOCK_SIZE, start, trees);
    var src := HeaderAt(start).value.2;
    F.TreesRoundTrip(b.plan, c.main, c.length, src, tokens);
    F.TokensRoundTrip(t, b.tokens, F.ReadTrees(src, c.main, c.length, b.plan.aligned.Some?).value.1, rest);
  }

  // ----- raw blocks ------------------------------------------------------------------------------

  function OffsetBytes(v: nat): (r: seq<byte>)
    requires v < 65536
    ensures |r| == 4
  {
    [v % 256, v / 256, 0, 0]
  }

  /** Three offsets, the data, and a byte of padding after an odd number of them. */
  function RawBytes(lru: F.Lru, data: seq<byte>): (r: seq<byte>)
    requires lru.r0 < 65536 && lru.r1 < 65536 && lru.r2 < 65536
    ensures |r| == 12 + |data| + |data| % 2
  {
    OffsetBytes(lru.r0) + OffsetBytes(lru.r1) + OffsetBytes(lru.r2) + data + (if |data| % 2 == 1 then [0] else [])
  }

  lemma RawBytesParts(lru: F.Lru, data: seq<byte>)
    requires lru.r0 < 65536 && lru.r1 < 65536 && lru.r2 < 65536
    ensures RawLru(RawBytes(lru, data)[..12]) == lru && RawBytes(lru, data)[12..12 + |data|] == data
  {
  }

  /** The bits up to the next word boundary, 1 to 16 of them, when `pos` bits have been written. */
  function PadTo(pos: nat): (n: nat)
    ensures 1 <= n <= 16 && (pos + n) % 16 == 0
  {
    16 - pos % 16
  }

  /** The size is always sent in full, so that the decoder finds the boundary. */
  ghost function EncodeRaw(b: Block, pos: nat): seq<bool>
    requires b.Raw? && b.lru.r0 < 65536 && b.lru.r1 < 65536 && b.lru.r2 < 65536
  {
    HeaderBits(F.UNCOMPRESSED_BLOCK, |b.data|, false) + (Zeros(PadTo(pos + 20)) + Words(RawBytes(b.lru, b.data)))
  }

  lemma WordParts(lo: byte, hi: byte)
    ensures Word(lo, hi) < 65536 && Word(lo, hi) % 256 == lo && Word(lo, hi) / 256 == hi
  {
  }

  lemma WordIs(a: seq<byte>, b: seq<byte>)
    requires |a| >= 2 && |b| >= 2 && ToBits(Word(a[0], a[1]), 16) == ToBits(Word(b[0], b[1]), 16)
    ensures a[0] == b[0] && a[1] == b[1]
  {
    hide ToBits, Pow2, Word;
    Pow2Values();
    WordParts(a[0], a[1]);
    WordParts(b[0], b[1]);
    ValueOfToBits(Word(a[0], a[1]), 16);
    ValueOfToBits(Word(b[0], b[1]), 16);
  }

  lemma FirstWord(x: seq<byte>, rest: seq<bool>)
    requires |x| >= 2
    ensures |Words(x) + rest| >= 16 && (Words(x) + rest)[..16] == ToBits(Word(x[0], x[1]), 16)
    ensures (Words(x) + rest)[16..] == Words(x[2..]) + rest
  {
    hide ToBits, Word, Words;
    WordsStep(x, 0);
    assert x[0..] == x;
    assert Words(x) + rest == ToBits(Word(x[0], x[1]), 16) + (Words(x[2..]) + rest);
  }

  /** Whole words determine the bytes they were read from. */
  lemma {:induction false} WordsDetermine(x: seq<byte>, y: seq<byte>, rest: seq<bool>)
    requires |y| % 2 == 0 && Words(x) == Words(y) + rest
    ensures |y| <= |x| && x[..|y|] == y && Words(x[|y|..]) == rest
  {
    hide ToBits, Word, Words;
    if y == [] {
      WordsLength(y);
      assert x[0..] == x && Words(y) + rest == rest;
    } else {
      FirstWord(y, rest);
      WordsLength(x);
      FirstWord(x, []);
      assert Words(x) + [] == Words(x) && Words(x[2..]) + [] == Words(x[2..]);
      WordIs(x, y);
      WordsDetermine(x[2..], y[2..], rest);
      assert x[2..][|y| - 2..] == x[|y|..];
      assert x[..|y|] == [x[0], x[1]] + x[2..][..|y| - 2] && y == [y[0], y[1]] + y[2..];
    }
  }

  /** A header with an explicit size leaves at most a word in the register. */
  lemma RawHeaderRead(input: seq<byte>, start: F.Source, size: nat, rest: seq<bool>)
    requires Held(input, start) && size <= F.MAX_BLOCK_SIZE
    requires start.bits == HeaderBits(F.UNCOMPRESSED_BLOCK, size, false) + rest
    ensures HeaderAt(start).Some?
    ensures HeaderAt(start).value.0 == F.UNCOMPRESSED_BLOCK && HeaderAt(start).value.1 == size
    ensures var src := HeaderAt(start).value.2;
            src.bits == rest && src.ahead <= 16 && Held(input, src)
  {
    hide HeaderAt, Held;
    HeaderRoundTrip(F.UNCOMPRESSED_BLOCK, size, false, start, rest);
    assert !start.bits[3] by { assert ToBits(0, 1) == [] + [false]; }
    HeaderAhead(input, start);
    HeldHeader(input, start);
  }

  /** With at most a word in the register, the padding is what the reader drops, and the words are still ahead. */
  lemma RawRoom(ahead: nat, at: nat, end: nat, pad: nat, words: nat, rest: nat)
    requires ahead <= 16 && at <= end && 1 <= pad <= 16 && words >= 6
    requires ahead + 16 * ((end - at) / 2) == pad + 16 * words + 16 * rest
    ensures RawStart(ahead, at) <= end && Padding(pad + 16 * (words + rest)) == pad
  {
    var n, k := (end - at) / 2, words + rest;
    assert 2 * n <= end - at;
    assert ahead + 16 * n == pad + 16 * k;
    if ahead == 0 {
      assert n == k + 1;
    } else {
      assert n == k;
    }
    assert pad < 16 ==> (pad + 16 * k) % 16 == pad;
  }

  lemma HeldLength(input: seq<byte>, src: F.Source)
    requires Held(input, src)
    ensures |src.bits| == src.ahead + 16 * ((|input| - src.at) / 2)
  {
    hide Words;
    WordsLength(input[src.at..]);
  }

  /** The reader drops its register, which holds the padding, and stands at a word boundary. */
  lemma RawBoundary(input: seq<byte>, src: F.Source, pad: seq<bool>, bytes: seq<byte>, rest: seq<bool>)
    requires Held(input, src) && src.ahead <= 16 && src.bits == pad + (Words(bytes) + rest)
    requires 1 <= |pad| <= 16 && |bytes| % 2 == 0 && |bytes| >= 12 && |rest| % 16 == 0
    ensures RawStart(src.ahead, src.at) <= |input|
    ensures Words(input[RawStart(src.ahead, src.at) - 12..]) == Words(bytes) + rest
  {
    hide Words, Padding, RawStart;
    assert RawStart(src.ahead, src.at) <= |input| && Padding(|src.bits|) == |pad| by {
      hide Held;
      HeldLength(input, src);
      WordsLength(bytes);
      assert |rest| == 16 * (|rest| / 16);
      RawRoom(src.ahead, src.at, |input|, |pad|, |bytes| / 2, |rest| / 16);
    }
    RawStartsAtBoundary(input, src);
    assert src.bits[|pad|..] == Words(bytes) + rest;
  }

  lemma SlicesAt(input: seq<byte>, at: nat, bytes: seq<byte>, i: nat, j: nat)
    requires at + |bytes| <= |input| && input[at..at + |bytes|] == bytes && i <= j <= |bytes|
    ensures input[at + i..at + j] == bytes[i..j]
  {
    var a, b := input[at + i..at + j], input[at..at + |bytes|];
    forall k | 0 <= k < j - i
      ensures a[k] == b[i..j][k]
    {
      assert b[i + k] == input[at + (i + k)];
    }
    assert a == b[i..j];
  }

  /** What the reader finds there: the block's bytes, and after them the rest of the stream. */
  lemma RawBytesFound(input: seq<byte>, at: nat, bytes: seq<byte>, rest: seq<bool>)
    requires at <= |input| && |bytes| % 2 == 0 && Words(input[at..]) == Words(bytes) + rest
    ensures at + |bytes| <= |input| && input[at..at + |bytes|] == bytes && Words(input[at + |bytes|..]) == rest
  {
    hide Words;
    WordsDetermine(input[at..], bytes, rest);
    assert input[at..][..|bytes|] == input[at..at + |bytes|];
    assert input[at..][|bytes|..] == input[at + |bytes|..];
  }

  lemma RawRoundTrip(input: seq<byte>, s: Snapshot, b: Block, pos: nat, rest: seq<bool>)
    requires b.Raw? && BlockOk(s.coding, b) && SnapshotOk(input, s) && Aligned(input, s)
    requires Upcoming(input, s).bits == EncodeRaw(b, pos) + rest && |rest| % 16 == 0
    ensures DecodesTo(input, s, b, rest)
  {
    hide HeaderBits, HeaderAt, Held, Words, Zeros, RawLru, RawBytes, PadTo;
    var start, bytes, pad := Upcoming(input, s), RawBytes(b.lru, b.data), Zeros(PadTo(pos + 20));
    if s.unaligned { SourceIsHeld(input, s.source.at + 1); }
    var tail := pad + (Words(bytes) + rest);
    assert start.bits == HeaderBits(F.UNCOMPRESSED_BLOCK, |b.data|, false) + tail;
    RawHeaderRead(input, start, |b.data|, tail);
    var src := HeaderAt(start).value.2;
    var at, n := RawStart(src.ahead, src.at), |b.data|;
    RawBoundary(input, src, pad, bytes, rest);
    RawBytesFound(input, at - 12, bytes, rest);
    RawBytesParts(b.lru, b.data);
    SlicesAt(input, at - 12, bytes, 0, 12);
    SlicesAt(input, at - 12, bytes, 12, 12 + n);
    RawDecodes(input, s, b, rest);
  }

  /** The block's offsets and data, at the place the reader finds, are what the decoder makes of it. */
  lemma RawDecodes(input: seq<byte>, s: Snapshot, b: Block, rest: seq<bool>)
    requires b.Raw? && BlockOk(s.coding, b) && Aligned(input, s) && HeaderAt(Upcoming(input, s)).Some?
    requires var (kind, size, src) := HeaderAt(Upcoming(input, s)).value;
             var at, n := RawStart(src.ahead, src.at), |b.data|;
             && kind == F.UNCOMPRESSED_BLOCK && size == n
             && at + n + n % 2 <= |input| && RawLru(input[at - 12..at]) == b.lru && input[at..at + n] == b.data
             && Words(input[at + n + n % 2..]) == rest
    ensures DecodesTo(input, s, b, rest)
  {
    hide HeaderAt, Words, RawLru;
    var src := HeaderAt(Upcoming(input, s)).value.2;
    var at, n := RawStart(src.ahead, src.at), |b.data|;
    assert NextHeader(input, s) == HeaderAt(Upcoming(input, s));
    assert NextBlock(input, s) == RawBlock(input, s.coding, n, src);
  }

  // ----- a chunk -------------------------------------------------------------------------------

  ghost function EncodeBlock(c: Coding, b: Block, pos: nat): seq<bool>
    requires BlockOk(c, b)
  {
    if b.Packed? then EncodePacked(c, b) else EncodeRaw(b, pos)
  }

  /** ROUND TRIP: any block, sent after `pos` bits, is decoded into what it means. */
  lemma BlockRoundTrip(input: seq<byte>, s: Snapshot, b: Block, pos: nat, rest: seq<bool>)
    requires BlockOk(s.coding, b) && SnapshotOk(input, s) && Aligned(input, s)
    requires (pos + |Upcoming(input, s).bits|) % 16 == 0
    requires Upcoming(input, s).bits == EncodeBlock(s.coding, b, pos) + rest
    ensures DecodesTo(input, s, b, rest)
  {
    hide EncodePacked, DecodesTo, BlockOk, Words, Held;
    if b.Packed? {
      PackedRoundTrip(input, s, b, rest);
    } else {
      RawLength(s.coding, b, pos);
      RawRoundTrip(input, s, b, pos, rest);
    }
  }

  lemma RawLength(c: Coding, b: Block, pos: nat)
    requires b.Raw? && BlockOk(c, b)
    ensures (pos + |EncodeRaw(b, pos)|) % 16 == 0
  {
    hide Words, ToBits, Zeros, RawBytes;
    WordsLength(RawBytes(b.lru, b.data));
  }

  ghost predicate BlocksOk(c: Coding, bs: seq<Block>)
    decreases |bs|
  {
    bs != [] ==> BlockOk(c, bs[0]) && BlocksOk(Then(c, bs[0]), bs[1..])
  }

  ghost function EncodeBlocks(c: Coding, bs: seq<Block>, pos: nat): seq<bool>
    requires BlocksOk(c, bs)
    decreases |bs|
  {
    if bs == [] then []
    else
      var first := EncodeBlock(c, bs[0], pos);
      first + EncodeBlocks(Then(c, bs[0]), bs[1..], pos + |first|)
  }

  ghost function Meaning(c: Coding, bs: seq<Block>): Coding
    requires BlocksOk(c, bs)
    decreases |bs|
  {
    if bs == [] then c else Meaning(Then(c, bs[0]), bs[1..])
  }

  /** Every block is needed to reach `size`. */
  ghost predicate ShortOf(c: Coding, bs: seq<Block>, size: nat)
    requires BlocksOk(c, bs)
    decreases |bs|
  {
    bs != [] ==> |c.out| < size && ShortOf(Then(c, bs[0]), bs[1..], size)
  }

  /** From any point of a chunk, the blocks that follow are decoded one by one into their meaning. */
  lemma {:induction false} BlocksRoundTrip(
      chunk: seq<byte>, n: nat, bs: seq<Block>, pos: nat, rest: seq<bool>, size: nat)
    requires AfterBlocks(chunk, n).Some? && Aligned(chunk, AfterBlocks(chunk, n).value)
    requires BlocksOk(AfterBlocks(chunk, n).value.coding, bs)
    requires var s := AfterBlocks(chunk, n).value;
             && Upcoming(chunk, s).bits == EncodeBlocks(s.coding, bs, pos) + rest
             && (pos + |Upcoming(chunk, s).bits|) % 16 == 0
             && ShortOf(s.coding, bs, size) && ShortFor(chunk, size, n)
    ensures AfterBlocks(chunk, n + |bs|).Some?
    ensures AfterBlocks(chunk, n + |bs|).value.coding == Meaning(AfterBlocks(chunk, n).value.coding, bs)
    ensures Upcoming(chunk, AfterBlocks(chunk, n + |bs|).value).bits == rest
    ensures ShortFor(chunk, size, n + |bs|)
    decreases |bs|
  {
    hide AfterBlocks, NextBlock, BlockOk, EncodeBlock, Then, Upcoming, SnapshotOk;
    var s := AfterBlocks(chunk, n).value;
    if bs == [] {
      assert Upcoming(chunk, s).bits == rest;
    } else {
      var first := EncodeBlock(s.coding, bs[0], pos);
      var tail := EncodeBlocks(Then(s.coding, bs[0]), bs[1..], pos + |first|) + rest;
      assert Upcoming(chunk, s).bits == first + tail;
      BlockAfter(chunk, n);
      RunsAreHeld(chunk, n);
      BlockRoundTrip(chunk, s, bs[0], pos, tail);
      BlocksRoundTrip(chunk, n + 1, bs[1..], pos + |first|, rest, size);
    }
  }

  /**
   ROUND TRIP: a chunk made of blocks, compressed or raw, that stand for the filtered data decodes to the data.
   What follows the blocks does not matter.
   */
  lemma ChunkRoundTrip(chunk: seq<byte>, bs: seq<Block>, rest: seq<bool>, data: seq<byte>)
    requires BlocksOk(Blank(), bs) && Words(chunk) == EncodeBlocks(Blank(), bs, 0) + rest
    requires |data| <= WINDOW_SIZE && Meaning(Blank(), bs).out == E8Filter.Encoded(data, 0)
    requires ShortOf(Blank(), bs, |data|)
    ensures Finishes(chunk, |data|, |bs|)
    ensures E8Filter.Decoded(AfterBlocks(chunk, |bs|).value.coding.out[..|data|], 0) == data
  {
    hide BlocksOk, EncodeBlocks, Meaning, ShortOf, Words, NextBlock, E8Filter.Encoded, E8Filter.Decoded, Blank;
    assert chunk[0..] == chunk;
    assert Upcoming(chunk, Initial(chunk)).bits == Words(chunk);
    WordsLength(chunk);
    BlocksRoundTrip(chunk, 0, bs, 0, rest, |data|);
    var out := E8Filter.Encoded(data, 0);
    assert out[..|data|] == out;
    E8Filter.DecodedBijective(data, 0);
  }

  // ----- bits to bytes -------------------------------------------------------------------------

  /** The bytes of the little-endian words that hold the bits. */
  function Pack(bits: seq<bool>): (r: seq<byte>)
    ensures |r| == 2 * (|bits| / 16)
  {
    if |bits| < 16 then []
    else
      var v := PackedWord(bits[..16]);
      [v % 256, v / 256] + Pack(bits[16..])
  }

  function PackedWord(bits: seq<bool>): (v: nat)
    requires |bits| == 16
    ensures v < 65536
  {
    Pow2Values();
    Value(bits)
  }

  lemma {:induction false} PackedWords(bits: seq<bool>, tail: seq<byte>)
    requires |bits| % 16 == 0
    ensures Words(Pack(bits) + tail) == bits + Words(tail)
  {
    hide Value, ToBits, Pow2;
    if bits == [] {
      assert Pack(bits) + tail == tail;
    } else {
      var all, v := Pack(bits) + tail, PackedWord(bits[..16]);
      PackedWords(bits[16..], tail);
      assert all[2..] == Pack(bits[16..]) + tail;
      assert Word(all[0], all[1]) == v;
      ToBitsOfValue(bits[..16]);
      assert bits[..16] + bits[16..] == bits;
    }
  }
}
