/** Concrete chunks: every buffer has one, and one on which raw data are read from the wrong place. */
module LzxWitness {
  import opened Common
  import opened Bits
  import opened Huffman
  import opened LzxReader
  import opened LzxBlocks
  import opened LzxEncoder
  import E8Filter
  import F = LzxFormat

  // ----- trees that change every length alike ----------------------------------------------------

  function Constant(n: nat, x: nat): seq<nat> {
    seq(n, _ => x)
  }

  /** A pretree with two-bit codes for the deltas 0 and 9. */
  function Pretree(): (pre: seq<nat>)
    ensures |pre| == 20 && pre[0] == 2 && pre[9] == 2
    ensures forall k :: 0 <= k < |pre| ==> pre[k] <= 2
  {
    [2, 1] + Constant(7, 0) + [2] + Constant(10, 0)
  }

  lemma {:induction false} KraftConcat(a: seq<nat>, b: seq<nat>)
    requires LengthsOk(a) && LengthsOk(b)
    ensures LengthsOk(a + b) && Kraft(a + b) == Kraft(a) + Kraft(b)
    decreases |b|
  {
    hide Share;
    if b == [] {
      assert a + b == a;
    } else {
      var init := b[..|b| - 1];
      KraftConcat(a, init);
      assert (a + b)[..|a + b| - 1] == a + init;
    }
  }

  lemma KraftOne(x: nat)
    requires x <= MAX_TREE_PATH_LEN
    ensures LengthsOk([x]) && Kraft([x]) == Share(x)
  {
    assert [x][..0] == [];
  }

  lemma PretreeKraft()
    ensures LengthsOk(Pretree()) && Kraft(Pretree()) == Share(2) + Share(1) + Share(2)
  {
    hide Kraft, Share;
    var z1, z2 := Constant(7, 0), Constant(10, 0);
    KraftOne(2);
    KraftOne(1);
    KraftZero(z1);
    KraftZero(z2);
    KraftConcat([2], [1]);
    assert [2] + [1] == [2, 1];
    KraftConcat([2, 1], z1);
    KraftConcat([2, 1] + z1, [2]);
    KraftConcat([2, 1] + z1 + [2], z2);
  }

  lemma PretreeShares()
    ensures Share(2) + Share(1) + Share(2) == Pow2(MAX_TREE_PATH_LEN)
  {
    assert Pow2(16) == 2 * Pow2(15) && Pow2(15) == 2 * Pow2(14);
  }

  lemma PretreeUsable()
    ensures F.UsableCode(Pretree()) && F.NumbersFit(Pretree(), 4)
  {
    hide Kraft, Share, Pretree, Pow2;
    PretreeKraft();
    PretreeShares();
    Pow2Values();
  }

  /** A tree sent as the same delta for every entry. */
  function Uniform(n: nat, d: nat): F.TreePlan {
    F.TreePlan(Pretree(), Deltas(n, d))
  }

  function Deltas(n: nat, d: nat): seq<F.TreeItem> {
    seq(n, _ => F.Delta(d))
  }

  ghost predicate SentAlike(d: nat) {
    d == 0 || d == 9
  }

  lemma {:induction false} DeltasSpan(n: nat, d: nat)
    ensures F.Span(Deltas(n, d)) == n
  {
    if n > 0 {
      assert Deltas(n, d)[1..] == Deltas(n - 1, d);
      DeltasSpan(n - 1, d);
    }
  }

  lemma UniformOk(n: nat, d: nat)
    requires SentAlike(d)
    ensures F.PlanOk(Uniform(n, d), n)
  {
    hide F.UsableCode, F.NumbersFit, F.Span;
    PretreeUsable();
    DeltasSpan(n, d);
  }

  lemma {:induction false} DeltasApplied(lens: seq<nat>, i: nat, d: nat)
    requires SentAlike(d) && i <= |lens| && F.ItemsOk(Pretree(), Deltas(|lens| - i, d))
    requires F.Span(Deltas(|lens| - i, d)) == |lens| - i
    requires forall k :: i <= k < |lens| ==> lens[k] == 0
    ensures F.ApplyItems(Pretree(), lens, i, Deltas(|lens| - i, d))
            == lens[..i] + Constant(|lens| - i, F.Undelta(0, d))
    decreases |lens| - i
  {
    hide Pretree;
    if i < |lens| {
      var items, lens' := Deltas(|lens| - i, d), lens[i := F.Undelta(0, d)];
      assert items[1..] == Deltas(|lens| - i - 1, d);
      DeltasSpan(|lens| - i - 1, d);
      assert F.ItemOk(Pretree(), items[0]);
      DeltasApplied(lens', i + 1, d);
      assert lens'[..i + 1] == lens[..i] + [F.Undelta(0, d)];
    }
  }

  /** The lengths a uniform tree leaves over all-zero ones. */
  lemma UniformPlanned(n: nat, d: nat, lens: seq<nat>)
    requires SentAlike(d) && lens == Constant(n, 0)
    ensures F.PlanOk(Uniform(n, d), |lens|) && F.Planned(Uniform(n, d), lens) == Constant(n, F.Undelta(0, d))
  {
    hide F.UsableCode, F.NumbersFit, F.Span, F.ItemsOk, F.ApplyItems;
    UniformOk(n, d);
    DeltasApplied(lens, 0, d);
    assert lens[..0] + Constant(n, F.Undelta(0, d)) == Constant(n, F.Undelta(0, d));
  }

  /** The trees of a first block: the literals' lengths set by delta `d`, everything else left at zero. */
  function FirstTrees(d: nat): F.BlockPlan {
    F.BlockPlan(Uniform(F.MAIN_CODE_SPLIT, d), Uniform(240, 0), Uniform(LEN_CODE_COUNT, 0), None)
  }

  lemma {:induction false} KraftEights(n: nat)
    ensures LengthsOk(Constant(n, 8)) && Kraft(Constant(n, 8)) == 256 * n
  {
    hide Share;
    if n > 0 {
      KraftEights(n - 1);
      assert Constant(n, 8)[..n - 1] == Constant(n - 1, 8);
      assert Share(8) == 256 by { ShareOfEight(); }
    }
  }

  lemma ShareOfEight()
    ensures Share(8) == 256
  {
    hide Pow2;
    Pow2Values();
  }

  /** The main tree that delta `d` leaves is usable: no code at all, or eight bits for every literal. */
  lemma MainUsable(d: nat)
    requires SentAlike(d)
    ensures F.UsableCode(Constant(F.MAIN_CODE_SPLIT, F.Undelta(0, d)) + Constant(240, 0))
  {
    hide Kraft, Pow2;
    if d == 9 {
      KraftEights(F.MAIN_CODE_SPLIT);
      KraftZero(Constant(240, 0));
      KraftConcat(Constant(F.MAIN_CODE_SPLIT, 8), Constant(240, 0));
      Pow2Values();
    }
  }

  lemma FirstTreesOk(d: nat)
    requires SentAlike(d)
    ensures F.BlockPlanOk(FirstTrees(d), Blank().main, Blank().length)
    ensures F.PlannedTrees(FirstTrees(d), Blank().main, Blank().length)
            == F.Trees(Constant(F.MAIN_CODE_SPLIT, F.Undelta(0, d)) + Constant(240, 0), Blank().length, None)
  {
    hide F.PlanOk, F.Planned, F.UsableCode, F.Undelta;
    var main, length := Blank().main, Blank().length;
    assert main[..F.MAIN_CODE_SPLIT] == Constant(F.MAIN_CODE_SPLIT, 0);
    assert main[F.MAIN_CODE_SPLIT..] == Constant(240, 0);
    assert length == Constant(LEN_CODE_COUNT, 0);
    UniformPlanned(F.MAIN_CODE_SPLIT, d, main[..F.MAIN_CODE_SPLIT]);
    UniformPlanned(240, 0, main[F.MAIN_CODE_SPLIT..]);
    UniformPlanned(LEN_CODE_COUNT, 0, length);
    assert F.Undelta(0, 0) == 0 by { UndeltaZero(); }
    MainUsable(d);
    ZerosUsable(length);
  }

  lemma UndeltaZero()
    ensures F.Undelta(0, 0) == 0
  {
  }

  lemma ZerosUsable(lens: seq<nat>)
    requires AllZero(lens)
    ensures F.UsableCode(lens)
  {
  }

  // ----- every buffer has a chunk ----------------------------------------------------------------

  function Literals(data: seq<byte>): seq<F.Token> {
    seq(|data|, i requires 0 <= i < |data| => F.Literal(data[i]))
  }

  lemma {:induction false} LiteralsExpand(out: seq<byte>, lru: F.Lru, data: seq<byte>)
    ensures F.Expand(out, lru, Literals(data)) == Some((out + data, lru))
    ensures F.TotalSize(Literals(data)) == |data|
    decreases |data|
  {
    if data == [] {
      assert out + data == out;
    } else {
      assert Literals(data)[1..] == Literals(data[1..]);
      LiteralsExpand(out + [data[0]], lru, data[1..]);
      assert out + [data[0]] + data[1..] == out + data;
    }
  }

  function LiteralBlock(data: seq<byte>): (b: Block)
    ensures b.Packed?
  {
    Packed(FirstTrees(9), Literals(data))
  }

  lemma LiteralBlockOk(data: seq<byte>)
    requires |data| <= WINDOW_SIZE
    ensures BlockOk(Blank(), LiteralBlock(data)) && Then(Blank(), LiteralBlock(data)).out == data
  {
    hide F.BlockPlanOk, F.PlannedTrees, F.UsableCode, F.Expand, F.TotalSize;
    FirstTreesOk(9);
    LiteralsExpand([], Blank().lru, data);
    MainUsable(9);
    ZerosUsable(Blank().length);
    assert [] + data == data;
  }

  /** A chunk of one block. */
  lemma SingleBlock(b: Block, size: nat)
    requires b.Packed? && BlockOk(Blank(), b) && size > 0
    ensures BlocksOk(Blank(), [b]) && EncodeBlocks(Blank(), [b], 0) == EncodePacked(Blank(), b)
    ensures Meaning(Blank(), [b]) == Then(Blank(), b) && ShortOf(Blank(), [b], size)
  {
    hide BlockOk, EncodePacked, Then;
    assert [b][1..] == [];
    assert EncodePacked(Blank(), b) + [] == EncodePacked(Blank(), b);
  }

  /** The bits, filled up to whole words, as a chunk. */
  lemma Filled(bits: seq<bool>) returns (chunk: seq<byte>, pad: seq<bool>)
    ensures Words(chunk) == bits + pad
  {
    hide Words, Pack, Zeros;
    pad := Zeros(15 - (|bits| + 15) % 16);
    chunk := Pack(bits + pad);
    PackedWords(bits + pad, []);
    NoWords();
    assert Pack(bits + pad) + [] == chunk;
  }

  /** ONTO: every buffer of at most 32768 bytes is what some chunk decodes to. */
  lemma EveryBufferHasAChunk(data: seq<byte>) returns (chunk: seq<byte>, n: nat)
    requires |data| <= WINDOW_SIZE
    ensures Finishes(chunk, |data|, n)
    ensures E8Filter.Decoded(AfterBlocks(chunk, n).value.coding.out[..|data|], 0) == data
  {
    hide BlockOk, BlocksOk, EncodePacked, EncodeBlocks, Then, Meaning, ShortOf, Words, NextBlock, LiteralBlock;
    hide E8Filter.Encoded, E8Filter.Decoded;
    if data == [] {
      chunk, n := [], 0;
    } else {
      var filtered := E8Filter.Encoded(data, 0);
      var b := LiteralBlock(filtered);
      LiteralBlockOk(filtered);
      SingleBlock(b, |data|);
      var pad;
      chunk, pad := Filled(EncodePacked(Blank(), b));
      n := 1;
      ChunkRoundTrip(chunk, [b], pad, data);
    }
  }

  lemma NoWords()
    ensures Words([]) == []
  {
  }

  // ----- raw data read from the wrong place --------------------------------------------------------

  /** A block without tokens or codes. */
  function EmptyBlock(): Block {
    Packed(FirstTrees(0), [])
  }

  lemma EmptyBlockOk()
    ensures BlockOk(Blank(), EmptyBlock()) && Then(Blank(), EmptyBlock()) == Blank()
  {
    hide F.BlockPlanOk, F.PlannedTrees, F.UsableCode, FirstTrees, Constant, F.Undelta, Blank;
    FirstTreesOk(0);
    UndeltaZero();
    BlankMain();
  }

  lemma BlankMain()
    ensures Constant(F.MAIN_CODE_SPLIT, 0) + Constant(240, 0) == Blank().main
    ensures Blank().out == []
  {
  }

  lemma {:induction false} NibblesLength(ns: seq<nat>)
    ensures |F.EncodeNumbers(ns, 4)| == 4 * |ns|
  {
    hide ToBits;
    if ns != [] { NibblesLength(ns[..|ns| - 1]); }
  }

  lemma {:induction false} DeltasLength(n: nat)
    ensures F.ItemsOk(Pretree(), Deltas(n, 0)) && |F.EncodeItems(Pretree(), Deltas(n, 0))| == 2 * n
  {
    hide Pretree, Codeword;
    if n > 0 {
      assert Deltas(n, 0)[1..] == Deltas(n - 1, 0);
      DeltasLength(n - 1);
      assert F.ItemOk(Pretree(), Deltas(n, 0)[0]);
    }
  }

  lemma UniformLength(n: nat)
    ensures F.ItemsOk(Pretree(), Deltas(n, 0)) && |F.EncodePlan(Uniform(n, 0))| == 80 + 2 * n
  {
    hide Pretree, F.EncodeItems, F.EncodeNumbers;
    NibblesLength(Pretree());
    DeltasLength(n);
  }

  lemma EmptyBlockLength()
    ensures BlockOk(Blank(), EmptyBlock()) && |EncodePacked(Blank(), EmptyBlock())| == 1750
  {
    hide BlockOk, F.BlockPlanOk, F.PlannedTrees, F.EncodePlan, ToBits;
    EmptyBlockOk();
    UniformLength(F.MAIN_CODE_SPLIT);
    UniformLength(240);
    UniformLength(LEN_CODE_COUNT);
    assert F.BlockPlanOk(FirstTrees(0), Blank().main, Blank().length) by { FirstTreesOk(0); }
  }

  /** After a run of two-bit codes the register is as full as the last of them left it. */
  lemma {:induction false} DeltasAhead(input: seq<byte>, s: F.Source, lens: seq<nat>, i: nat, rest: seq<bool>)
    requires Held(input, s) && i < |lens| && |rest| >= 32
    requires F.UsableCode(Pretree()) && F.ItemsOk(Pretree(), Deltas(|lens| - i, 0))
    requires s.bits == F.EncodeItems(Pretree(), Deltas(|lens| - i, 0)) + rest
    ensures F.ParseTree(Pretree(), s, lens, i).Some?
    ensures F.ParseTree(Pretree(), s, lens, i).value.1.ahead == 14 + (|rest| + 2) % 16
    decreases |lens| - i
  {
    hide Pretree, Codeword, F.UsableCode, Held, F.ApplyItem, F.ParseTreeItem;
    var items := Deltas(|lens| - i, 0);
    assert items[1..] == Deltas(|lens| - i - 1, 0) && items[0] == F.Delta(0);
    var tail := F.EncodeItems(Pretree(), items[1..]) + rest;
    assert s.bits == Codeword(Pretree(), 0) + tail;
    F.ItemRoundTrip(Pretree(), F.Delta(0), s, tail);
    DeltaAhead(input, s, tail);
    var s1 := F.ParseTreeItem(Pretree(), s).value.1;
    if i + 1 < |lens| {
      DeltasAhead(input, s1, F.ApplyItem(lens, i, F.Delta(0)), i + 1, rest);
    } else {
      assert tail == rest;
    }
  }

  lemma DeltaAhead(input: seq<byte>, s: F.Source, tail: seq<bool>)
    requires Held(input, s) && F.UsableCode(Pretree())
    requires s.bits == Codeword(Pretree(), 0) + tail && |tail| >= 32
    ensures F.ParseTreeItem(Pretree(), s).Some? && Held(input, F.ParseTreeItem(Pretree(), s).value.1)
    ensures F.ParseTreeItem(Pretree(), s).value.1.ahead == 14 + (|tail| + 2) % 16
  {
    hide Pretree, Codeword, F.TakeSymbol, Complete, Words;
    F.TakeEncoded(Pretree(), 0, s, tail);
    HeldSymbol(input, Pretree(), s);
    WordsLength(input[s.at..]);
    assert |s.bits| == s.ahead + |Words(input[s.at..])|;
  }

  /** The register after the trees is as full as the last tree left it. */
  lemma TreesAhead(input: seq<byte>, s: F.Source, rest: seq<bool>)
    requires F.BlockPlanOk(FirstTrees(0), Blank().main, Blank().length)
    requires Held(input, s) && |rest| >= 32
    requires s.bits == F.EncodeTrees(FirstTrees(0), Blank().main, Blank().length) + rest
    ensures F.ReadTrees(s, Blank().main, Blank().length, false).Some?
    ensures F.ReadTrees(s, Blank().main, Blank().length, false).value.1.ahead == 14 + (|rest| + 2) % 16
  {
    hide Held, F.ReadTree, F.UsableCode, F.ItemsOk, F.NumbersFit, F.Span, F.ReadMain, F.EncodePlan, F.Planned, Blank;
    var main, length, p := Blank().main, Blank().length, FirstTrees(0);
    var after := F.EncodePlan(p.length) + rest;
    assert s.bits == F.EncodePlan(p.low) + (F.EncodePlan(p.high) + after);
    F.TreesRoundTrip(p, main, length, s, rest);
    F.MainRoundTrip(p, main, s, after);
    var s1 := F.ReadMain(s, main).value.1;
    HeldMain(input, s, main);
    LastTreeAhead(input, s1, length, rest);
  }

  lemma HeldMain(input: seq<byte>, s: F.Source, main: seq<nat>)
    requires Held(input, s) && |main| >= F.MAIN_CODE_SPLIT && F.ReadMain(s, main).Some?
    ensures Held(input, F.ReadMain(s, main).value.1)
  {
    hide Held, F.ReadTree, F.UsableCode;
    HeldReadTree(input, s, main[..F.MAIN_CODE_SPLIT]);
    HeldReadTree(input, F.ReadTree(s, main[..F.MAIN_CODE_SPLIT]).value.1, main[F.MAIN_CODE_SPLIT..]);
  }

  lemma LastTreeAhead(input: seq<byte>, s: F.Source, lens: seq<nat>, rest: seq<bool>)
    requires Held(input, s) && |rest| >= 32 && |lens| > 0 && F.PlanOk(Uniform(|lens|, 0), |lens|)
    requires s.bits == F.EncodePlan(Uniform(|lens|, 0)) + rest
    ensures F.ReadTree(s, lens).Some? && F.ReadTree(s, lens).value.1.ahead == 14 + (|rest| + 2) % 16
  {
    hide Held, F.UsableCode, F.ItemsOk, F.NumbersFit, F.Span, F.EncodeItems, F.EncodeNumbers, F.TakeNumbers;
    hide F.ParseTree;
    hide Pretree, Deltas;
    var tail := F.EncodeItems(Pretree(), Deltas(|lens|, 0)) + rest;
    assert s.bits == F.EncodeNumbers(Pretree(), 4) + tail;
    F.NumbersRoundTrip(Pretree(), 4, s, tail);
    HeldNumbers(input, s, 4, 20);
    DeltasAhead(input, F.TakeNumbers(s, 4, 20).value.1, lens, 0, rest);
  }

  /** An empty block and the header of a full-size raw block, padded to the next word: 220 bytes. */
  ghost function RawPrefix(): seq<bool> {
    EmptyBlockOk();
    EncodePacked(Blank(), EmptyBlock()) + (HeaderBits(F.UNCOMPRESSED_BLOCK, F.MAX_BLOCK_SIZE, true) + Zeros(6))
  }

  /** The bits of the raw block that follow the empty block. */
  function RawBits(tail: seq<byte>): seq<bool> {
    HeaderBits(F.UNCOMPRESSED_BLOCK, F.MAX_BLOCK_SIZE, true) + (Zeros(6) + Words(tail))
  }

  lemma RawPrefixLength()
    ensures |RawPrefix()| == 1760 && |Pack(RawPrefix())| == 220
  {
    hide EncodePacked, BlockOk, ToBits, Pack;
    EmptyBlockLength();
  }

  lemma RawPrefixWords(tail: seq<byte>)
    ensures BlockOk(Blank(), EmptyBlock())
    ensures Words(Pack(RawPrefix()) + tail) == EncodePacked(Blank(), EmptyBlock()) + RawBits(tail)
  {
    hide EncodePacked, BlockOk, HeaderBits, Words, Pack, Zeros, Blank, EmptyBlock;
    EmptyBlockOk();
    RawPrefixLength();
    PackedWords(RawPrefix(), tail);
  }

  /** The state after the empty block: nothing decoded, the register nearly full. */
  lemma AfterEmpty(chunk: seq<byte>, rest: seq<bool>)
    requires BlockOk(Blank(), EmptyBlock()) && |rest| >= 32
    requires Words(chunk) == EncodePacked(Blank(), EmptyBlock()) + rest
    ensures AfterBlocks(chunk, 1).Some? && SnapshotOk(chunk, AfterBlocks(chunk, 1).value)
    ensures var s := AfterBlocks(chunk, 1).value;
            && s.coding == Blank() && !s.unaligned && s.source.bits == rest
            && s.source.ahead == 14 + (|rest| + 2) % 16 && s.source.at % 2 == 0
  {
    hide Words, EncodePacked, BlockOk, NextBlock, Held, Blank, Then;
    var s := Initial(chunk);
    assert chunk[0..] == chunk;
    assert s.source.bits == Words(chunk);
    SourceIsHeld(chunk, 0);
    EmptyBlockOk();
    BlockAfter(chunk, 0);
    PackedRoundTrip(chunk, s, EmptyBlock(), rest);
    HeldBlock(chunk, s);
    EmptyAhead(chunk, s, rest);
  }

  lemma EmptyAhead(chunk: seq<byte>, s: Snapshot, rest: seq<bool>)
    requires BlockOk(Blank(), EmptyBlock()) && |rest| >= 32
    requires s.coding == Blank() && !s.unaligned && Held(chunk, s.source)
    requires s.source.bits == EncodePacked(Blank(), EmptyBlock()) + rest
    ensures NextBlock(chunk, s).Some? ==>
              && !NextBlock(chunk, s).value.unaligned
              && NextBlock(chunk, s).value.source.ahead == 14 + (|rest| + 2) % 16
              && NextBlock(chunk, s).value.source.at % 2 == s.source.at % 2
  {
    hide HeaderBits, HeaderAt, F.EncodeTrees, F.ReadTrees, F.BlockPlanOk, F.PlannedTrees, Held, Blank, FirstTrees;
    var plan, main, length := FirstTrees(0), Blank().main, Blank().length;
    var trees := F.EncodeTrees(plan, main, length) + rest;
    assert EncodePacked(Blank(), EmptyBlock()) + rest == HeaderBits(F.VERBATIM_BLOCK, 0, false) + trees by {
      assert FirstTrees(0).aligned == None by { NotAligned(); }
    }
    HeaderRoundTrip(F.VERBATIM_BLOCK, 0, false, s.source, trees);
    HeldHeader(chunk, s.source);
    var src := HeaderAt(s.source).value.2;
    TreesAhead(chunk, src, rest);
    HeldTrees(chunk, src, main, length, false);
  }

  lemma NotAligned()
    ensures FirstTrees(0).aligned == None
  {
  }

  lemma RawBitsShape(tail: seq<byte>)
    ensures |RawBits(tail)| == 10 + 16 * (|tail| / 2) && RawBits(tail)[3]
  {
    hide Words;
    WordsLength(tail);
    assert ToBits(1, 1) == [] + [true];
  }

  /** The raw header behind it leaves the reader a word past the boundary. */
  lemma RawHeaderAhead(chunk: seq<byte>, s: F.Source, tail: seq<byte>)
    requires Held(chunk, s) && s.at % 2 == 0 && s.ahead > 20 && |chunk| == 220 + |tail|
    requires s.bits == RawBits(tail)
    ensures HeaderAt(s).Some?
    ensures HeaderAt(s).value.0 == F.UNCOMPRESSED_BLOCK && HeaderAt(s).value.1 == F.MAX_BLOCK_SIZE
    ensures HeaderAt(s).value.2.ahead == 22 && HeaderAt(s).value.2.at == 222
  {
    hide Words, HeaderBits, HeaderAt, Zeros;
    var rest := Zeros(6) + Words(tail);
    HeaderRoundTrip(F.UNCOMPRESSED_BLOCK, F.MAX_BLOCK_SIZE, true, s, rest);
    HeldHeader(chunk, s);
    RawBitsShape(tail);
    HeaderAhead(chunk, s);
    var src := HeaderAt(s).value.2;
    WordsLength(tail);
    WordsLength(chunk[src.at..]);
    assert |src.bits| == src.ahead + |Words(chunk[src.at..])|;
  }

  lemma RawTaken(prefix: seq<byte>, tail: seq<byte>, s: Snapshot)
    requires |prefix| == 220 && |tail| >= 14 + WINDOW_SIZE
    requires CodingOk(s.coding) && !s.unaligned && s.coding.out == [] && HeaderAt(s.source).Some?
    requires HeaderAt(s.source).value.0 == F.UNCOMPRESSED_BLOCK && HeaderAt(s.source).value.1 == F.MAX_BLOCK_SIZE
    requires HeaderAt(s.source).value.2.ahead == 22 && HeaderAt(s.source).value.2.at == 222
    ensures NextBlock(prefix + tail, s).Some?
    ensures NextBlock(prefix + tail, s).value.coding.lru == RawLru(tail[2..14])
    ensures NextBlock(prefix + tail, s).value.coding.out == tail[14..14 + WINDOW_SIZE]
  {
    hide HeaderAt, Words, RawLru;
    var chunk := prefix + tail;
    assert chunk[222..234] == tail[2..14];
    assert [] + chunk[234..234 + WINDOW_SIZE] == tail[14..14 + WINDOW_SIZE];
  }

  /** The second block is raw, and the decoder takes its offsets and data from byte 2 of `tail`. */
  ghost predicate TakesLate(chunk: seq<byte>, tail: seq<byte>)
    requires |tail| >= 14 + WINDOW_SIZE
  {
    && AfterBlocks(chunk, 1).Some? && FarAhead(AfterBlocks(chunk, 1).value.source)
    && AfterBlocks(chunk, 2).Some?
    && AfterBlocks(chunk, 2).value.coding.lru == RawLru(tail[2..14])
    && AfterBlocks(chunk, 2).value.coding.out == tail[14..14 + WINDOW_SIZE]
  }

  lemma LateAfterEmpty(prefix: seq<byte>, tail: seq<byte>)
    requires BlockOk(Blank(), EmptyBlock()) && |prefix| == 220 && |tail| >= 14 + WINDOW_SIZE
    requires Words(prefix + tail) == EncodePacked(Blank(), EmptyBlock()) + RawBits(tail)
    ensures TakesLate(prefix + tail, tail)
  {
    hide AfterBlocks, NextBlock, HeaderAt, Words, RawLru, Held, EncodePacked, RawBits, BlockOk, Blank, EmptyBlock;
    RawBitsShape(tail);
    AfterEmpty(prefix + tail, RawBits(tail));
    var s := AfterBlocks(prefix + tail, 1).value;
    RawHeaderAhead(prefix + tail, s.source, tail);
    BlockAfter(prefix + tail, 1);
    BlankMain();
    RawTaken(prefix, tail, s);
  }

  /**
   WITNESS: the padding of this chunk's raw block ends after 220 bytes, so that its recent offsets are the
   first twelve bytes of `tail` and its data follow them.  The decoder takes both two bytes later.
   */
  lemma RawDataMisplaced(tail: seq<byte>)
    requires |tail| >= 14 + WINDOW_SIZE
    ensures |RawPrefix()| == 8 * 220 && |Pack(RawPrefix())| == 220
    ensures TakesLate(Pack(RawPrefix()) + tail, tail)
  {
    hide Words, EncodePacked, RawBits, BlockOk, Blank, Pack, RawPrefix, EmptyBlock, TakesLate;
    RawPrefixLength();
    RawPrefixWords(tail);
    LateAfterEmpty(Pack(RawPrefix()), tail);
  }
}
