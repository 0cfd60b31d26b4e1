/** The LZX block decoder, proved against the format functions of module LzxFormat. */
module LzxDecoder {
  import opened Common
  import opened Bits
  import opened Huffman
  import opened HuffmanTable
  import opened LzxReader
  import opened LzxBlocks
  import F = LzxFormat
  import E8Filter

  lemma TableIsUsable(h: Table, lens: seq<nat>)
    requires TableFor(h, lens)
    ensures F.UsableCode(lens)
  {
  }

  lemma NumberFits(s: seq<bool>)
    requires |s| <= 16
    ensures Low(Value(s), 16) == Value(s)
  {
    hide Low, Value, Pow2;
    Pow2Monotone(|s|, 16);
    LowSmall(Value(s), 16);
  }

  /** `get_bits(n)` as a number off the flat stream. */
  method ReadNumber(r: BitReader, n: nat) returns (v: Result<nat, Error>)
    requires r.Valid() && n <= 16
    modifies r
    ensures r.Valid() && r.Remaining() <= old(r.Remaining())
    ensures v.Ok? ==> F.TakeNumber(old(r.Here()), n) == Some((v.value, r.Here()))
    ensures v.Ok? ==> r.Remaining() == old(r.Remaining()) - n
    ensures v.Err? ==> F.TakeNumber(old(r.Here()), n) == None
  {
    hide Value, Words, Pow2, Register;
    v := r.GetBits(n);
    if v.Ok? { NumberFits(old(r.Stream())[..n]); }
  }

  /** `get_code(h)` as a symbol off the flat stream. */
  method ReadSymbol(r: BitReader, h: Table, ghost lens: seq<nat>) returns (v: Result<nat, Error>)
    requires r.Valid() && TableFor(h, lens)
    modifies r
    ensures r.Valid() && r.Remaining() <= old(r.Remaining())
    ensures v.Ok? ==> F.TakeSymbol(lens, old(r.Here())) == Some((v.value, r.Here())) && v.value < |lens|
    ensures v.Err? ==> F.TakeSymbol(lens, old(r.Here())) == None
  {
    hide Codeword, Complete, DecodesAll, AllZero;
    v := r.GetCode(h, lens);
    TableIsUsable(h, lens);
    if v.Ok? { F.TakeSymbolIs(lens, old(r.Here()), v.value); }
  }

  method ReadNumbers(r: BitReader, width: nat, count: nat) returns (v: Result<seq<nat>, Error>)
    requires r.Valid() && width <= 16
    modifies r
    ensures r.Valid() && r.Remaining() <= old(r.Remaining())
    ensures v.Ok? ==> F.TakeNumbers(old(r.Here()), width, count) == Some((v.value, r.Here()))
    ensures v.Err? ==> F.TakeNumbers(old(r.Here()), width, count) == None
  {
    hide F.TakeNumber, Register, SourceOf;
    var ns: seq<nat> := [];
    for i := 0 to count
      invariant r.Valid() && r.Remaining() <= old(r.Remaining())
      invariant F.TakeNumbers(old(r.Here()), width, i) == Some((ns, r.Here()))
    {
      var n := ReadNumber(r, width);
      if n.Err? {
        NumbersStop(old(r.Here()), width, i + 1, count);
        return Err(n.error);
      }
      ns := ns + [n.value];
    }
    return Ok(ns);
  }

  lemma {:induction false} NumbersStop(s: F.Source, width: nat, i: nat, count: nat)
    requires i <= count && F.TakeNumbers(s, width, i) == None
    ensures F.TakeNumbers(s, width, count) == None
  {
    if i < count { NumbersStop(s, width, i, count - 1); }
  }

  method ReadTreeItem(r: BitReader, pretree: Table, ghost pre: seq<nat>) returns (v: Result<F.TreeItem, Error>)
    requires r.Valid() && TableFor(pretree, pre)
    modifies r
    ensures r.Valid() && r.Remaining() <= old(r.Remaining())
    ensures v.Ok? ==> F.ParseTreeItem(pre, old(r.Here())) == Some((v.value, r.Here()))
    ensures v.Ok? ==> F.ItemSize(v.value) > 0 && (v.value.ZeroRun? || v.value.delta <= 16)
    ensures v.Err? ==> F.ParseTreeItem(pre, old(r.Here())) == None
  {
    hide F.TakeSymbol, F.TakeNumber, TableFor;
    var c := ReadSymbol(r, pretree, pre);
    if c.Err? { return Err(c.error); }
    if c.value <= 16 {
      return Ok(F.Delta(c.value));
    } else if c.value == 17 {
      var n := ReadNumber(r, 4);
      if n.Err? { return Err(n.error); }
      return Ok(F.ZeroRun(n.value + 4));
    } else if c.value == 18 {
      var n := ReadNumber(r, 5);
      if n.Err? { return Err(n.error); }
      return Ok(F.ZeroRun(n.value + 20));
    } else if c.value == 19 {
      var n := ReadNumber(r, 1);
      if n.Err? { return Err(n.error); }
      var d := ReadSymbol(r, pretree, pre);
      if d.Err? { return Err(d.error); }
      if d.value > 16 { return Err(Corrupt); }
      return Ok(F.SameRun(n.value + 4, d.value));
    }
    return Err(Corrupt);
  }

  /** `read_tree`: new code lengths from old ones; they never exceed 16. */
  method ReadTree(r: BitReader, old_: seq<nat>) returns (v: Result<seq<nat>, Error>)
    requires r.Valid() && LengthsOk(old_)
    modifies r
    ensures r.Valid() && r.Remaining() <= old(r.Remaining())
    ensures v.Ok? ==> F.ReadTree(old(r.Here()), old_) == Some((v.value, r.Here())) && LengthsOk(v.value)
    ensures v.Err? ==> F.ReadTree(old(r.Here()), old_) == None
  {
    hide F.TakeNumbers, F.ParseTreeItem, F.ApplyItem, F.ItemSize, TableFor;
    var pre := ReadNumbers(r, 4, 20);
    if pre.Err? { return Err(pre.error); }
    var pretree := BuildTable(pre.value);
    if pretree.None? { return Err(Corrupt); }
    var lens := old_;
    var i: nat := 0;
    while i < |lens|
      invariant r.Valid() && r.Remaining() <= old(r.Remaining())
      invariant i <= |lens| && LengthsOk(lens)
      invariant F.ReadTree(old(r.Here()), old_) == F.ParseTree(pre.value, r.Here(), lens, i)
    {
      var item := ReadTreeItem(r, pretree.value, pre.value);
      if item.Err? { return Err(item.error); }
      var n := F.ItemSize(item.value);
      if i + n > |lens| { return Err(Corrupt); }
      F.ApplyItemLengths(lens, i, item.value);
      lens := F.ApplyItem(lens, i, item.value);
      i := i + n;
    }
    return Ok(lens);
  }

  // ----- compressed blocks ---------------------------------------------------------------------

  /** The tables of one block and the lengths they decode. */
  datatype Tables = Tables(main: Table, length: Table, aligned: Option<Table>)

  ghost predicate TablesFor(h: Tables, t: F.Trees) {
    && TableFor(h.main, t.main)
    && TableFor(h.length, t.length)
    && (h.aligned.Some? <==> t.aligned.Some?)
    && (h.aligned.Some? ==> TableFor(h.aligned.value, t.aligned.value))
  }

  method ReadLength(r: BitReader, h: Table, ghost lens: seq<nat>, header: nat) returns (v: Result<nat, Error>)
    requires r.Valid() && TableFor(h, lens) && header < 8
    modifies r
    ensures r.Valid() && r.Remaining() <= old(r.Remaining())
    ensures v.Ok? ==> F.ParseLength(lens, header, old(r.Here())) == Some((v.value, r.Here()))
    ensures v.Err? ==> F.ParseLength(lens, header, old(r.Here())) == None
  {
    hide F.TakeSymbol, TableFor;
    var matchlen := header;
    if matchlen == 7 {
      var x := ReadSymbol(r, h, lens);
      if x.Err? { return Err(x.error); }
      matchlen := matchlen + x.value;
    }
    return Ok(matchlen + 2);
  }

  method ReadOffset(
      r: BitReader, h: Option<Table>, ghost lens: Option<seq<nat>>, slot: nat)
    returns (v: Result<nat, Error>)
    requires r.Valid() && slot < F.SLOTS
    requires h.Some? <==> lens.Some?
    requires h.Some? ==> TableFor(h.value, lens.value)
    modifies r
    ensures r.Valid() && r.Remaining() <= old(r.Remaining())
    ensures v.Ok? ==> F.ParseOffset(lens, slot, old(r.Here())) == Some((v.value, r.Here()))
    ensures v.Err? ==> F.ParseOffset(lens, slot, old(r.Here())) == None
  {
    hide F.TakeSymbol, F.TakeNumber, TableFor;
    var bits := F.FooterBits(slot);
    if h.Some? && bits >= 3 {
      var n := ReadNumber(r, bits - 3);
      if n.Err? { return Err(n.error); }
      var a := ReadSymbol(r, h.value, lens.value);
      if a.Err? { return Err(a.error); }
      return Ok(F.ExplicitOffset(slot, 8 * n.value + a.value));
    }
    var n := ReadNumber(r, bits);
    if n.Err? { return Err(n.error); }
    return Ok(F.ExplicitOffset(slot, n.value));
  }

  method ReadToken(r: BitReader, h: Tables, ghost t: F.Trees) returns (v: Result<F.Token, Error>)
    requires r.Valid() && TablesFor(h, t)
    modifies r
    ensures r.Valid() && r.Remaining() <= old(r.Remaining())
    ensures v.Ok? ==> F.ParseToken(t, old(r.Here())) == Some((v.value, r.Here()))
    ensures v.Err? ==> F.ParseToken(t, old(r.Here())) == None
  {
    hide F.TakeSymbol, F.ParseLength, F.ParseOffset, TableFor;
    var main := ReadSymbol(r, h.main, t.main);
    if main.Err? { return Err(main.error); }
    if main.value < 256 {
      return Ok(F.Literal(main.value));
    }
    var slot := (main.value - 256) / 8;
    if slot >= F.SLOTS { return Err(Corrupt); }
    var n := ReadLength(r, h.length, t.length, (main.value - 256) % 8);
    if n.Err? { return Err(n.error); }
    if slot < 3 {
      return Ok(F.Match(n.value, F.Repeat(slot)));
    }
    var o := ReadOffset(r, h.aligned, t.aligned, slot);
    if o.Err? { return Err(o.error); }
    return Ok(F.Match(n.value, F.Explicit(o.value)));
  }

  /** The copy loop: byte by byte, so that it may read what it has just written. */
  method CopyWithin(window: array<byte>, i: nat, offset: nat, n: nat)
    requires 0 < offset <= i && i + n <= window.Length
    modifies window
    ensures window[..i + n] == F.CopyMatch(old(window[..i]), offset, n)
    ensures window[i + n..] == old(window[i + n..])
  {
    for k := 0 to n
      invariant window[..i + k] == F.CopyMatch(old(window[..i]), offset, k)
      invariant window[i + k..] == old(window[i + k..])
    {
      ghost var done, tail := window[..i + k], window[i + k..];
      window[i + k] := window[i + k - offset];
      assert window[..i + k + 1] == done + [done[i + k - offset]];
      assert window[i + k + 1..] == tail[1..];
    }
  }

  lemma {:induction false} ExpandAppend(out: seq<byte>, lru: F.Lru, ts: seq<F.Token>, t: F.Token)
    ensures F.Expand(out, lru, ts + [t]) ==
            match F.Expand(out, lru, ts)
            case None => None
            case Some((out', lru')) => F.ExpandToken(out', lru', t)
    decreases |ts|
  {
    if ts == [] {
      assert ts + [t] == [t] && [t][1..] == [];
    } else {
      assert (ts + [t])[1..] == ts[1..] + [t];
      match F.ExpandToken(out, lru, ts[0])
      case None =>
      case Some((out', lru')) => ExpandAppend(out', lru', ts[1..], t);
    }
  }

  lemma {:induction false} ExpandFails(out: seq<byte>, lru: F.Lru, ts: seq<F.Token>, more: seq<F.Token>)
    requires F.Expand(out, lru, ts) == None
    ensures F.Expand(out, lru, ts + more) == None
    decreases |ts|
  {
    assert (ts + more)[1..] == ts[1..] + more;
    match F.ExpandToken(out, lru, ts[0])
    case None =>
    case Some((out', lru')) => ExpandFails(out', lru', ts[1..], more);
  }

  /** The tokens already read, put before those still to be parsed. */
  ghost function After(done: seq<F.Token>, r: Option<(seq<F.Token>, F.Source)>): Option<(seq<F.Token>, F.Source)> {
    match r
    case None => None
    case Some((ts, s)) => Some((done + ts, s))
  }

  lemma AfterStep(done: seq<F.Token>, t: F.Token, r: Option<(seq<F.Token>, F.Source)>)
    ensures After(done, F.Prepend(t, r)) == After(done + [t], r)
  {
    if r.Some? { assert done + ([t] + r.value.0) == done + [t] + r.value.0; }
  }

  // ----- the decoder ------------------------------------------------------------------------------

  class Decoder {
    const r: BitReader
    const window: array<byte>
    var unaligned: bool
    var lru: F.Lru
    var mainlens: seq<nat>
    var lenlens: seq<nat>

    ghost predicate Valid()
      reads this, r
    {
      && r.Valid()
      && window.Length == WINDOW_SIZE
      && |mainlens| == MAIN_CODE_COUNT && LengthsOk(mainlens)
      && |lenlens| == LEN_CODE_COUNT && LengthsOk(lenlens)
      && (unaligned ==> r.buffered == [])
    }

    ghost function Now(written: nat): Snapshot
      requires written <= window.Length
      reads this, r, window
    {
      Snapshot(r.Here(), unaligned, Coding(mainlens, lenlens, lru, window[..written]))
    }

    constructor (input: seq<byte>)
      ensures Valid() && fresh(r) && fresh(window) && r.input == input
      ensures Now(0) == Initial(input)
    {
      r := new BitReader(input);
      window := new byte[WINDOW_SIZE](_ => 0);
      unaligned := false;
      lru := F.Lru(1, 1, 1);
      mainlens := seq(MAIN_CODE_COUNT, _ => 0);
      lenlens := seq(LEN_CODE_COUNT, _ => 0);
    }

    /**
     `read_compressed_block`: the window becomes the LZ77 expansion of the tokens parsed from the
     stream, and the reader fails exactly when there are no such tokens or one of them reaches
     back before the window.
     */
    method ReadCompressedBlock(start: nat, end: nat, h: Tables, ghost t: F.Trees) returns (v: Result<nat, Error>)
      requires Valid() && !unaligned && start <= end <= WINDOW_SIZE && TablesFor(h, t)
      modifies `lru, r, window
      ensures Valid() && r.Remaining() <= old(r.Remaining())
      ensures v.Ok? ==> v.value == end - start
      ensures v.Ok? ==> F.DecodeTokens(t, old(r.Here()), old(window[..start]), old(lru), end - start)
                        == Some((window[..end], lru, r.Here()))
      ensures v.Err? ==> F.DecodeTokens(t, old(r.Here()), old(window[..start]), old(lru), end - start) == None
      ensures window[end..] == old(window[end..])
    {
      hide F.ParseToken, F.ExpandToken, TableFor, LengthsOk, F.Expand;
      ghost var src, out0, lru0 := r.Here(), window[..start], lru;
      ghost var done: seq<F.Token> := [];
      StartBlock(t, src, end - start, out0, lru0);
      var i := start;
      while i < end
        invariant Valid() && r.Remaining() <= old(r.Remaining())
        invariant start <= i <= end
        invariant After(done, F.ParseTokens(t, r.Here(), end - i)) == F.ParseTokens(t, src, end - start)
        invariant F.Expand(out0, lru0, done) == Some((window[..i], lru))
        invariant window[end..] == old(window[end..])
      {
        var token := ReadToken(r, h, t);
        if token.Err? { return Err(token.error); }
        ghost var before := window[..i];
        ExpandAppend(out0, lru0, done, token.value);
        var ok := ApplyToken(i, end, token.value);
        if !ok {
          StopAt(t, src, end - start, r.Here(), end - i, done, token.value, out0, lru0);
          return Err(Corrupt);
        }
        AfterStep(done, token.value, F.ParseTokens(t, r.Here(), end - i - F.TokenSize(token.value)));
        done := done + [token.value];
        i := i + F.TokenSize(token.value);
      }
      FinishBlock(t, r.Here(), done);
      return Ok(i - start);
    }

    method ReadAligned(aligned: bool) returns (v: Result<Option<Table>, Error>, ghost lens: Option<seq<nat>>)
      requires Valid() && !unaligned
      modifies r
      ensures Valid() && r.Remaining() <= old(r.Remaining())
      ensures v.Ok? ==> F.ReadAligned(old(r.Here()), aligned) == Some((lens, r.Here()))
      ensures v.Ok? ==> (v.value.Some? <==> lens.Some?) && (lens.Some? ==> TableFor(v.value.value, lens.value))
      ensures v.Err? ==> F.ReadAligned(old(r.Here()), aligned) == None
    {
      hide F.TakeNumbers, F.UsableCode, TableFor, LengthsOk;
      if !aligned {
        return Ok(None), None;
      }
      var ns := ReadNumbers(r, 3, 8);
      if ns.Err? { return Err(ns.error), None; }
      var h := Build(ns.value);
      if h.Err? { return Err(h.error), None; }
      return Ok(Some(h.value)), Some(ns.value);
    }

    method ReadMain() returns (v: Result<Table, Error>)
      requires Valid() && !unaligned
      modifies `mainlens, r
      ensures Valid() && r.Remaining() <= old(r.Remaining())
      ensures v.Ok? ==>
              F.ReadMain(old(r.Here()), old(mainlens)) == Some((mainlens, r.Here())) && TableFor(v.value, mainlens)
      ensures v.Err? ==> F.ReadMain(old(r.Here()), old(mainlens)) == None
    {
      hide F.ReadTree, F.UsableCode, TableFor;
      var prefix := ReadTree(r, mainlens[..F.MAIN_CODE_SPLIT]);
      if prefix.Err? { return Err(prefix.error); }
      var suffix := ReadTree(r, mainlens[F.MAIN_CODE_SPLIT..]);
      if suffix.Err? { return Err(suffix.error); }
      mainlens := prefix.value + suffix.value;
      v := Build(mainlens);
    }

    /** `read_trees`. */
    method ReadTrees(aligned: bool) returns (v: Result<Tables, Error>, ghost t: F.Trees)
      requires Valid() && !unaligned
      modifies `mainlens, `lenlens, r
      ensures Valid() && r.Remaining() <= old(r.Remaining())
      ensures v.Ok? ==> F.ReadTrees(old(r.Here()), old(mainlens), old(lenlens), aligned) == Some((t, r.Here()))
      ensures v.Ok? ==> TablesFor(v.value, t) && mainlens == t.main && lenlens == t.length
      ensures v.Err? ==> F.ReadTrees(old(r.Here()), old(mainlens), old(lenlens), aligned) == None
    {
      hide F.ReadTree, F.ReadMain, F.ReadAligned, F.UsableCode, TableFor, LengthsOk;
      t := F.Trees([], [], None);
      var al, lens := ReadAligned(aligned);
      if al.Err? { return Err(al.error), t; }
      var main := ReadMain();
      if main.Err? { return Err(main.error), t; }
      var len := ReadTree(r, lenlens);
      if len.Err? { return Err(len.error), t; }
      lenlens := len.value;
      var length := Build(lenlens);
      if length.Err? { return Err(length.error), t; }
      t := F.Trees(mainlens, lenlens, lens);
      return Ok(Tables(main.value, length.value, al.value)), t;
    }

    /** The type and size bits of `read_block_header`. */
    method ReadKindAndSize() returns (v: Result<(nat, nat), Error>)
      requires Valid() && !unaligned
      modifies r
      ensures Valid()
      ensures v.Ok? ==> HeaderAt(old(r.Here())) == Some((v.value.0, v.value.1, r.Here()))
      ensures v.Ok? ==> r.Remaining() <= old(r.Remaining()) - 4
      ensures v.Err? ==> HeaderAt(old(r.Here())) == None
    {
      hide F.TakeNumber, LengthsOk, Register, SourceOf;
      var kind := ReadNumber(r, 3);
      if kind.Err? { return Err(kind.error); }
      var full := ReadNumber(r, 1);
      if full.Err? { return Err(full.error); }
      var size := F.MAX_BLOCK_SIZE;
      if full.value == 0 {
        var n := ReadNumber(r, 16);
        if n.Err? { return Err(n.error); }
        if n.value > F.MAX_BLOCK_SIZE { return Err(Corrupt); }
        size := n.value;
      }
      if !(1 <= kind.value <= 3) { return Err(Corrupt); }
      return Ok((kind.value, size));
    }

    /** The rest of a raw block's header: drop the buffered bits, load the recent offsets. */
    method ReadRawHeader() returns (v: Result<(), Error>)
      requires Valid() && !unaligned
      modifies `lru, r
      ensures Valid() && r.Remaining() <= old(r.Remaining())
      ensures v.Ok? <==> RawStart(|old(r.buffered)|, old(r.byteOffset)) <= |r.input|
      ensures v.Ok? ==> r.buffered == [] && r.byteOffset == RawStart(|old(r.buffered)|, old(r.byteOffset))
      ensures v.Ok? ==> lru == RawLru(r.input[r.byteOffset - 12..r.byteOffset])
    {
      hide LengthsOk, Register, RawLru, Words;
      WordsLength(r.input[r.byteOffset..]);
      var n := if r.bitCount == 0 then 16 else r.bitCount;
      var dropped := r.GetBits(n);
      if dropped.Err? { return Err(dropped.error); }
      var offsets := r.TakeBytes(12);
      if offsets.Err? { return Err(offsets.error); }
      lru := RawLru(offsets.value);
      return Ok(());
    }

    /** The data of a raw block. */
    method ReadRawData(start: nat, size: nat) returns (v: Result<nat, Error>)
      requires Valid() && start + size <= WINDOW_SIZE && r.buffered == []
      modifies `unaligned, r, window
      ensures Valid() && r.buffered == old(r.buffered) && r.Remaining() <= old(r.Remaining())
      ensures v.Ok? <==> old(r.byteOffset) + size <= |r.input|
      ensures v.Ok? ==> v.value == size && r.byteOffset == old(r.byteOffset) + size
      ensures v.Ok? ==> window[..start + size] == old(window[..start]) + r.input[old(r.byteOffset)..r.byteOffset]
      ensures v.Ok? ==> unaligned == (old(unaligned) || size % 2 == 1)
    {
      hide LengthsOk, Register;
      if size % 2 == 1 {
        unaligned := true;
      }
      var data := r.TakeBytes(size);
      if data.Err? { return Err(data.error); }
      CopyFromSlice(window, start, data.value);
      assert window[..start + size] == window[..][..start + size];
      return Ok(size);
    }

    method ReadRawBlock(start: nat, size: nat) returns (v: Result<nat, Error>)
      requires Valid() && start + size <= WINDOW_SIZE && !unaligned
      modifies `lru, `unaligned, r, window
      ensures Valid() && r.Remaining() <= old(r.Remaining())
      ensures v.Ok? ==> v.value == size
      ensures v.Ok? ==> RawBlock(r.input, old(Now(start).coding), size, old(r.Here())) == Some(Now(start + size))
      ensures v.Err? ==> RawBlock(r.input, old(Now(start).coding), size, old(r.Here())) == None
    {
      hide LengthsOk, Register, Words, RawLru;
      var raw := ReadRawHeader();
      if raw.Err? { return Err(raw.error); }
      v := ReadRawData(start, size);
    }

    method ReadPackedBlock(start: nat, size: nat, aligned: bool) returns (v: Result<nat, Error>)
      requires Valid() && start + size <= WINDOW_SIZE && !unaligned
      modifies `lru, `mainlens, `lenlens, r, window
      ensures Valid() && r.Remaining() <= old(r.Remaining())
      ensures v.Ok? ==> v.value == size
      ensures v.Ok? ==> PackedBlock(old(Now(start).coding), aligned, size, old(r.Here())) == Some(Now(start + size))
      ensures v.Err? ==> PackedBlock(old(Now(start).coding), aligned, size, old(r.Here())) == None
    {
      hide LengthsOk, Register, Words, F.ReadTrees, F.DecodeTokens, TablesFor, SourceOf;
      var h, t := ReadTrees(aligned);
      if h.Err? { return Err(h.error); }
      v := ReadCompressedBlock(start, start + size, h.value, t);
    }

    /** `read_block`: the next block, or the failure to decode one. */
    method ReadBlock(start: nat) returns (v: Result<nat, Error>)
      requires Valid() && start <= WINDOW_SIZE
      modifies this, r, window
      ensures Valid()
      ensures v.Ok? ==> start + v.value <= WINDOW_SIZE && r.Remaining() <= old(r.Remaining()) - 4
      ensures v.Ok? ==> NextBlock(r.input, old(Now(start))) == Some(Now(start + v.value))
      ensures v.Err? ==> NextBlock(r.input, old(Now(start))) == None
    {
      hide LengthsOk, Register, HeaderAt, RawBlock, PackedBlock, Words, IsAligned;
      if unaligned {
        var skipped := r.TakeBytes(1);
        if skipped.Err? { return Err(skipped.error); }
        unaligned := false;
      }
      var header := ReadKindAndSize();
      if header.Err? { return Err(header.error); }
      var (kind, size) := header.value;
      if start + size > WINDOW_SIZE { return Err(WindowOverrun); }
      if kind == F.UNCOMPRESSED_BLOCK {
        v := ReadRawBlock(start, size);
      } else {
        v := ReadPackedBlock(start, size, IsAligned(kind));
      }
    }

    /** One token's effect on the window and the recent offsets. */
    method ApplyToken(i: nat, end: nat, token: F.Token) returns (ok: bool)
      requires i < end <= window.Length && F.TokenSize(token) > 0
      modifies `lru, window
      ensures ok <==> F.ExpandToken(old(window[..i]), old(lru), token).Some? && F.TokenSize(token) <= end - i
      ensures ok ==> F.ExpandToken(old(window[..i]), old(lru), token) == Some((window[..i + F.TokenSize(token)], lru))
      ensures window[end..] == old(window[end..])
    {
      match token
      case Literal(b) =>
        ghost var before := window[..i];
        window[i] := b;
        assert window[..i + 1] == before + [b];
        return true;
      case Match(n, code) =>
        var (offset, lru') := F.Resolve(lru, code);
        lru := lru';
        if offset == 0 || offset > i || i + n > end {
          return false;
        }
        CopyWithin(window, i, offset, n);
        assert window[end..] == window[i + n..][end - i - n..];
        return true;
    }
  }

  /** `build_table` on lengths just read. */
  method Build(lens: seq<nat>) returns (v: Result<Table, Error>)
    requires |lens| <= MAX_SYMBOLS
    ensures v.Ok? <==> F.UsableCode(lens)
    ensures v.Ok? ==> TableFor(v.value, lens)
  {
    var h := BuildTable(lens);
    v := if h.Some? then Ok(h.value) else Err(Corrupt);
  }

  lemma StartBlock(t: F.Trees, src: F.Source, size: nat, out: seq<byte>, lru: F.Lru)
    ensures After([], F.ParseTokens(t, src, size)) == F.ParseTokens(t, src, size)
    ensures F.Expand(out, lru, []) == Some((out, lru))
  {
    var r := F.ParseTokens(t, src, size);
    if r.Some? { assert [] + r.value.0 == r.value.0; }
  }

  lemma FinishBlock(t: F.Trees, rest: F.Source, done: seq<F.Token>)
    ensures After(done, F.ParseTokens(t, rest, 0)) == Some((done, rest))
  {
    assert done + [] == done;
  }

  /** A token that cannot be expanded, or does not fit, leaves the whole block undecodable. */
  lemma StopAt(
      t: F.Trees, src: F.Source, size: nat, rest: F.Source, todo: nat,
      done: seq<F.Token>, token: F.Token, out: seq<byte>, lru: F.Lru)
    requires todo > 0
    requires F.TokenSize(token) <= todo ==>
               F.Expand(out, lru, done + [token]) == None
               && F.ParseTokens(t, src, size)
                   == After(done, F.Prepend(token, F.ParseTokens(t, rest, todo - F.TokenSize(token))))
    requires F.TokenSize(token) > todo ==> F.ParseTokens(t, src, size) == None
    ensures F.DecodeTokens(t, src, out, lru, size) == None
  {
    hide F.ParseTokens, F.Expand;
    if F.TokenSize(token) <= todo {
      var r := F.ParseTokens(t, rest, todo - F.TokenSize(token));
      AfterStep(done, token, r);
      if r.Some? { ExpandFails(out, lru, done + [token], r.value.0); }
    }
  }

  /**
   `decompress`.  It always terminates, because every block, even an empty one, takes at least four bits.
   It returns the filtered output of as many blocks as reach `size`, and fails exactly when one of them
   cannot be decoded.
   */
  method Decompress(chunk: seq<byte>, size: nat) returns (v: Result<seq<byte>, Error>, ghost n: nat)
    ensures size > WINDOW_SIZE ==> v == Err(ChunkTooLarge(size))
    ensures v.Ok? ==> size <= WINDOW_SIZE && Finishes(chunk, size, n)
    ensures v.Ok? ==> v.value == E8Filter.Decoded(AfterBlocks(chunk, n).value.coding.out[..size], 0)
    ensures v.Err? && size <= WINDOW_SIZE ==> Fails(chunk, size, n)
  {
    hide NextBlock;
    n := 0;
    if size > WINDOW_SIZE {
      return Err(ChunkTooLarge(size)), n;
    }
    var decoder := new Decoder(chunk);
    var written: nat := 0;
    while written < size
      invariant decoder.Valid() && decoder.r.input == chunk
      invariant fresh(decoder) && fresh(decoder.r) && fresh(decoder.window)
      invariant written <= WINDOW_SIZE
      invariant ShortFor(chunk, size, n) && AfterBlocks(chunk, n) == Some(decoder.Now(written))
      decreases decoder.r.Remaining()
    {
      var block := decoder.ReadBlock(written);
      n := n + 1;
      if block.Err? { return Err(block.error), n; }
      written := written + block.value;
    }
    var output := new byte[size](i requires 0 <= i < size reads decoder.window => decoder.window[i]);
    assert output[..] == decoder.window[..written][..size];
    E8Filter.DecodeE8(output, 0);
    return Ok(output[..]), n;
  }
}
