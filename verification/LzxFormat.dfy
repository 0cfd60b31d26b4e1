/**
 The LZX format as functions on a flat stream of bits: delta-coded trees, tokens, and the LZ77
 expansion of a list of tokens.  The decoder is proved against these.
 */
module LzxFormat {
  import opened Common
  import opened Bits
  import opened Huffman

  const SLOTS: nat := 31

  /** The table `FOOTER_BITS`. */
  function FooterBits(slot: nat): nat
    requires slot < SLOTS
  {
    match slot
    case 0 => 0 case 1 => 0 case 2 => 0 case 3 => 0 case 4 => 1 case 5 => 1
    case 6 => 2 case 7 => 2 case 8 => 3 case 9 => 3 case 10 => 4 case 11 => 4
    case 12 => 5 case 13 => 5 case 14 => 6 case 15 => 6 case 16 => 7 case 17 => 7
    case 18 => 8 case 19 => 8 case 20 => 9 case 21 => 9 case 22 => 10 case 23 => 10
    case 24 => 11 case 25 => 11 case 26 => 12 case 27 => 12 case 28 => 13 case 29 => 13
    case 30 => 14
  }

  /** The table `BASE_POSITION`. */
  function BasePosition(slot: nat): nat
    requires slot < SLOTS
  {
    match slot
    case 0 => 0 case 1 => 1 case 2 => 2 case 3 => 3 case 4 => 4 case 5 => 6
    case 6 => 8 case 7 => 12 case 8 => 16 case 9 => 24 case 10 => 32 case 11 => 48
    case 12 => 64 case 13 => 96 case 14 => 128 case 15 => 192 case 16 => 256 case 17 => 384
    case 18 => 512 case 19 => 768 case 20 => 1024 case 21 => 1536 case 22 => 2048 case 23 => 3072
    case 24 => 4096 case 25 => 6144 case 26 => 8192 case 27 => 12288 case 28 => 16384 case 29 => 24576
    case 30 => 32768
  }

  // ----- primitives --------------------------------------------------------------------------

  /** The bits still to come, how many of them are in the register already, and the byte the next word is at. */
  datatype Source = Source(bits: seq<bool>, ahead: nat, at: nat)

  /** One more word moved into the register, if there is one. */
  function Fed(s: Source): (r: Source)
    ensures r.bits == s.bits
  {
    if s.ahead + 16 <= |s.bits| then s.(ahead := s.ahead + 16, at := s.at + 2) else s
  }

  /** The source without its first `n` bits. */
  function Taken(s: Source, n: nat): Source
    requires n <= |s.bits|
  {
    Source(s.bits[n..], SaturatingSub(s.ahead, n), s.at)
  }

  /** A symbol: the register is first filled to a full lookahead. */
  ghost function TakeSymbol(lens: seq<nat>, s: Source): Option<(nat, Source)> {
    if exists i: nat :: Decodes(lens, s.bits, i) then
      var i: nat :| Decodes(lens, s.bits, i);
      Some((i, Taken(if s.ahead < MAX_TREE_PATH_LEN then Fed(s) else s, lens[i])))
    else None
  }

  ghost predicate UsableCode(lens: seq<nat>) {
    LengthsOk(lens) && (AllZero(lens) || Complete(lens))
  }

  lemma TakeSymbolIs(lens: seq<nat>, s: Source, i: nat)
    requires UsableCode(lens) && Decodes(lens, s.bits, i)
    ensures TakeSymbol(lens, s) == Some((i, Taken(if s.ahead < MAX_TREE_PATH_LEN then Fed(s) else s, lens[i])))
  {
    hide Fed;
    var f := if s.ahead < MAX_TREE_PATH_LEN then Fed(s) else s;
    assert exists k: nat :: Decodes(lens, s.bits, k) && TakeSymbol(lens, s) == Some((k, Taken(f, lens[k])));
    var k: nat :| Decodes(lens, s.bits, k) && TakeSymbol(lens, s) == Some((k, Taken(f, lens[k])));
    AtMostOneSymbol(lens, s.bits, i, k);
  }

  /** A number: the register is fed only if it holds too few bits. */
  function TakeNumber(s: Source, n: nat): Option<(nat, Source)> {
    if |s.bits| < n then None else Some((Value(s.bits[..n]), Taken(if n <= s.ahead then s else Fed(s), n)))
  }

  /** `count` numbers of `width` bits each. */
  function TakeNumbers(s: Source, width: nat, count: nat): (r: Option<(seq<nat>, Source)>)
    ensures r.Some? ==> |r.value.0| == count
  {
    if count == 0 then Some(([], s))
    else
      match TakeNumbers(s, width, count - 1)
      case None => None
      case Some((ns, rest)) =>
        match TakeNumber(rest, width)
        case None => None
        case Some((n, rest')) => Some((ns + [n], rest'))
  }

  /** The parse succeeds with `v` and leaves the bits `rest`. */
  ghost predicate Yields<T>(r: Option<(T, Source)>, v: T, rest: seq<bool>) {
    r.Some? && r.value.0 == v && r.value.1.bits == rest
  }

  // ----- trees -------------------------------------------------------------------------------

  /** One item of a delta-coded tree: one length, a run of zeros, or a run of one length. */
  datatype TreeItem = Delta(delta: nat) | ZeroRun(n: nat) | SameRun(n: nat, delta: nat)

  ghost function ParseTreeItem(pre: seq<nat>, s: Source): Option<(TreeItem, Source)> {
    match TakeSymbol(pre, s)
    case None => None
    case Some((c, s1)) =>
      if c <= 16 then Some((Delta(c), s1))
      else if c == 17 then
        match TakeNumber(s1, 4)
        case None => None
        case Some((n, s2)) => Some((ZeroRun(n + 4), s2))
      else if c == 18 then
        match TakeNumber(s1, 5)
        case None => None
        case Some((n, s2)) => Some((ZeroRun(n + 20), s2))
      else if c == 19 then
        match TakeNumber(s1, 1)
        case None => None
        case Some((n, s2)) =>
          match TakeSymbol(pre, s2)
          case None => None
          case Some((d, s3)) => if d > 16 then None else Some((SameRun(n + 4, d), s3))
      else None
  }

  function Undelta(previous: nat, delta: nat): nat
    requires delta <= 17
  {
    (previous + 17 - delta) % 17
  }

  function ItemSize(item: TreeItem): nat {
    match item
    case Delta(_) => 1
    case ZeroRun(n) => n
    case SameRun(n, _) => n
  }

  function Fill(lens: seq<nat>, i: nat, n: nat, v: nat): (r: seq<nat>)
    requires i + n <= |lens|
    ensures |r| == |lens|
    ensures forall k :: 0 <= k < |lens| ==> r[k] == if i <= k < i + n then v else lens[k]
  {
    lens[..i] + seq(n, _ => v) + lens[i + n..]
  }

  function ApplyItem(lens: seq<nat>, i: nat, item: TreeItem): (r: seq<nat>)
    requires i < |lens| && i + ItemSize(item) <= |lens|
    requires item.ZeroRun? || item.delta <= 16
    ensures |r| == |lens|
  {
    match item
    case Delta(d) => lens[i := Undelta(lens[i], d)]
    case ZeroRun(n) => Fill(lens, i, n, 0)
    case SameRun(n, d) => Fill(lens, i, n, Undelta(lens[i], d))
  }

  /** The rest of a tree from entry `i` on. */
  ghost function ParseTree(pre: seq<nat>, s: Source, lens: seq<nat>, i: nat): (r: Option<(seq<nat>, Source)>)
    requires i <= |lens|
    ensures r.Some? ==> |r.value.0| == |lens|
    decreases |lens| - i
  {
    if i == |lens| then Some((lens, s))
    else
      match ParseTreeItem(pre, s)
      case None => None
      case Some((item, rest)) =>
        if ItemSize(item) == 0 || i + ItemSize(item) > |lens| then None
        else ParseTree(pre, rest, ApplyItem(lens, i, item), i + ItemSize(item))
  }

  /** A whole tree: twenty 4-bit lengths of the pretree, then the items. */
  ghost function ReadTree(s: Source, lens: seq<nat>): (r: Option<(seq<nat>, Source)>)
    ensures r.Some? ==> |r.value.0| == |lens|
  {
    match TakeNumbers(s, 4, 20)
    case None => None
    case Some((pre, rest)) => if UsableCode(pre) then ParseTree(pre, rest, lens, 0) else None
  }

  /** Items never produce a length above 16. */
  lemma ApplyItemLengths(lens: seq<nat>, i: nat, item: TreeItem)
    requires i < |lens| && i + ItemSize(item) <= |lens|
    requires item.ZeroRun? || item.delta <= 16
    requires LengthsOk(lens)
    ensures LengthsOk(ApplyItem(lens, i, item))
  {
  }

  // ----- the tree encoder ----------------------------------------------------------------------

  ghost predicate HasCode(lens: seq<nat>, i: nat) {
    i < |lens| && lens[i] > 0
  }

  /** An item the pretree can express, within the range of its field. */
  ghost predicate ItemOk(pre: seq<nat>, item: TreeItem) {
    match item
    case Delta(d) => d <= 16 && HasCode(pre, d)
    case ZeroRun(n) => if n < 20 then n >= 4 && HasCode(pre, 17) else n < 52 && HasCode(pre, 18)
    case SameRun(n, d) => 4 <= n <= 5 && d <= 16 && HasCode(pre, 19) && HasCode(pre, d)
  }

  ghost function EncodeItem(pre: seq<nat>, item: TreeItem): seq<bool>
    requires ItemOk(pre, item)
  {
    match item
    case Delta(d) => Codeword(pre, d)
    case ZeroRun(n) => if n < 20 then Codeword(pre, 17) + ToBits(n - 4, 4) else Codeword(pre, 18) + ToBits(n - 20, 5)
    case SameRun(n, d) => Codeword(pre, 19) + ToBits(n - 4, 1) + Codeword(pre, d)
  }

  /** A code at the front of a source is what the source decodes to. */
  lemma TakeEncoded(lens: seq<nat>, i: nat, s: Source, rest: seq<bool>)
    requires UsableCode(lens) && HasCode(lens, i) && s.bits == Codeword(lens, i) + rest
    ensures Yields(TakeSymbol(lens, s), i, rest)
  {
    hide Codeword, Complete;
    assert Decodes(lens, s.bits, i);
    TakeSymbolIs(lens, s, i);
    assert s.bits[lens[i]..] == rest;
  }

  lemma TakeWritten(v: nat, n: nat, s: Source, rest: seq<bool>)
    requires v < Pow2(n) && s.bits == ToBits(v, n) + rest
    ensures Yields(TakeNumber(s, n), v, rest)
  {
    hide ToBits, Value, Pow2;
    assert s.bits[..n] == ToBits(v, n) && s.bits[n..] == rest;
    ValueOfToBits(v, n);
  }

  /** Every item is parsed back, whatever follows it. */
  lemma ItemRoundTrip(pre: seq<nat>, item: TreeItem, s: Source, rest: seq<bool>)
    requires UsableCode(pre) && ItemOk(pre, item) && s.bits == EncodeItem(pre, item) + rest
    ensures Yields(ParseTreeItem(pre, s), item, rest)
  {
    hide Codeword, Complete, UsableCode, TakeSymbol, TakeNumber, ToBits, Pow2;
    Pow2Values();
    match item
    case Delta(d) => TakeEncoded(pre, d, s, rest);
    case ZeroRun(n) =>
      var c, v, w := if n < 20 then 17 else 18, if n < 20 then n - 4 else n - 20, if n < 20 then 4 else 5;
      assert s.bits == Codeword(pre, c) + (ToBits(v, w) + rest);
      TakeEncoded(pre, c, s, ToBits(v, w) + rest);
      TakeWritten(v, w, TakeSymbol(pre, s).value.1, rest);
    case SameRun(n, d) =>
      var after := Codeword(pre, d) + rest;
      assert s.bits == Codeword(pre, 19) + (ToBits(n - 4, 1) + after);
      TakeEncoded(pre, 19, s, ToBits(n - 4, 1) + after);
      var s1 := TakeSymbol(pre, s).value.1;
      TakeWritten(n - 4, 1, s1, after);
      TakeEncoded(pre, d, TakeNumber(s1, 1).value.1, rest);
  }

  ghost predicate ItemsOk(pre: seq<nat>, items: seq<TreeItem>) {
    forall k :: 0 <= k < |items| ==> ItemOk(pre, items[k])
  }

  ghost function EncodeItems(pre: seq<nat>, items: seq<TreeItem>): seq<bool>
    requires ItemsOk(pre, items)
  {
    if items == [] then [] else EncodeItem(pre, items[0]) + EncodeItems(pre, items[1..])
  }

  /** The entries a list of items covers. */
  function Span(items: seq<TreeItem>): nat {
    if items == [] then 0 else ItemSize(items[0]) + Span(items[1..])
  }

  /** The lengths after a list of items that covers entries `i` and up. */
  ghost function ApplyItems(pre: seq<nat>, lens: seq<nat>, i: nat, items: seq<TreeItem>): (r: seq<nat>)
    requires ItemsOk(pre, items) && i + Span(items) == |lens|
    ensures |r| == |lens|
    decreases |items|
  {
    if items == [] then lens
    else
      assert ItemOk(pre, items[0]);
      ApplyItems(pre, ApplyItem(lens, i, items[0]), i + ItemSize(items[0]), items[1..])
  }

  /** ROUND TRIP: any list of items, runs included, is parsed back into the lengths it stands for. */
  lemma {:induction false} TreeRoundTrip(
      pre: seq<nat>, items: seq<TreeItem>, lens: seq<nat>, i: nat, s: Source, rest: seq<bool>)
    requires UsableCode(pre) && ItemsOk(pre, items) && i + Span(items) == |lens|
    requires s.bits == EncodeItems(pre, items) + rest
    ensures Yields(ParseTree(pre, s, lens, i), ApplyItems(pre, lens, i, items), rest)
    decreases |items|
  {
    hide UsableCode, ParseTreeItem, EncodeItem, ApplyItem;
    if items == [] {
      assert s.bits == rest;
    } else {
      assert ItemOk(pre, items[0]);
      var tail := EncodeItems(pre, items[1..]) + rest;
      assert s.bits == EncodeItem(pre, items[0]) + tail;
      ItemRoundTrip(pre, items[0], s, tail);
      var s1 := ParseTreeItem(pre, s).value.1;
      TreeRoundTrip(pre, items[1..], ApplyItem(lens, i, items[0]), i + ItemSize(items[0]), s1, rest);
    }
  }

  /** The item a symbol-by-symbol encoder writes to turn `previous` into `target`. */
  function DeltaFor(previous: nat, target: nat): (d: nat)
    requires previous <= 16 && target <= 16
    ensures d <= 16 && Undelta(previous, d) == target
  {
    (previous + 17 - target) % 17
  }

  function DeltaItems(lens: seq<nat>, target: seq<nat>, i: nat): (r: seq<TreeItem>)
    requires |lens| == |target| && i <= |lens| && LengthsOk(lens) && LengthsOk(target)
    ensures |r| == |lens| - i && Span(r) == |lens| - i
    decreases |lens| - i
  {
    if i == |lens| then [] else [Delta(DeltaFor(lens[i], target[i]))] + DeltaItems(lens, target, i + 1)
  }

  /** Any lengths can be sent over any previous ones. */
  lemma {:induction false} AnyTree(pre: seq<nat>, lens: seq<nat>, target: seq<nat>, i: nat)
    requires |lens| == |target| && i <= |lens| && LengthsOk(lens) && LengthsOk(target)
    requires |pre| == 20 && forall d :: 0 <= d <= 16 ==> pre[d] > 0
    requires lens[..i] == target[..i]
    ensures ItemsOk(pre, DeltaItems(lens, target, i)) && ApplyItems(pre, lens, i, DeltaItems(lens, target, i)) == target
    decreases |lens| - i
  {
    hide DeltaFor;
    if i == |lens| {
      assert lens == lens[..i] && target == target[..i];
    } else {
      var items := DeltaItems(lens, target, i);
      var lens' := lens[i := target[i]];
      assert items[1..] == DeltaItems(lens, target, i + 1);
      SameDeltas(lens, lens', target, i + 1);
      assert lens'[..i + 1] == target[..i + 1];
      AnyTree(pre, lens', target, i + 1);
    }
  }

  lemma {:induction false} SameDeltas(a: seq<nat>, b: seq<nat>, target: seq<nat>, i: nat)
    requires |a| == |b| == |target| && i <= |a| && LengthsOk(a) && LengthsOk(b) && LengthsOk(target)
    requires a[i..] == b[i..]
    ensures DeltaItems(a, target, i) == DeltaItems(b, target, i)
    decreases |a| - i
  {
    if i < |a| {
      assert a[i] == a[i..][0] && b[i] == b[i..][0];
      assert a[i + 1..] == a[i..][1..] && b[i + 1..] == b[i..][1..];
      SameDeltas(a, b, target, i + 1);
    }
  }

  // ----- tokens ------------------------------------------------------------------------------

  datatype Trees = Trees(main: seq<nat>, length: seq<nat>, aligned: Option<seq<nat>>)

  datatype OffsetCode = Repeat(k: nat) | Explicit(offset: nat)

  datatype Token = Literal(b: byte) | Match(length: nat, from: OffsetCode)

  /** The number of bytes a token stands for. */
  function TokenSize(t: Token): nat {
    match t
    case Literal(_) => 1
    case Match(n, _) => n
  }

  function ExplicitOffset(slot: nat, extra: nat): nat
    requires slot < SLOTS
  {
    (BasePosition(slot) + extra + 65534) % 65536
  }

  ghost function ParseOffset(aligned: Option<seq<nat>>, slot: nat, s: Source): Option<(nat, Source)>
    requires slot < SLOTS
  {
    var bits := FooterBits(slot);
    if bits >= 3 && aligned.Some? then
      match TakeNumber(s, bits - 3)
      case None => None
      case Some((v, s1)) =>
        match TakeSymbol(aligned.value, s1)
        case None => None
        case Some((a, s2)) => Some((ExplicitOffset(slot, 8 * v + a), s2))
    else
      match TakeNumber(s, bits)
      case None => None
      case Some((v, s1)) => Some((ExplicitOffset(slot, v), s1))
  }

  /** The length of a match: three bits of the main symbol, extended by the length tree. */
  ghost function ParseLength(length: seq<nat>, header: nat, s: Source): Option<(nat, Source)> {
    if header == 7 then
      match TakeSymbol(length, s)
      case None => None
      case Some((x, s1)) => Some((7 + x + 2, s1))
    else Some((header + 2, s))
  }

  ghost function ParseToken(t: Trees, s: Source): (r: Option<(Token, Source)>)
    ensures r.Some? ==> TokenSize(r.value.0) > 0
  {
    match TakeSymbol(t.main, s)
    case None => None
    case Some((m, s1)) =>
      if m < 256 then Some((Literal(m), s1))
      else
        var slot := (m - 256) / 8;
        if slot >= SLOTS then None
        else
          match ParseLength(t.length, (m - 256) % 8, s1)
          case None => None
          case Some((n, s2)) =>
            if slot < 3 then Some((Match(n, Repeat(slot)), s2))
            else
              match ParseOffset(t.aligned, slot, s2)
              case None => None
              case Some((o, s3)) => Some((Match(n, Explicit(o)), s3))
  }

  /** The tokens that stand for exactly `todo` bytes. */
  ghost function ParseTokens(t: Trees, s: Source, todo: nat): Option<(seq<Token>, Source)>
    decreases todo
  {
    if todo == 0 then Some(([], s))
    else
      match ParseToken(t, s)
      case None => None
      case Some((token, rest)) =>
        if TokenSize(token) > todo then None
        else Prepend(token, ParseTokens(t, rest, todo - TokenSize(token)))
  }

  function Prepend(token: Token, r: Option<(seq<Token>, Source)>): Option<(seq<Token>, Source)> {
    match r
    case None => None
    case Some((ts, s)) => Some(([token] + ts, s))
  }

  // ----- offsets: each exactly once --------------------------------------------------------------

  lemma FooterSpans(slot: nat)
    requires 3 <= slot < 30
    ensures BasePosition(slot) + Pow2(FooterBits(slot)) == BasePosition(slot + 1)
  {
    hide Pow2;
    Pow2Values();
  }

  lemma {:induction false} BasesIncrease(a: nat, b: nat)
    requires 3 <= a <= b <= 30
    ensures BasePosition(a) <= BasePosition(b)
  {
    if a < b {
      BasesIncrease(a, b - 1);
      FooterSpans(b - 1);
    }
  }

  lemma {:induction false} FindSlot(position: nat, hi: nat) returns (slot: nat)
    requires 3 < hi <= 30 && 3 <= position < BasePosition(hi)
    ensures 3 <= slot < hi && BasePosition(slot) <= position < BasePosition(slot + 1)
  {
    if hi > 4 && position < BasePosition(hi - 1) { slot := FindSlot(position, hi - 1); } else { slot := hi - 1; }
  }

  /** Slots 3..29 and their footer bits reach every offset 1..32765 ... */
  lemma OffsetEncodable(offset: nat) returns (slot: nat, extra: nat)
    requires 1 <= offset <= 32765
    ensures 3 <= slot < 30 && extra < Pow2(FooterBits(slot)) && ExplicitOffset(slot, extra) == offset
  {
    slot := FindSlot(offset + 2, 30);
    FooterSpans(slot);
    extra := offset + 2 - BasePosition(slot);
  }

  /** ... and nothing else ... */
  lemma OffsetRange(slot: nat, extra: nat)
    requires 3 <= slot < 30 && extra < Pow2(FooterBits(slot))
    ensures 1 <= ExplicitOffset(slot, extra) <= 32765
    ensures ExplicitOffset(slot, extra) + 2 == BasePosition(slot) + extra
  {
    FooterSpans(slot);
    BasesIncrease(slot + 1, 30);
    BasesIncrease(3, slot);
  }

  /** ... each in exactly one way. */
  lemma OffsetUnique(slot: nat, extra: nat, slot': nat, extra': nat)
    requires 3 <= slot < 30 && extra < Pow2(FooterBits(slot))
    requires 3 <= slot' < 30 && extra' < Pow2(FooterBits(slot'))
    requires ExplicitOffset(slot, extra) == ExplicitOffset(slot', extra')
    ensures slot == slot' && extra == extra'
  {
    OffsetRange(slot, extra);
    OffsetRange(slot', extra');
    FooterSpans(slot);
    FooterSpans(slot');
    if slot < slot' { BasesIncrease(slot + 1, slot'); }
    if slot' < slot { BasesIncrease(slot' + 1, slot); }
  }

  // ----- LZ77 expansion ----------------------------------------------------------------------------

  datatype Lru = Lru(r0: nat, r1: nat, r2: nat)

  /** The offset a code means, and the recent offsets after using it. */
  function Resolve(lru: Lru, code: OffsetCode): (nat, Lru) {
    match code
    case Repeat(k) =>
      if k == 0 then (lru.r0, lru)
      else if k == 1 then (lru.r1, Lru(lru.r1, lru.r0, lru.r2))
      else (lru.r2, Lru(lru.r2, lru.r1, lru.r0))
    case Explicit(o) => (o, Lru(o, lru.r0, lru.r1))
  }

  /** Appends `n` bytes, each copied from `offset` back; the copy may run into its own output. */
  function CopyMatch(out: seq<byte>, offset: nat, n: nat): (r: seq<byte>)
    requires 0 < offset <= |out|
    ensures |r| == |out| + n
  {
    if n == 0 then out else
      var shorter := CopyMatch(out, offset, n - 1);
      shorter + [shorter[|shorter| - offset]]
  }

  function ExpandToken(out: seq<byte>, lru: Lru, t: Token): Option<(seq<byte>, Lru)> {
    match t
    case Literal(b) => Some((out + [b], lru))
    case Match(n, code) =>
      var (offset, lru') := Resolve(lru, code);
      if offset == 0 || offset > |out| then None else Some((CopyMatch(out, offset, n), lru'))
  }

  function Expand(out: seq<byte>, lru: Lru, ts: seq<Token>): Option<(seq<byte>, Lru)>
    decreases |ts|
  {
    if ts == [] then Some((out, lru))
    else
      match ExpandToken(out, lru, ts[0])
      case None => None
      case Some((out', lru')) => Expand(out', lru', ts[1..])
  }

  lemma {:induction false} CopyKeeps(out: seq<byte>, offset: nat, n: nat)
    requires 0 < offset <= |out|
    ensures CopyMatch(out, offset, n)[..|out|] == out
  {
    if n > 0 { CopyKeeps(out, offset, n - 1); }
  }

  /** `k` modulo `d`. */
  function Phase(k: nat, d: nat): (r: nat)
    requires d > 0
    ensures r < d
  {
    if k < d then k else Phase(k - d, d)
  }

  /** A match repeats the last `offset` bytes periodically, whether or not it overlaps itself. */
  lemma {:induction false} CopyIsPeriodic(out: seq<byte>, offset: nat, n: nat, k: nat)
    requires 0 < offset <= |out| && k < n
    ensures CopyMatch(out, offset, n)[|out| + k] == out[|out| - offset + Phase(k, offset)]
  {
    var shorter := CopyMatch(out, offset, n - 1);
    CopyKeeps(out, offset, n - 1);
    if k < n - 1 {
      CopyIsPeriodic(out, offset, n - 1, k);
    } else if k >= offset {
      CopyIsPeriodic(out, offset, n - 1, k - offset);
    } else {
      assert shorter[|out| + k - offset] == shorter[..|out|][|out| + k - offset];
    }
  }

  lemma {:induction false} ExpandGrows(out: seq<byte>, lru: Lru, ts: seq<Token>)
    ensures Expand(out, lru, ts).Some? ==> out <= Expand(out, lru, ts).value.0
    decreases |ts|
  {
    if ts != [] {
      match ExpandToken(out, lru, ts[0])
      case None =>
      case Some((out', lru')) =>
        ExpandGrows(out', lru', ts[1..]);
        if ts[0].Match? { CopyKeeps(out, Resolve(lru, ts[0].from).0, ts[0].length); }
    }
  }

  // ----- the token encoder --------------------------------------------------------------------------

  /** The main-tree symbol that announces a token. */
  ghost function MainSymbol(token: Token): nat
    requires token.Match? && token.from.Explicit? ==> 1 <= token.from.offset <= 32765
  {
    match token
    case Literal(b) => b
    case Match(n, from) => 256 + 8 * MatchSlot(from) + LengthHeader(n)
  }

  ghost function MatchSlot(from: OffsetCode): nat
    requires from.Explicit? ==> 1 <= from.offset <= 32765
  {
    match from
    case Repeat(k) => k
    case Explicit(o) => SlotFor(o).0
  }

  function LengthHeader(n: nat): nat {
    if n < 2 then 0 else if n < 9 then n - 2 else 7
  }

  ghost predicate OffsetEncodes(t: Trees, o: nat) {
    && 1 <= o <= 32765
    && (t.aligned.Some? && FooterBits(SlotFor(o).0) >= 3 ==>
          UsableCode(t.aligned.value) && HasCode(t.aligned.value, SlotFor(o).1 % 8))
  }

  /** A token the trees can express. */
  ghost predicate Encodable(t: Trees, token: Token) {
    && UsableCode(t.main) && UsableCode(t.length)
    && (token.Match? ==>
          && 2 <= token.length
          && (token.length >= 9 ==> HasCode(t.length, token.length - 9))
          && (token.from.Repeat? ==> token.from.k < 3)
          && (token.from.Explicit? ==> OffsetEncodes(t, token.from.offset)))
    && HasCode(t.main, MainSymbol(token))
  }

  ghost function SlotFor(o: nat): (r: (nat, nat))
    requires 1 <= o <= 32765
    ensures 3 <= r.0 < 30 && r.1 < Pow2(FooterBits(r.0)) && ExplicitOffset(r.0, r.1) == o
  {
    assert exists slot: nat, extra: nat ::
        3 <= slot < 30 && extra < Pow2(FooterBits(slot)) && ExplicitOffset(slot, extra) == o by {
      var slot, extra := OffsetEncodable(o);
    }
    var slot: nat, extra: nat :| 3 <= slot < 30 && extra < Pow2(FooterBits(slot)) && ExplicitOffset(slot, extra) == o;
    (slot, extra)
  }

  ghost function EncodeOffset(t: Trees, o: nat): seq<bool>
    requires OffsetEncodes(t, o)
  {
    var (slot, extra) := SlotFor(o);
    if t.aligned.Some? && FooterBits(slot) >= 3
    then ToBits(extra / 8, FooterBits(slot) - 3) + Codeword(t.aligned.value, extra % 8)
    else ToBits(extra, FooterBits(slot))
  }

  ghost function EncodeLength(t: Trees, n: nat): seq<bool>
    requires n >= 9 ==> HasCode(t.length, n - 9)
  {
    if n < 9 then [] else Codeword(t.length, n - 9)
  }

  ghost function EncodeToken(t: Trees, token: Token): seq<bool>
    requires Encodable(t, token)
  {
    Codeword(t.main, MainSymbol(token))
    + (if token.Match? then EncodeLength(t, token.length) else [])
    + (if token.Match? && token.from.Explicit? then EncodeOffset(t, token.from.offset) else [])
  }

  lemma HighBits(extra: nat, bits: nat)
    requires bits >= 3 && extra < Pow2(bits)
    ensures extra / 8 < Pow2(bits - 3)
  {
    assert Pow2(bits) == 2 * Pow2(bits - 1) && Pow2(bits - 1) == 2 * Pow2(bits - 2);
    assert Pow2(bits - 2) == 2 * Pow2(bits - 3);
  }

  lemma OffsetRoundTrip(t: Trees, o: nat, s: Source, rest: seq<bool>)
    requires OffsetEncodes(t, o) && s.bits == EncodeOffset(t, o) + rest
    ensures Yields(ParseOffset(t.aligned, SlotFor(o).0, s), o, rest)
  {
    hide Codeword, UsableCode, ToBits, Pow2, TakeSymbol, TakeNumber, SlotFor, ExplicitOffset, FooterBits;
    var (slot, extra) := SlotFor(o);
    var bits := FooterBits(slot);
    if t.aligned.Some? && bits >= 3 {
      var a, b := ToBits(extra / 8, bits - 3), Codeword(t.aligned.value, extra % 8);
      HighBits(extra, bits);
      assert s.bits == a + (b + rest);
      TakeWritten(extra / 8, bits - 3, s, b + rest);
      TakeEncoded(t.aligned.value, extra % 8, TakeNumber(s, bits - 3).value.1, rest);
      assert 8 * (extra / 8) + extra % 8 == extra;
    } else {
      TakeWritten(extra, bits, s, rest);
    }
  }

  lemma LengthRoundTrip(t: Trees, n: nat, s: Source, rest: seq<bool>)
    requires 2 <= n && UsableCode(t.length) && (n >= 9 ==> HasCode(t.length, n - 9))
    requires s.bits == EncodeLength(t, n) + rest
    ensures Yields(ParseLength(t.length, LengthHeader(n), s), n, rest)
  {
    hide Codeword, UsableCode, TakeSymbol;
    if n >= 9 { TakeEncoded(t.length, n - 9, s, rest); } else { assert s.bits == rest; }
  }

  lemma MainSymbolParts(n: nat, from: OffsetCode)
    requires from.Explicit? ==> 1 <= from.offset <= 32765
    ensures var m := MainSymbol(Match(n, from));
            m >= 256 && (m - 256) / 8 == MatchSlot(from) && (m - 256) % 8 == LengthHeader(n)
  {
    hide MatchSlot;
  }

  lemma MatchRoundTrip(t: Trees, n: nat, from: OffsetCode, s: Source, rest: seq<bool>)
    requires Encodable(t, Match(n, from)) && s.bits == EncodeToken(t, Match(n, from)) + rest
    ensures Yields(ParseToken(t, s), Match(n, from), rest)
  {
    hide Codeword, UsableCode, TakeSymbol, SlotFor, ExplicitOffset, ParseOffset, ParseLength, EncodeOffset;
    hide EncodeLength;
    hide MainSymbol, LengthHeader;
    MainSymbolParts(n, from);
    var token := Match(n, from);
    var a, b := Codeword(t.main, MainSymbol(token)), EncodeLength(t, n);
    var c := if from.Explicit? then EncodeOffset(t, from.offset) else [];
    assert s.bits == a + (b + (c + rest));
    TakeEncoded(t.main, MainSymbol(token), s, b + (c + rest));
    var s1 := TakeSymbol(t.main, s).value.1;
    LengthRoundTrip(t, n, s1, c + rest);
    if from.Explicit? {
      OffsetRoundTrip(t, from.offset, ParseLength(t.length, LengthHeader(n), s1).value.1, rest);
    } else {
      assert c + rest == rest;
    }
  }

  /** ROUND TRIP: every token the trees can express is parsed back, whatever follows it. */
  lemma TokenRoundTrip(t: Trees, token: Token, s: Source, rest: seq<bool>)
    requires Encodable(t, token) && s.bits == EncodeToken(t, token) + rest
    ensures Yields(ParseToken(t, s), token, rest)
  {
    hide Codeword, UsableCode, TakeSymbol, SlotFor, ParseOffset, ParseLength, EncodeOffset, EncodeLength;
    match token
    case Literal(b) =>
      assert s.bits == Codeword(t.main, b) + rest;
      TakeEncoded(t.main, b, s, rest);
    case Match(n, from) => MatchRoundTrip(t, n, from, s, rest);
  }

  ghost function EncodeTokens(t: Trees, ts: seq<Token>): seq<bool>
    requires forall i :: 0 <= i < |ts| ==> Encodable(t, ts[i])
  {
    if ts == [] then [] else EncodeToken(t, ts[0]) + EncodeTokens(t, ts[1..])
  }

  function TotalSize(ts: seq<Token>): nat {
    if ts == [] then 0 else TokenSize(ts[0]) + TotalSize(ts[1..])
  }

  /** ROUND TRIP: a list of tokens is parsed back from its bits, and the parser stops after it. */
  lemma {:induction false} TokensRoundTrip(t: Trees, ts: seq<Token>, s: Source, rest: seq<bool>)
    requires forall i :: 0 <= i < |ts| ==> Encodable(t, ts[i])
    requires s.bits == EncodeTokens(t, ts) + rest
    ensures Yields(ParseTokens(t, s, TotalSize(ts)), ts, rest)
  {
    hide ParseToken, EncodeToken, Encodable;
    if ts == [] {
      assert s.bits == rest;
    } else {
      var tail := EncodeTokens(t, ts[1..]) + rest;
      assert Encodable(t, ts[0]);
      assert s.bits == EncodeToken(t, ts[0]) + tail;
      TokenRoundTrip(t, ts[0], s, tail);
      TokensRoundTrip(t, ts[1..], ParseToken(t, s).value.1, rest);
      assert [ts[0]] + ts[1..] == ts;
    }
  }

  // ----- blocks ---------------------------------------------------------------------------------------

  const MAIN_CODE_SPLIT: nat := 256
  const MAX_BLOCK_SIZE: nat := 32768

  const VERBATIM_BLOCK: nat := 1
  const ALIGNED_OFFSET_BLOCK: nat := 2
  const UNCOMPRESSED_BLOCK: nat := 3

  ghost function ReadAligned(s: Source, aligned: bool): Option<(Option<seq<nat>>, Source)> {
    if !aligned then Some((None, s))
    else
      match TakeNumbers(s, 3, 8)
      case None => None
      case Some((lens, rest)) => if UsableCode(lens) then Some((Some(lens), rest)) else None
  }

  ghost function ReadMain(s: Source, main: seq<nat>): (r: Option<(seq<nat>, Source)>)
    requires |main| >= MAIN_CODE_SPLIT
    ensures r.Some? ==> |r.value.0| == |main|
  {
    match ReadTree(s, main[..MAIN_CODE_SPLIT])
    case None => None
    case Some((prefix, s1)) =>
      match ReadTree(s1, main[MAIN_CODE_SPLIT..])
      case None => None
      case Some((suffix, s2)) => if UsableCode(prefix + suffix) then Some((prefix + suffix, s2)) else None
  }

  /** The trees of a compressed block, coded as changes to the previous block's. */
  ghost function ReadTrees(s: Source, main: seq<nat>, length: seq<nat>, aligned: bool): (r: Option<(Trees, Source)>)
    requires |main| >= MAIN_CODE_SPLIT
    ensures r.Some? ==> |r.value.0.main| == |main| && |r.value.0.length| == |length|
  {
    match ReadAligned(s, aligned)
    case None => None
    case Some((al, s1)) =>
      match ReadMain(s1, main)
      case None => None
      case Some((main', s2)) =>
        match ReadTree(s2, length)
        case None => None
        case Some((length', s3)) => if UsableCode(length') then Some((Trees(main', length', al), s3)) else None
  }

  /** The expansion of the tokens of one block, with the bits left after it. */
  ghost function DecodeTokens(
      t: Trees, s: Source, out: seq<byte>, lru: Lru, size: nat): Option<(seq<byte>, Lru, Source)> {
    match ParseTokens(t, s, size)
    case None => None
    case Some((ts, rest)) =>
      match Expand(out, lru, ts)
      case None => None
      case Some((out', lru')) => Some((out', lru', rest))
  }

  // ----- the block encoder ---------------------------------------------------------------------------

  function EncodeNumbers(ns: seq<nat>, width: nat): seq<bool> {
    if ns == [] then [] else EncodeNumbers(ns[..|ns| - 1], width) + ToBits(ns[|ns| - 1], width)
  }

  ghost predicate NumbersFit(ns: seq<nat>, width: nat) {
    forall k :: 0 <= k < |ns| ==> ns[k] < Pow2(width)
  }

  lemma {:induction false} NumbersRoundTrip(ns: seq<nat>, width: nat, s: Source, rest: seq<bool>)
    requires NumbersFit(ns, width) && s.bits == EncodeNumbers(ns, width) + rest
    ensures Yields(TakeNumbers(s, width, |ns|), ns, rest)
    decreases |ns|
  {
    hide ToBits, TakeNumber, Pow2;
    if ns == [] {
      assert s.bits == rest;
    } else {
      var n, init := |ns| - 1, ns[..|ns| - 1];
      assert s.bits == EncodeNumbers(init, width) + (ToBits(ns[n], width) + rest);
      NumbersRoundTrip(init, width, s, ToBits(ns[n], width) + rest);
      TakeWritten(ns[n], width, TakeNumbers(s, width, n).value.1, rest);
      assert init + [ns[n]] == ns;
    }
  }

  /** How a tree is sent: its pretree, and the items coded with it. */
  datatype TreePlan = TreePlan(pre: seq<nat>, items: seq<TreeItem>)

  /** A plan that covers exactly `n` entries. */
  ghost predicate PlanOk(plan: TreePlan, n: nat) {
    |plan.pre| == 20 && NumbersFit(plan.pre, 4) && UsableCode(plan.pre) && ItemsOk(plan.pre, plan.items)
        && Span(plan.items) == n
  }

  ghost function EncodePlan(plan: TreePlan): seq<bool>
    requires ItemsOk(plan.pre, plan.items)
  {
    EncodeNumbers(plan.pre, 4) + EncodeItems(plan.pre, plan.items)
  }

  ghost function Planned(plan: TreePlan, lens: seq<nat>): (r: seq<nat>)
    requires PlanOk(plan, |lens|)
    ensures |r| == |lens|
  {
    ApplyItems(plan.pre, lens, 0, plan.items)
  }

  /** ROUND TRIP: a tree is read back from its plan, over any previous lengths. */
  lemma PlanRoundTrip(plan: TreePlan, lens: seq<nat>, s: Source, rest: seq<bool>)
    requires PlanOk(plan, |lens|) && s.bits == EncodePlan(plan) + rest
    ensures Yields(ReadTree(s, lens), Planned(plan, lens), rest)
  {
    hide EncodeNumbers, EncodeItems, ParseTree, TakeNumbers, UsableCode, Pow2;
    var tail := EncodeItems(plan.pre, plan.items) + rest;
    assert s.bits == EncodeNumbers(plan.pre, 4) + tail;
    NumbersRoundTrip(plan.pre, 4, s, tail);
    TreeRoundTrip(plan.pre, plan.items, lens, 0, TakeNumbers(s, 4, 20).value.1, rest);
  }

  /** The trees of a block: the two parts of the main tree, the length tree, and the aligned tree if any. */
  datatype BlockPlan = BlockPlan(low: TreePlan, high: TreePlan, length: TreePlan, aligned: Option<seq<nat>>)

  ghost predicate BlockPlanOk(p: BlockPlan, main: seq<nat>, length: seq<nat>) {
    && |main| >= MAIN_CODE_SPLIT
    && PlanOk(p.low, MAIN_CODE_SPLIT) && PlanOk(p.high, |main| - MAIN_CODE_SPLIT) && PlanOk(p.length, |length|)
    && UsableCode(PlannedMain(p, main)) && UsableCode(Planned(p.length, length))
    && (p.aligned.Some? ==> |p.aligned.value| == 8 && NumbersFit(p.aligned.value, 3) && UsableCode(p.aligned.value))
  }

  ghost function PlannedMain(p: BlockPlan, main: seq<nat>): (r: seq<nat>)
    requires |main| >= MAIN_CODE_SPLIT && PlanOk(p.low, MAIN_CODE_SPLIT) && PlanOk(p.high, |main| - MAIN_CODE_SPLIT)
    ensures |r| == |main|
  {
    Planned(p.low, main[..MAIN_CODE_SPLIT]) + Planned(p.high, main[MAIN_CODE_SPLIT..])
  }

  ghost function PlannedTrees(p: BlockPlan, main: seq<nat>, length: seq<nat>): Trees
    requires BlockPlanOk(p, main, length)
  {
    Trees(PlannedMain(p, main), Planned(p.length, length), p.aligned)
  }

  ghost function EncodeAligned(aligned: Option<seq<nat>>): seq<bool> {
    if aligned.Some? then EncodeNumbers(aligned.value, 3) else []
  }

  ghost function EncodeTrees(p: BlockPlan, main: seq<nat>, length: seq<nat>): seq<bool>
    requires BlockPlanOk(p, main, length)
  {
    EncodeAligned(p.aligned) + EncodePlan(p.low) + EncodePlan(p.high) + EncodePlan(p.length)
  }

  lemma AlignedRoundTrip(aligned: Option<seq<nat>>, s: Source, rest: seq<bool>)
    requires aligned.Some? ==> |aligned.value| == 8 && NumbersFit(aligned.value, 3) && UsableCode(aligned.value)
    requires s.bits == EncodeAligned(aligned) + rest
    ensures Yields(ReadAligned(s, aligned.Some?), aligned, rest)
  {
    hide EncodeNumbers, TakeNumbers, UsableCode, NumbersFit;
    if aligned.Some? { NumbersRoundTrip(aligned.value, 3, s, rest); } else { assert s.bits == rest; }
  }

  lemma MainRoundTrip(p: BlockPlan, main: seq<nat>, s: Source, rest: seq<bool>)
    requires |main| >= MAIN_CODE_SPLIT && PlanOk(p.low, MAIN_CODE_SPLIT) && PlanOk(p.high, |main| - MAIN_CODE_SPLIT)
    requires UsableCode(PlannedMain(p, main)) && s.bits == EncodePlan(p.low) + (EncodePlan(p.high) + rest)
    ensures Yields(ReadMain(s, main), PlannedMain(p, main), rest)
  {
    hide EncodePlan, Planned, ReadTree, UsableCode, ItemsOk, NumbersFit, Span;
    PlanRoundTrip(p.low, main[..MAIN_CODE_SPLIT], s, EncodePlan(p.high) + rest);
    PlanRoundTrip(p.high, main[MAIN_CODE_SPLIT..], ReadTree(s, main[..MAIN_CODE_SPLIT]).value.1, rest);
  }

  /** ROUND TRIP: the trees of a block are read back from their plan, as changes to any previous ones. */
  lemma TreesRoundTrip(p: BlockPlan, main: seq<nat>, length: seq<nat>, s: Source, rest: seq<bool>)
    requires BlockPlanOk(p, main, length) && s.bits == EncodeTrees(p, main, length) + rest
    ensures Yields(ReadTrees(s, main, length, p.aligned.Some?), PlannedTrees(p, main, length), rest)
  {
    hide EncodePlan, Planned, ReadTree, UsableCode, ItemsOk, NumbersFit, Span, ReadMain, ReadAligned, EncodeAligned;
    var after := EncodePlan(p.length) + rest;
    var trees := EncodePlan(p.low) + (EncodePlan(p.high) + after);
    assert s.bits == EncodeAligned(p.aligned) + trees;
    AlignedRoundTrip(p.aligned, s, trees);
    var s1 := ReadAligned(s, p.aligned.Some?).value.1;
    MainRoundTrip(p, main, s1, after);
    PlanRoundTrip(p.length, length, ReadMain(s1, main).value.1, rest);
  }
}
