/** The bit reader of the LZX decoder and its view as one flat stream of bits. */
module LzxReader {
  import opened Common
  import opened Bits
  import opened Huffman
  import opened HuffmanTable
  import opened LzxFormat

  datatype Error = Corrupt | UnexpectedEof | ChunkTooLarge(size: nat) | WindowOverrun

  function Word(lo: byte, hi: byte): (w: nat)
    ensures w < 65536
  {
    256 * (hi as int) + lo as int
  }

  /** The 32-bit register that holds bits `b` at its top. */
  function Register(b: seq<bool>): nat
    requires |b| <= 32
  {
    Shl(Value(b), 32 - |b|)
  }

  /** The bits of little-endian 16-bit words; an odd last byte holds no bits. */
  function Words(bytes: seq<byte>): seq<bool> {
    if |bytes| < 2 then [] else ToBits(Word(bytes[0], bytes[1]), 16) + Words(bytes[2..])
  }

  lemma {:induction false} WordsLength(bytes: seq<byte>)
    ensures |Words(bytes)| == 16 * (|bytes| / 2)
  {
    hide ToBits, Word;
    if |bytes| >= 2 { WordsLength(bytes[2..]); }
  }

  /** The source of a reader that has buffered some bits and stands at a byte of the input. */
  function SourceOf(input: seq<byte>, buffered: seq<bool>, offset: nat): Source {
    Source(buffered + Words(if offset <= |input| then input[offset..] else []), |buffered|, offset)
  }

  class BitReader {
    const input: seq<byte>
    var byteOffset: nat
    var bitCount: nat
    var bitBuffer: nat
    /** The bits taken from the input but not yet consumed. */
    ghost var buffered: seq<bool>

    ghost predicate Valid()
      reads this
    {
      && byteOffset <= |input|
      && bitCount == |buffered| <= 31
      && bitBuffer == Register(buffered)
    }

    /** Where the reader stands: the buffered bits, then the unread words. */
    ghost function Here(): Source
      reads this
    {
      SourceOf(input, buffered, byteOffset)
    }

    /** All bits still to come. */
    ghost function Stream(): seq<bool>
      requires byteOffset <= |input|
      reads this
    {
      buffered + Words(input[byteOffset..])
    }

    /** What the termination of the decoder counts down: bits buffered and bits unread. */
    ghost function Remaining(): int
      reads this
    {
      bitCount + 8 * (|input| - byteOffset)
    }

    constructor (input: seq<byte>)
      ensures Valid() && this.input == input && buffered == [] && byteOffset == 0
      ensures Stream() == Words(input)
    {
      this.input := input;
      byteOffset, bitCount, bitBuffer, buffered := 0, 0, 0, [];
      new;
      ShlZero(32);
      assert input[0..] == input;
    }

    method TryFeed() returns (fed: bool)
      requires Valid() && bitCount < 16
      modifies this
      ensures Valid()
      ensures fed <==> |input| - old(byteOffset) >= 2
      ensures fed ==> byteOffset == old(byteOffset) + 2 && bitCount == old(bitCount) + 16
      ensures fed ==> buffered == old(buffered) + ToBits(Word(input[old(byteOffset)], input[old(byteOffset) + 1]), 16)
      ensures !fed ==> byteOffset == old(byteOffset) && buffered == old(buffered) && Words(input[byteOffset..]) == []
      ensures Stream() == old(Stream()) && Remaining() == old(Remaining()) && Here() == Fed(old(Here()))
    {
      hide Shl, Pow2, Value, Register, Zeros, ToBits, Or, Words;
      WordsLength(input[byteOffset..]);
      if |input| - byteOffset < 2 {
        return false;
      }
      var lo, hi := input[byteOffset], input[byteOffset + 1];
      var word := Word(lo, hi);
      FeedBits(buffered, word);
      bitBuffer := Or(bitBuffer, Shl(word, 16 - bitCount));
      WordsStep(input, byteOffset);
      buffered := buffered + ToBits(word, 16);
      bitCount := bitCount + 16;
      byteOffset := byteOffset + 2;
      return true;
    }

    /** Drops `n` buffered bits. */
    method Consume(n: nat)
      requires Valid() && n <= bitCount
      modifies `bitBuffer, `bitCount, `buffered
      ensures Valid() && bitCount == old(bitCount) - n && buffered == old(buffered)[n..]
      ensures Stream() == old(Stream())[n..] && Here() == Taken(old(Here()), n)
    {
      hide Shl, Pow2, Value, Register, Low, Words;
      DropBits(buffered, n);
      bitBuffer := Low(Shl(bitBuffer, n), 32);
      bitCount := bitCount - n;
      buffered := buffered[n..];
      assert Stream() == old(Stream())[n..];
    }

    /** `n` bits off the front of the stream; the source passes at most 16, or all that is buffered. */
    method GetBits(n: nat) returns (r: Result<nat, Error>)
      requires Valid() && n <= 31 && (n <= 16 || n <= bitCount)
      modifies this
      ensures Valid()
      ensures r.Ok? <==> n <= |old(Stream())|
      ensures r.Ok? ==> r.value == Low(Value(old(Stream())[..n]), 16) && Stream() == old(Stream())[n..]
      ensures r.Ok? ==> Remaining() == old(Remaining()) - n
      ensures r.Ok? ==> Here() == Taken(if n <= old(bitCount) then old(Here()) else Fed(old(Here())), n)
      ensures r.Err? ==> r.error == UnexpectedEof && Stream() == old(Stream()) && Remaining() == old(Remaining())
    {
      hide Shl, Pow2, Value, Register, Zeros, Shr, Low, ToBits, Words;
      if n == 0 {
        ValueEmpty(Stream()[..0]);
        LowSmall(0, 16);
        return Ok(0);
      }
      if bitCount < n {
        var fed := TryFeed();
        if !fed {
          return Err(UnexpectedEof);
        }
      }
      TakeBits(buffered, n);
      assert Stream()[..n] == buffered[..n];
      var value := Shr(bitBuffer, 32 - n);
      Consume(n);
      return Ok(Low(value, 16));
    }

    /** `n` whole bytes of input, taken past the buffered bits. */
    method TakeBytes(n: nat) returns (r: Result<seq<byte>, Error>)
      requires Valid()
      modifies this
      ensures Valid() && buffered == old(buffered)
      ensures r.Ok? <==> old(byteOffset) + n <= |input|
      ensures r.Ok? ==> byteOffset == old(byteOffset) + n && r.value == input[old(byteOffset)..byteOffset]
      ensures r.Err? ==> byteOffset == old(byteOffset) && r.error == UnexpectedEof
    {
      if |input| - byteOffset < n {
        return Err(UnexpectedEof);
      }
      r := Ok(input[byteOffset..byteOffset + n]);
      byteOffset := byteOffset + n;
    }

    /** The table slot the buffered bits, padded with zeros, lead to. */
    method PeekCode(h: Table, ghost lens: seq<nat>) returns (code: nat, ghost i: nat)
      requires Valid() && TableFor(h, lens) && h.maxbits > 0
      ensures Decodes(lens, Lookahead(buffered), i)
      ensures code == Entry(lens[i], i)
    {
      hide Shl, Pow2, Value, Register, Shr, Low, Entry, Kraft, Codeword, Lookahead;
      i := SomeSymbol(lens, Lookahead(buffered));
      assert Lookup(h, Lookahead(buffered)) == Some(Entry(lens[i], i));
      PeekIndex(buffered);
      code := h.table[Shr(bitBuffer, 32 - TABLE_BITS)];
      if code < 512 {
        PeekSuffix(buffered, h.maxbits);
        var suffix := Shr(Low(Shl(bitBuffer, TABLE_BITS), 32), 32 - (h.maxbits - TABLE_BITS));
        code := h.extra[code][suffix];
      }
    }

    /**
     One symbol off the front of the stream: the symbol whose code starts it.  The reader fails
     with an end-of-input error exactly when no symbol's code starts what is left.
     */
    method GetCode(h: Table, ghost lens: seq<nat>) returns (r: Result<nat, Error>)
      requires Valid() && TableFor(h, lens)
      modifies this
      ensures Valid()
      ensures r.Ok? ==> Decodes(lens, old(Stream()), r.value) && Stream() == old(Stream())[lens[r.value]..]
      ensures r.Ok? ==> Remaining() == old(Remaining()) - lens[r.value]
      ensures r.Ok? ==>
              Here() == Taken(if old(bitCount) < MAX_TREE_PATH_LEN then Fed(old(Here())) else old(Here()),
                  lens[r.value])
      ensures r.Err? ==> Stream() == old(Stream()) && Remaining() == old(Remaining())
      ensures r.Err? ==> forall i: nat :: !Decodes(lens, old(Stream()), i)
      ensures r.Err? ==> r.error == if AllZero(lens) then Corrupt else UnexpectedEof
    {
      hide Shl, Pow2, Value, Register, Zeros, Shr, Low, Entry, ToBits, Kraft, Codeword, Words, Lookahead;
      if h.maxbits == 0 {
        return Err(Corrupt);
      }
      if bitCount < MAX_TREE_PATH_LEN {
        var _ := TryFeed();
      }
      var code, i := PeekCode(h, lens);
      EntryParts(lens[i], i);
      var n := Shr(code, LEN_SHIFT);
      DecodesLookahead(lens, buffered, i);
      StreamLookahead(buffered, Words(input[byteOffset..]));
      if bitCount < n {
        NoSymbolLeft(lens, Stream(), i);
        return Err(UnexpectedEof);
      }
      assert buffered <= Stream();
      Consume(n);
      return Ok(Low(code, LEN_SHIFT));
    }
  }

  lemma WordsStep(input: seq<byte>, o: nat)
    requires o + 2 <= |input|
    ensures Words(input[o..]) == ToBits(Word(input[o], input[o + 1]), 16) + Words(input[o + 2..])
  {
    assert input[o..][2..] == input[o + 2..];
  }

  lemma ValueEmpty(b: seq<bool>)
    requires b == []
    ensures Value(b) == 0
  {
  }

  lemma ShlFits(x: nat, j: nat, k: nat)
    requires x < Pow2(j)
    ensures Shl(x, k) < Pow2(j + k)
  {
    hide Shl, Pow2;
    ShlOrder(x, Pow2(j), k);
    ShlOne(j);
    ShlOne(j + k);
    ShlTwice(1, j, k);
  }

  /** Or-ing a word below the buffered bits appends its bits to them. */
  lemma FeedBits(b: seq<bool>, word: nat)
    requires |b| < 16 && word < 65536
    ensures Or(Register(b), Shl(word, 16 - |b|)) == Register(b + ToBits(word, 16))
  {
    hide Shl, Pow2, Value, ToBits, Or;
    Pow2Values();
    var k := 16 - |b|;
    ShlFits(word, 16, k);
    OrDisjoint(Value(b), Shl(word, k), 16 + k);
    ValueConcat(b, ToBits(word, 16));
    ValueOfToBits(word, 16);
    ShlAdd(Shl(Value(b), 16), word, k);
    ShlTwice(Value(b), 16, k);
  }

  /** A register with bits `a + b` on top is `a` shifted to its place plus `b` below it. */
  lemma RegisterSplit(a: seq<bool>, b: seq<bool>)
    requires |a| + |b| <= 32
    ensures Register(a + b) == Shl(Value(a), 32 - |a|) + Shl(Value(b), 32 - |a| - |b|)
    ensures Shl(Value(b), 32 - |a| - |b|) < Pow2(32 - |a|)
  {
    hide Shl, Pow2, Value;
    var k := 32 - |a| - |b|;
    ValueConcat(a, b);
    ShlAdd(Shl(Value(a), |b|), Value(b), k);
    ShlTwice(Value(a), |b|, k);
    ShlFits(Value(b), |b|, k);
  }

  /** Shifting the register right reads its leading bits ... */
  lemma TakeBits(b: seq<bool>, n: nat)
    requires n <= |b| <= 32
    ensures Shr(Register(b), 32 - n) == Value(b[..n])
  {
    hide Shl, Pow2, Value, Shr, Register;
    assert b[..n] + b[n..] == b;
    RegisterSplit(b[..n], b[n..]);
    SplitUnique(Value(b[..n]), Shl(Value(b[n..]), 32 - |b|), 32 - n);
  }

  /** ... and shifting it left drops them. */
  lemma DropBits(b: seq<bool>, n: nat)
    requires n <= |b| <= 32
    ensures Low(Shl(Register(b), n), 32) == Register(b[n..])
  {
    hide Shl, Pow2, Value, Shr, Low;
    var lo := Shl(Value(b[n..]), 32 - |b|);
    assert b[..n] + b[n..] == b;
    RegisterSplit(b[..n], b[n..]);
    ShlAdd(Shl(Value(b[..n]), 32 - n), lo, n);
    ShlTwice(Value(b[..n]), 32 - n, n);
    ShlTwice(Value(b[n..]), 32 - |b|, n);
    ShlFits(lo, 32 - n, n);
    SplitUnique(Value(b[..n]), Shl(lo, n), 32);
  }

  /** The buffered bits filled up with zeros to a full lookahead. */
  function Padded(b: seq<bool>): (p: seq<bool>)
    ensures |p| >= MAX_TREE_PATH_LEN && p[..MAX_TREE_PATH_LEN] == Lookahead(b)
    ensures |b| <= 31 ==> |p| <= 31
  {
    if |b| >= MAX_TREE_PATH_LEN then b else Lookahead(b)
  }

  lemma RegisterPadded(b: seq<bool>)
    requires |b| <= 31
    ensures Register(Padded(b)) == Register(b)
  {
    hide Shl, Pow2, Value, Zeros;
    if |b| < MAX_TREE_PATH_LEN {
      var z := Zeros(MAX_TREE_PATH_LEN - |b|);
      ValueZeros(|z|);
      RegisterSplit(b, z);
      ShlZero(32 - |b| - |z|);
      assert Padded(b) == b + z;
    }
  }

  /** The shifts of the table lookup select the lookahead's leading nine bits ... */
  lemma PeekIndex(b: seq<bool>)
    requires |b| <= 31
    ensures Shr(Register(b), 32 - TABLE_BITS) == Value(Lookahead(b)[..TABLE_BITS])
  {
    hide Shl, Pow2, Value, Register, Zeros, Shr, Padded;
    RegisterPadded(b);
    TakeBits(Padded(b), TABLE_BITS);
    assert Padded(b)[..TABLE_BITS] == Padded(b)[..MAX_TREE_PATH_LEN][..TABLE_BITS];
  }

  /** ... and the bits after them. */
  lemma PeekSuffix(b: seq<bool>, max: nat)
    requires |b| <= 31 && TABLE_BITS < max <= MAX_TREE_PATH_LEN
    ensures Shr(Low(Shl(Register(b), TABLE_BITS), 32), 32 - (max - TABLE_BITS)) == Value(Lookahead(b)[TABLE_BITS..max])
  {
    hide Shl, Pow2, Value, Register, Zeros, Shr, Padded, Low;
    var p := Padded(b);
    RegisterPadded(b);
    DropBits(p, TABLE_BITS);
    TakeBits(p[TABLE_BITS..], max - TABLE_BITS);
    assert p[TABLE_BITS..][..max - TABLE_BITS] == p[..MAX_TREE_PATH_LEN][TABLE_BITS..max];
  }

  /** With 16 bits buffered, or nothing left to feed, the buffer shows the stream's lookahead. */
  lemma StreamLookahead(b: seq<bool>, rest: seq<bool>)
    requires |b| >= MAX_TREE_PATH_LEN || rest == []
    ensures Lookahead(b) == Lookahead(b + rest)
  {
  }

  lemma NoSymbolLeft(lens: seq<nat>, s: seq<bool>, i: nat)
    requires Complete(lens) && Decodes(lens, Lookahead(s), i) && |s| < lens[i]
    ensures forall j: nat :: !Decodes(lens, s, j)
  {
    forall j: nat | Decodes(lens, s, j) ensures false {
      DecodesLookahead(lens, s, j);
      AtMostOneSymbol(lens, Lookahead(s), i, j);
    }
  }
}
