/**
 The x86 call filter that LZX applies after decompression: the operand of every `call` (opcode
 E8) is translated from an absolute to a relative address.
 */
module E8Filter {
  import opened Common

  const E8_FILE_SIZE: int := 12_000_000
  const MAX_E8_OFFSET: int := 0x3fff_ffff
  const I32_MAX: int := 0x7fff_ffff

  /** `i32::from_le_bytes`. */
  function FromLe(b0: byte, b1: byte, b2: byte, b3: byte): (x: int)
    ensures -I32_MAX - 1 <= x <= I32_MAX
  {
    var u := b0 as int + 256 * (b1 as int + 256 * (b2 as int + 256 * (b3 as int)));
    if u > I32_MAX then u - 0x1_0000_0000 else u
  }

  /** `i32::to_le_bytes`. */
  function ToLe(x: int): (b: seq<byte>)
    requires -I32_MAX - 1 <= x <= I32_MAX
    ensures |b| == 4
  {
    var u := if x < 0 then x + 0x1_0000_0000 else x;
    [u % 256, u / 256 % 256, u / 256 / 256 % 256, u / 256 / 256 / 256]
  }

  lemma LeRoundTrip(x: int)
    requires -I32_MAX - 1 <= x <= I32_MAX
    ensures var b := ToLe(x); FromLe(b[0], b[1], b[2], b[3]) == x
  {
  }

  lemma LowByte(b: byte, q: nat)
    ensures (b as int + 256 * q) % 256 == b as int && (b as int + 256 * q) / 256 == q
  {
  }

  lemma LeRoundTripBytes(b0: byte, b1: byte, b2: byte, b3: byte)
    ensures ToLe(FromLe(b0, b1, b2, b3)) == [b0, b1, b2, b3]
  {
    var x3 := b3 as int;
    var x2 := b2 as int + 256 * x3;
    var x1 := b1 as int + 256 * x2;
    var x0 := b0 as int + 256 * x1;
    LowByte(b0, x1);
    LowByte(b1, x2);
    LowByte(b2, x3);
    var x := FromLe(b0, b1, b2, b3);
    assert x0 == if x < 0 then x + 0x1_0000_0000 else x;
    assert ToLe(x) == [x0 % 256, x0 / 256 % 256, x0 / 256 / 256 % 256, x0 / 256 / 256 / 256];
  }

  /** What `decode_e8` does to an operand found at position `ptr`. */
  function Translate(ptr: int, x: int): int {
    if -ptr <= x < E8_FILE_SIZE then (if x >= 0 then x - ptr else x + E8_FILE_SIZE) else x
  }

  /** What an encoder does to it. */
  function Untranslate(ptr: int, x: int): int {
    if -ptr <= x < E8_FILE_SIZE then (if x < E8_FILE_SIZE - ptr then x + ptr else x - E8_FILE_SIZE) else x
  }

  /** Each operand map permutes [-ptr, 12000000) and fixes everything else. */
  lemma TranslateBijective(ptr: int, x: int)
    requires ptr >= 0
    ensures Untranslate(ptr, Translate(ptr, x)) == x && Translate(ptr, Untranslate(ptr, x)) == x
    ensures -ptr <= x < E8_FILE_SIZE <==> -ptr <= Translate(ptr, x) < E8_FILE_SIZE
    ensures !(-ptr <= x < E8_FILE_SIZE) ==> Translate(ptr, x) == x
  {
  }

  function Operand(s: seq<byte>): int
    requires |s| >= 5
  {
    FromLe(s[1], s[2], s[3], s[4])
  }

  /** The filter on the bytes from position `ptr` on: decoding, or encoding when `inverse`. */
  function Filter(s: seq<byte>, ptr: nat, inverse: bool): (r: seq<byte>)
    requires ptr + |s| <= I32_MAX
    ensures |r| == |s|
    ensures |s| > 0 ==> r[0] == s[0]
  {
    if |s| < 10 then s
    else if s[0] == 0xe8 then
      var x := if inverse then Untranslate(ptr, Operand(s)) else Translate(ptr, Operand(s));
      [s[0]] + ToLe(x) + Filter(s[5..], ptr + 5, inverse)
    else [s[0]] + Filter(s[1..], ptr + 1, inverse)
  }

  /**
   BIJECTION: the filter and its inverse undo each other on buffers of every length, because
   both scans stop at the same opcodes.
   */
  lemma {:induction false} FilterInverse(s: seq<byte>, ptr: nat, inverse: bool)
    requires ptr + |s| <= I32_MAX
    ensures Filter(Filter(s, ptr, inverse), ptr, !inverse) == s
    decreases |s|
  {
    hide FromLe, ToLe, Translate, Untranslate;
    var t := Filter(s, ptr, inverse);
    if |s| >= 10 {
      if s[0] == 0xe8 {
        var x := if inverse then Untranslate(ptr, Operand(s)) else Translate(ptr, Operand(s));
        TranslateRange(ptr, Operand(s));
        TranslateBijective(ptr, Operand(s));
        LeRoundTrip(x);
        LeRoundTripBytes(s[1], s[2], s[3], s[4]);
        FilterInverse(s[5..], ptr + 5, inverse);
        assert t[5..] == Filter(s[5..], ptr + 5, inverse);
        assert Operand(t) == x;
        assert [s[0]] + [s[1], s[2], s[3], s[4]] + s[5..] == s;
      } else {
        FilterInverse(s[1..], ptr + 1, inverse);
        assert t[1..] == Filter(s[1..], ptr + 1, inverse);
        assert [s[0]] + s[1..] == s;
      }
    }
  }

  lemma TranslateRange(ptr: int, x: int)
    requires 0 <= ptr <= I32_MAX && -I32_MAX - 1 <= x <= I32_MAX
    ensures -I32_MAX - 1 <= Translate(ptr, x) <= I32_MAX
    ensures -I32_MAX - 1 <= Untranslate(ptr, x) <= I32_MAX
  {
  }

  function Decoded(s: seq<byte>, offset: nat): (r: seq<byte>)
    requires offset + |s| <= I32_MAX
    ensures |r| == |s|
  {
    if offset > MAX_E8_OFFSET then s else Filter(s, offset, false)
  }

  function Encoded(s: seq<byte>, offset: nat): (r: seq<byte>)
    requires offset + |s| <= I32_MAX
    ensures |r| == |s|
  {
    if offset > MAX_E8_OFFSET then s else Filter(s, offset, true)
  }

  /** Decoding is a bijection on buffers, with `Encoded` as its inverse. */
  lemma DecodedBijective(s: seq<byte>, offset: nat)
    requires offset + |s| <= I32_MAX
    ensures Decoded(Encoded(s, offset), offset) == s
    ensures Encoded(Decoded(s, offset), offset) == s
  {
    FilterInverse(s, offset, true);
    FilterInverse(s, offset, false);
  }

  /** The buffer the scan is heading for when it stands at `i`. */
  function Pending(s: seq<byte>, i: nat, offset: nat): seq<byte>
    requires i <= |s| && offset + |s| <= I32_MAX
  {
    s[..i] + Filter(s[i..], offset + i, false)
  }

  lemma PendingStart(s: seq<byte>, offset: nat)
    requires offset + |s| <= I32_MAX
    ensures Pending(s, 0, offset) == Filter(s, offset, false)
  {
    assert s[..0] + Filter(s[0..], offset, false) == Filter(s, offset, false) by { assert s[0..] == s; }
  }

  lemma PendingEnd(s: seq<byte>, i: nat, offset: nat)
    requires i <= |s| < i + 10 && offset + |s| <= I32_MAX
    ensures Pending(s, i, offset) == s
  {
    assert s[..i] + s[i..] == s;
  }

  lemma PendingPatch(s: seq<byte>, i: nat, offset: nat, patched: seq<byte>)
    requires i + 10 <= |s| && |patched| == |s| && offset + |s| <= I32_MAX
    requires s[i] == 0xe8
    requires patched
             == s[..i + 1] + ToLe(Translate(offset + i, FromLe(s[i + 1], s[i + 2], s[i + 3], s[i + 4]))) + s[i + 5..]
    ensures Pending(patched, i + 5, offset) == Pending(s, i, offset)
  {
    hide FromLe, ToLe, Translate;
    TranslateRange(offset + i, FromLe(s[i + 1], s[i + 2], s[i + 3], s[i + 4]));
    assert s[i..][5..] == s[i + 5..] == patched[i + 5..];
    assert s[..i] + [s[i]] == s[..i + 1];
    assert patched[..i + 5] == s[..i + 1] + ToLe(Translate(offset + i, Operand(s[i..])));
  }

  lemma PendingSkip(s: seq<byte>, i: nat, offset: nat)
    requires i + 10 <= |s| && s[i] != 0xe8 && offset + |s| <= I32_MAX
    ensures Pending(s, i + 1, offset) == Pending(s, i, offset)
  {
    assert s[i..][1..] == s[i + 1..];
    assert s[..i] + [s[i]] == s[..i + 1];
  }

  method PatchOperand(buffer: array<byte>, i: nat, offset: nat)
    requires i + 10 <= buffer.Length && buffer[i] == 0xe8 && offset + buffer.Length <= I32_MAX
    modifies buffer
    ensures Pending(buffer[..], i + 5, offset) == old(Pending(buffer[..], i, offset))
  {
    hide FromLe, ToLe, Translate, Pending;
    ghost var before := buffer[..];
    var currentPtr := offset + i;
    var absolute := FromLe(buffer[i + 1], buffer[i + 2], buffer[i + 3], buffer[i + 4]);
    TranslateRange(currentPtr, absolute);
    var relative := ToLe(Translate(currentPtr, absolute));
    CopyFromSlice(buffer, i + 1, relative);
    assert before[..i + 1] == old(buffer[..i + 1]) && before[i + 5..] == old(buffer[i + 5..]);
    PendingPatch(before, i, offset, buffer[..]);
  }

  /** `decode_e8`, in place. */
  method DecodeE8(buffer: array<byte>, offset: nat)
    requires offset + buffer.Length <= I32_MAX
    modifies buffer
    ensures buffer[..] == Decoded(old(buffer[..]), offset)
  {
    hide Pending, Filter;
    if offset > MAX_E8_OFFSET {
      return;
    }
    var i := 0;
    PendingStart(buffer[..], offset);
    while i + 10 <= buffer.Length
      invariant 0 <= i <= buffer.Length
      invariant Pending(buffer[..], i, offset) == Decoded(old(buffer[..]), offset)
    {
      if buffer[i] == 0xe8 {
        PatchOperand(buffer, i, offset);
        i := i + 5;
      } else {
        PendingSkip(buffer[..], i, offset);
        i := i + 1;
      }
    }
    PendingEnd(buffer[..], i, offset);
  }
}
