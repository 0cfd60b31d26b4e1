/** Writing and verifying the checksum field of an on-disk structure. */
module XfsChecksum {
  import opened Common
  import opened Bits
  import opened Crc32c

  function Seed(): Register {
    seq(32, _ => true)
  }

  function Not(r: Register): (n: Register)
    ensures forall i :: 0 <= i < 32 ==> n[i] == !r[i]
  {
    seq(32, i requires 0 <= i < 32 => !r[i])
  }

  /** `to_le_bytes`. */
  function LeBytes(r: Register): (b: seq<byte>)
    ensures |b| == 4
  {
    [ByteAt(r, 0), ByteAt(r, 8), ByteAt(r, 16), ByteAt(r, 24)]
  }

  function ByteAt(r: Register, i: nat): byte
    requires i <= 24
  {
    LsbOfNumber(r[i..i + 8]);
    Pow2Values();
    Number(r[i..i + 8])
  }

  /** `from_le_bytes` undoes `to_le_bytes`. */
  lemma LeRoundTrip(r: Register)
    ensures Flat(LeBytes(r)) == r
  {
    hide Lsb, Number;
    var b := LeBytes(r);
    LsbOfNumber(r[0..8]);
    LsbOfNumber(r[8..16]);
    LsbOfNumber(r[16..24]);
    LsbOfNumber(r[24..32]);
    assert b[1..] == [b[1], b[2], b[3]] && b[1..][1..] == [b[2], b[3]] && b[1..][1..][1..] == [b[3]];
    assert Flat([b[3]]) == r[24..32] + Flat([b[3]][1..]);
    assert Flat([b[2], b[3]]) == r[16..24] + Flat([b[2], b[3]][1..]);
    assert Flat([b[1], b[2], b[3]]) == r[8..16] + Flat([b[1], b[2], b[3]][1..]);
    assert r == r[0..8] + (r[8..16] + (r[16..24] + r[24..32]));
  }

  /** The checksum of a structure, its own field taken as zero. */
  function Sum(bytes: seq<byte>, off: nat): Register
    requires off + 4 <= |bytes|
  {
    Not(Crc(Crc(Crc(Seed(), bytes[..off]), [0, 0, 0, 0]), bytes[off + 4..]))
  }

  predicate Verifies(bytes: seq<byte>, off: nat) {
    off + 4 <= |bytes| && Flat(bytes[off..off + 4]) == Sum(bytes, off)
  }

  /** The structure with its checksum filled in; a structure too short for the field is left alone. */
  function Sealed(bytes: seq<byte>, off: nat): seq<byte> {
    if off + 4 <= |bytes| then bytes[..off] + LeBytes(Sum(bytes, off)) + bytes[off + 4..] else bytes
  }

  /** Writing the checksum makes it verify, exactly when the field fits, and changes only the field. */
  lemma SealedVerifies(bytes: seq<byte>, off: nat)
    ensures |Sealed(bytes, off)| == |bytes| && (Verifies(Sealed(bytes, off), off) <==> off + 4 <= |bytes|)
    ensures forall i :: 0 <= i < |bytes| && !(off <= i < off + 4) ==> Sealed(bytes, off)[i] == bytes[i]
  {
    hide Crc, Flat, LeBytes;
    if off + 4 <= |bytes| {
      var s := Sealed(bytes, off);
      assert s[..off] == bytes[..off] && s[off + 4..] == bytes[off + 4..];
      assert s[off..off + 4] == LeBytes(Sum(bytes, off));
      LeRoundTrip(Sum(bytes, off));
    }
  }

  /** Both strings agree outside a window of at most four bytes. */
  ghost predicate DifferInWindow(a: seq<byte>, b: seq<byte>, i: nat, j: nat) {
    i <= j <= |a| == |b| && j - i <= 4 && a[..i] == b[..i] && a[j..] == b[j..] && a != b
  }

  lemma NotInjective(x: Register, y: Register)
    requires Not(x) == Not(y)
    ensures x == y
  {
    hide Not;
    forall k | 0 <= k < 32 ensures x[k] == y[k] { assert Not(x)[k] == Not(y)[k]; }
  }

  lemma WindowDiffers(a: seq<byte>, b: seq<byte>, i: nat, j: nat)
    requires DifferInWindow(a, b, i, j)
    ensures a[i..j] != b[i..j]
  {
    assert a == a[..i] + a[i..j] + a[j..] && b == b[..i] + b[i..j] + b[j..];
  }

  /** A part on one side of the window, cut into what precedes it, the window, and what follows. */
  lemma PartDiffers(crc: Register, a: seq<byte>, b: seq<byte>, from: nat, i: nat, j: nat, to: nat)
    requires DifferInWindow(a, b, i, j) && from <= i && j <= to <= |a|
    ensures Crc(crc, a[from..to]) != Crc(crc, b[from..to])
  {
    hide Crc;
    WindowDiffers(a, b, i, j);
    assert a[from..i] == a[..i][from..] == b[..i][from..] == b[from..i];
    assert a[j..to] == a[j..][..to - j] == b[j..][..to - j] == b[j..to];
    assert a[from..to] == a[from..i] + a[i..j] + a[j..to];
    assert b[from..to] == b[from..i] + b[i..j] + b[j..to];
    BurstChangesCrc(crc, a[from..i], a[i..j], b[i..j], a[j..to]);
  }

  lemma SumChangesBefore(a: seq<byte>, b: seq<byte>, off: nat, i: nat, j: nat)
    requires off + 4 <= |a| && DifferInWindow(a, b, i, j) && j <= off
    ensures a[off..] == b[off..] && Sum(a, off) != Sum(b, off)
  {
    hide Crc, Not;
    assert a[off..] == a[j..][off - j..] == b[j..][off - j..] == b[off..];
    assert a[off + 4..] == a[off..][4..] == b[off..][4..] == b[off + 4..];
    PartDiffers(Seed(), a, b, 0, i, j, off);
    assert a[0..off] == a[..off] && b[0..off] == b[..off];
    SameTail(Crc(Seed(), a[..off]), Crc(Seed(), b[..off]), [0, 0, 0, 0]);
    var x, y := Crc(Crc(Seed(), a[..off]), [0, 0, 0, 0]), Crc(Crc(Seed(), b[..off]), [0, 0, 0, 0]);
    SameTail(x, y, a[off + 4..]);
    NotDiffers(Crc(x, a[off + 4..]), Crc(y, a[off + 4..]));
  }

  lemma SameTail(x: Register, y: Register, data: seq<byte>)
    requires x != y
    ensures Crc(x, data) != Crc(y, data)
  {
    hide Crc;
    if Crc(x, data) == Crc(y, data) { CrcInjective(x, y, data); }
  }

  lemma NotDiffers(x: Register, y: Register)
    requires x != y
    ensures Not(x) != Not(y)
  {
    hide Not;
    if Not(x) == Not(y) { NotInjective(x, y); }
  }

  lemma SumChangesAfter(a: seq<byte>, b: seq<byte>, off: nat, i: nat, j: nat)
    requires off + 4 <= |a| && DifferInWindow(a, b, i, j) && off + 4 <= i
    ensures a[..off + 4] == b[..off + 4] && Sum(a, off) != Sum(b, off)
  {
    hide Crc, Not;
    var c := off + 4;
    assert a[..c] == a[..i][..c] == b[..i][..c] == b[..c];
    assert a[..off] == a[..c][..off] == b[..c][..off] == b[..off];
    var r := Crc(Crc(Seed(), a[..off]), [0, 0, 0, 0]);
    PartDiffers(r, a, b, c, i, j, |a|);
    assert a[c..|a|] == a[c..] && b[c..|a|] == b[c..];
    NotDiffers(Crc(r, a[c..]), Crc(r, b[c..]));
  }

  lemma FieldChanges(a: seq<byte>, b: seq<byte>, off: nat, i: nat, j: nat)
    requires off + 4 <= |a| && DifferInWindow(a, b, i, j) && off <= i && j <= off + 4
    ensures Sum(a, off) == Sum(b, off) && Flat(a[off..off + 4]) != Flat(b[off..off + 4])
  {
    hide Crc, Not, Flat;
    var c := off + 4;
    assert a[..off] == a[..i][..off] && b[..off] == b[..i][..off];
    assert a[c..] == a[j..][c - j..] && b[c..] == b[j..][c - j..];
    assert a == a[..off] + a[off..c] + a[c..] && b == b[..off] + b[off..c] + b[c..];
    if Flat(a[off..c]) == Flat(b[off..c]) { FlatInjective(a[off..c], b[off..c]); }
  }

  /**
   * A structure that verifies stops verifying after any change confined to four consecutive bytes,
   * if these lie before the field, after it, or inside it.
   */
  lemma BurstDetected(a: seq<byte>, b: seq<byte>, off: nat, i: nat, j: nat)
    requires Verifies(a, off) && DifferInWindow(a, b, i, j)
    requires j <= off || off + 4 <= i || (off <= i && j <= off + 4)
    ensures !Verifies(b, off)
  {
    hide Crc, Not, Sum, Flat;
    if j <= off {
      SumChangesBefore(a, b, off, i, j);
      assert a[off..off + 4] == a[off..][..4] && b[off..off + 4] == b[off..][..4];
    } else if off + 4 <= i {
      SumChangesAfter(a, b, off, i, j);
      assert a[off..off + 4] == a[..off + 4][off..] && b[off..off + 4] == b[..off + 4][off..];
    } else {
      FieldChanges(a, b, off, i, j);
    }
  }

  // ----- exactly which changes go unnoticed -----------------------------------------------------------

  function XorByte(a: byte, b: byte): (c: byte)
    ensures Lsb(c, 8) == Xor(Lsb(a, 8), Lsb(b, 8))
  {
    var x := Xor(Lsb(a, 8), Lsb(b, 8));
    LsbOfNumber(x);
    Pow2Values();
    Number(x)
  }

  function XorBytes(a: seq<byte>, b: seq<byte>): (c: seq<byte>)
    requires |a| == |b|
    ensures |c| == |a| && forall i :: 0 <= i < |c| ==> c[i] == XorByte(a[i], b[i])
  {
    seq(|a|, i requires 0 <= i < |a| => XorByte(a[i], b[i]))
  }

  lemma UpdateLinear(x: Register, y: Register, a: byte, b: byte)
    ensures Update(Xor(x, y), XorByte(a, b)) == Xor(Update(x, a), Update(y, b))
  {
    hide Steps, Lsb, Xor, XorByte, Clear;
    var u: Register, v: Register := Lsb(a, 8) + Clear(24), Lsb(b, 8) + Clear(24);
    assert Lsb(XorByte(a, b), 8) + Clear(24) == Xor(u, v);
    assert Xor(Xor(x, y), Xor(u, v)) == Xor(Xor(x, u), Xor(y, v));
    StepsLinear(Xor(x, u), Xor(y, v), 8);
  }

  /** The checksum of a difference is the difference of the checksums. */
  lemma {:induction false} CrcLinear(x: Register, y: Register, a: seq<byte>, b: seq<byte>)
    requires |a| == |b|
    ensures Crc(Xor(x, y), XorBytes(a, b)) == Xor(Crc(x, a), Crc(y, b))
    decreases |a|
  {
    hide Update, Xor, XorByte;
    if a != [] {
      UpdateLinear(x, y, a[0], b[0]);
      CrcLinear(Update(x, a[0]), Update(y, b[0]), a[1..], b[1..]);
      assert XorBytes(a, b)[1..] == XorBytes(a[1..], b[1..]);
    }
  }

  /** What was changed, with the field taken as unchanged. */
  function Change(a: seq<byte>, b: seq<byte>, off: nat): seq<byte>
    requires off + 4 <= |a| == |b|
  {
    XorBytes(a[..off], b[..off]) + [0, 0, 0, 0] + XorBytes(a[off + 4..], b[off + 4..])
  }

  lemma XorSelf(x: Register, y: Register)
    ensures Xor(x, x) == Clear(32) && Xor(Not(x), Not(y)) == Xor(x, y) && Xor(x, Clear(32)) == x
  {
    hide Xor, Not, Clear;
  }

  lemma XorZeroBytes()
    ensures XorByte(0, 0) == 0
  {
    hide Lsb, Xor, Clear, XorByte, Pow2;
    ZeroLsb(8);
    assert Xor(Lsb(0, 8), Lsb(0, 8)) == Lsb(0, 8);
    Pow2Values();
    NumberOfLsb(0, 8);
    NumberOfLsb(XorByte(0, 0), 8);
  }

  lemma {:induction false} ZeroLsb(n: nat)
    ensures Lsb(0, n) == Clear(n)
  {
    if n > 0 { ZeroLsb(n - 1); }
  }

  lemma SumOfChange(a: seq<byte>, b: seq<byte>, off: nat)
    requires off + 4 <= |a| == |b|
    ensures Xor(Sum(a, off), Sum(b, off)) == Crc(Clear(32), Change(a, b, off))
  {
    hide Crc, Xor, Not, XorBytes, Clear;
    var z: seq<byte> := [0, 0, 0, 0];
    var x1, y1 := Crc(Seed(), a[..off]), Crc(Seed(), b[..off]);
    var x2, y2 := Crc(x1, z), Crc(y1, z);
    var x3, y3 := Crc(x2, a[off + 4..]), Crc(y2, b[off + 4..]);
    XorSelf(Seed(), Seed());
    XorSelf(x3, y3);
    CrcLinear(Seed(), Seed(), a[..off], b[..off]);
    CrcLinear(x1, y1, z, z);
    ZeroChange();
    CrcLinear(x2, y2, a[off + 4..], b[off + 4..]);
    CrcAppend(Clear(32), XorBytes(a[..off], b[..off]) + z, XorBytes(a[off + 4..], b[off + 4..]));
    CrcAppend(Clear(32), XorBytes(a[..off], b[..off]), z);
  }

  lemma ZeroChange()
    ensures XorBytes([0, 0, 0, 0], [0, 0, 0, 0]) == [0, 0, 0, 0]
  {
    hide XorByte;
    XorZeroBytes();
  }

  /**
   * EXACTLY: a changed structure still verifies iff the change of its field is the checksum, from a zero
   * register, of the change of everything else.
   */
  lemma UndetectedIff(a: seq<byte>, b: seq<byte>, off: nat)
    requires Verifies(a, off) && |a| == |b|
    ensures Verifies(b, off)
            <==> Xor(Flat(a[off..off + 4]), Flat(b[off..off + 4])) == Crc(Clear(32), Change(a, b, off))
  {
    hide Crc, Xor, Not, Flat, Change, Sum;
    SumOfChange(a, b, off);
    var f, g, s, t := Flat(a[off..off + 4]), Flat(b[off..off + 4]), Sum(a, off), Sum(b, off);
    if Xor(f, g) == Xor(s, t) { XorInjective(f, g, t); }
  }

  // ----- the loops ------------------------------------------------------------------------------------

  /** `crc32c`. */
  method ComputeCrc(start: Register, data: seq<byte>) returns (crc: Register)
    ensures crc == Crc(start, data)
  {
    hide Polynomial, Lsb, Crc, Steps, Step, Xor, MaskedStep;
    crc := start;
    CrcNil(start);
    for k := 0 to |data|
      invariant crc == Crc(start, data[..k])
    {
      ghost var before := crc;
      crc := Xor(crc, Lsb(data[k], 8) + Clear(24));
      ghost var mixed := crc;
      var i: nat := 0;
      while i < 8
        invariant i <= 8 && Steps(crc, 8 - i) == Steps(mixed, 8)
      {
        StepsUnfold(crc, 8 - i);
        crc := MaskedStep(crc);
        i := i + 1;
      }
      NoSteps(crc);
      CrcOne(before, data[k]);
      CrcAppend(start, data[..k], [data[k]]);
      assert data[..k] + [data[k]] == data[..k + 1];
    }
    assert data[..|data|] == data;
  }

  /** The branch-free form: the polynomial masked by the low bit. */
  function MaskedStep(crc: Register): (r: Register)
    ensures r == Step(crc)
  {
    var mask: Register := seq(32, _ => crc[0]);
    var r := Xor(crc[1..] + [false], seq(32, j requires 0 <= j < 32 => Polynomial()[j] && mask[j]));
    assert r == Step(crc);
    r
  }

  lemma StepsUnfold(crc: Register, n: nat)
    requires n > 0
    ensures Steps(crc, n) == Steps(Step(crc), n - 1)
  {
  }

  lemma CrcNil(r: Register)
    ensures Crc(r, []) == r
  {
  }

  lemma CrcOne(r: Register, b: byte)
    ensures Crc(r, [b]) == Update(r, b)
  {
    hide Update;
    assert [b][1..] == [];
  }

  /** `verify_xfs_crc`. */
  method VerifyXfsCrc(bytes: seq<byte>, off: nat) returns (ok: bool)
    ensures ok <==> Verifies(bytes, off)
  {
    hide Crc, Flat;
    if |bytes| < off + 4 {
      return false;
    }
    var crc := ComputeCrc(Seed(), bytes[..off]);
    crc := ComputeCrc(crc, [0, 0, 0, 0]);
    crc := ComputeCrc(crc, bytes[off + 4..]);
    var expected := Not(crc);
    return expected == Flat(bytes[off..off + 4]);
  }

  /** `write_xfs_crc`. */
  method WriteXfsCrc(bytes: array<byte>, off: nat)
    modifies bytes
    ensures bytes[..] == Sealed(old(bytes[..]), off)
  {
    hide Crc, Flat, LeBytes, Not;
    if bytes.Length < off + 4 {
      return;
    }
    ghost var was := bytes[..];
    CopyFromSlice(bytes, off, [0, 0, 0, 0]);
    assert bytes[..off] == was[..off] && bytes[off + 4..] == was[off + 4..];
    var crc := ComputeCrc(Seed(), bytes[..off]);
    crc := ComputeCrc(crc, [0, 0, 0, 0]);
    crc := ComputeCrc(crc, bytes[off + 4..]);
    CopyFromSlice(bytes, off, LeBytes(Not(crc)));
  }
}
