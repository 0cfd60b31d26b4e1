/** A change the checksum does not see: it straddles the end of the field. */
module ChecksumGap {
  import opened Common
  import opened Bits
  import opened Crc32c
  import opened XfsChecksum

  const POLYNOMIAL: nat := 0x82f6_3b78

  // ----- the register as a number --------------------------------------------------------------------

  function XorBit(a: nat, b: nat): nat {
    if a % 2 != b % 2 then 1 else 0
  }

  /** The exclusive or of the low n bits of two numbers. */
  function XorNumber(a: nat, b: nat, n: nat): nat {
    if n == 0 then 0 else XorBit(a, b) + 2 * XorNumber(a / 2, b / 2, n - 1)
  }

  lemma {:induction false} XorIsXor(a: nat, b: nat, n: nat)
    ensures Xor(Lsb(a, n), Lsb(b, n)) == Lsb(XorNumber(a, b, n), n)
  {
    hide Xor;
    if n > 0 {
      XorIsXor(a / 2, b / 2, n - 1);
      var x, y, z := Lsb(a, n), Lsb(b, n), XorNumber(a, b, n);
      assert z / 2 == XorNumber(a / 2, b / 2, n - 1);
      assert Xor(x, y) == [x[0] != y[0]] + Xor(x[1..], y[1..]);
    }
  }

  lemma XorFour(a: nat, b: nat, n: nat)
    requires n >= 4
    ensures XorNumber(a, b, n) == XorBit(a, b) + 2 * XorBit(a / 2, b / 2) + 4 * XorBit(a / 4, b / 4)
                                  + 8 * XorBit(a / 8, b / 8) + 16 * XorNumber(a / 16, b / 16, n - 4)
  {
    hide XorNumber;
    XorFirst(a, b, n);
    XorFirst(a / 2, b / 2, n - 1);
    XorFirst(a / 4, b / 4, n - 2);
    XorFirst(a / 8, b / 8, n - 3);
    assert a / 2 / 2 == a / 4 && a / 4 / 2 == a / 8 && a / 8 / 2 == a / 16;
    assert b / 2 / 2 == b / 4 && b / 4 / 2 == b / 8 && b / 8 / 2 == b / 16;
  }

  lemma XorFirst(a: nat, b: nat, n: nat)
    requires n > 0
    ensures XorNumber(a, b, n) == XorBit(a, b) + 2 * XorNumber(a / 2, b / 2, n - 1)
  {
  }

  lemma XorNone(a: nat, b: nat)
    ensures XorNumber(a, b, 0) == 0
  {
  }

  /** A number of fewer bits has zeros above them. */
  lemma {:induction false} LsbShort(v: nat, n: nat)
    requires v < Pow2(n)
    ensures Lsb(v, n + 1) == Lsb(v, n) + [false]
  {
    if n > 0 { LsbShort(v / 2, n - 1); }
  }

  function NextNumber(v: nat): nat {
    if v % 2 == 1 then XorNumber(v / 2, POLYNOMIAL, 32) else v / 2
  }

  lemma StepNumber(v: nat)
    requires v < 0x1_0000_0000
    ensures Step(Lsb(v, 32)) == Lsb(NextNumber(v), 32)
  {
    hide Lsb, Xor, XorNumber, Pow2;
    LsbParts(v);
    assert Pow2(31) == 0x8000_0000 by { HalfRange(); }
    LsbShort(v / 2, 31);
    XorIsXor(v / 2, POLYNOMIAL, 32);
  }

  lemma LsbParts(v: nat)
    ensures Lsb(v, 32) == [v % 2 == 1] + Lsb(v / 2, 31)
  {
  }

  lemma HalfRange()
    ensures Pow2(31) == 0x8000_0000
  {
    Pow2Values();
    assert Pow2(21) == 0x20_0000;
    assert Pow2(26) == 0x400_0000;
  }

  // ----- the eight steps of one byte ------------------------------------------------------------------

  lemma XorAtStep0()
    ensures XorNumber(0x2e, POLYNOMIAL, 32) == 0x82f6_3b56
  {
    hide XorNumber;
    XorFour(0x2e, 0x82f6_3b78, 32);
    XorFour(0x2, 0x82f_63b7, 28);
    XorFour(0, 0x82_f63b, 24);
    XorFour(0, 0x8_2f63, 20);
    XorFour(0, 0x82f6, 16);
    XorFour(0, 0x82f, 12);
    XorFour(0, 0x82, 8);
    XorFour(0, 0x8, 4);
    XorNone(0, 0);
  }

  lemma XorAtStep2()
    ensures XorNumber(0x20bd_8ed5, POLYNOMIAL, 32) == 0xa24b_b5ad
  {
    hide XorNumber;
    XorFour(0x20bd_8ed5, 0x82f6_3b78, 32);
    XorFour(0x20b_d8ed, 0x82f_63b7, 28);
    XorFour(0x20_bd8e, 0x82_f63b, 24);
    XorFour(0x2_0bd8, 0x8_2f63, 20);
    XorFour(0x20bd, 0x82f6, 16);
    XorFour(0x20b, 0x82f, 12);
    XorFour(0x20, 0x82, 8);
    XorFour(0x2, 0x8, 4);
    XorNone(0, 0);
  }

  lemma XorAtStep3()
    ensures XorNumber(0x5125_dad6, POLYNOMIAL, 32) == 0xd3d3_e1ae
  {
    hide XorNumber;
    XorFour(0x5125_dad6, 0x82f6_3b78, 32);
    XorFour(0x512_5dad, 0x82f_63b7, 28);
    XorFour(0x51_25da, 0x82_f63b, 24);
    XorFour(0x5_125d, 0x8_2f63, 20);
    XorFour(0x5125, 0x82f6, 16);
    XorFour(0x512, 0x82f, 12);
    XorFour(0x51, 0x82, 8);
    XorFour(0x5, 0x8, 4);
    XorNone(0, 0);
  }

  lemma XorAtStep5()
    ensures XorNumber(0x34f4_f86b, POLYNOMIAL, 32) == 0xb602_c313
  {
    hide XorNumber;
    XorFour(0x34f4_f86b, 0x82f6_3b78, 32);
    XorFour(0x34f_4f86, 0x82f_63b7, 28);
    XorFour(0x34_f4f8, 0x82_f63b, 24);
    XorFour(0x3_4f4f, 0x8_2f63, 20);
    XorFour(0x34f4, 0x82f6, 16);
    XorFour(0x34f, 0x82f, 12);
    XorFour(0x34, 0x82, 8);
    XorFour(0x3, 0x8, 4);
    XorNone(0, 0);
  }

  lemma XorAtStep6()
    ensures XorNumber(0x5b01_6189, POLYNOMIAL, 32) == 0xd9f7_5af1
  {
    hide XorNumber;
    XorFour(0x5b01_6189, 0x82f6_3b78, 32);
    XorFour(0x5b0_1618, 0x82f_63b7, 28);
    XorFour(0x5b_0161, 0x82_f63b, 24);
    XorFour(0x5_b016, 0x8_2f63, 20);
    XorFour(0x5b01, 0x82f6, 16);
    XorFour(0x5b0, 0x82f, 12);
    XorFour(0x5b, 0x82, 8);
    XorFour(0x5, 0x8, 4);
    XorNone(0, 0);
  }

  lemma XorAtStep7()
    ensures XorNumber(0x6cfb_ad78, POLYNOMIAL, 32) == 0xee0d_9600
  {
    hide XorNumber;
    XorFour(0x6cfb_ad78, 0x82f6_3b78, 32);
    XorFour(0x6cf_bad7, 0x82f_63b7, 28);
    XorFour(0x6c_fbad, 0x82_f63b, 24);
    XorFour(0x6_cfba, 0x8_2f63, 20);
    XorFour(0x6cfb, 0x82f6, 16);
    XorFour(0x6cf, 0x82f, 12);
    XorFour(0x6c, 0x82, 8);
    XorFour(0x6, 0x8, 4);
    XorNone(0, 0);
  }

  /** The register after the byte 0x5d, from zero: its low byte is zero. */
  lemma ByteOfGap()
    ensures Steps(Lsb(0x5d, 32), 8) == Lsb(0xee0d_9600, 32)
  {
    hide Lsb, XorNumber, Step, Steps;
    StepsFrom(Lsb(0x5d, 32), 8);
    XorAtStep0();
    StepNumber(0x5d);
    StepsFrom(Lsb(0x82f6_3b56, 32), 7);
    StepNumber(0x82f6_3b56);
    StepsFrom(Lsb(0x417b_1dab, 32), 6);
    XorAtStep2();
    StepNumber(0x417b_1dab);
    StepsFrom(Lsb(0xa24b_b5ad, 32), 5);
    XorAtStep3();
    StepNumber(0xa24b_b5ad);
    StepsFrom(Lsb(0xd3d3_e1ae, 32), 4);
    StepNumber(0xd3d3_e1ae);
    StepsFrom(Lsb(0x69e9_f0d7, 32), 3);
    XorAtStep5();
    StepNumber(0x69e9_f0d7);
    StepsFrom(Lsb(0xb602_c313, 32), 2);
    XorAtStep6();
    StepNumber(0xb602_c313);
    StepsFrom(Lsb(0xd9f7_5af1, 32), 1);
    XorAtStep7();
    StepNumber(0xd9f7_5af1);
    NoSteps(Lsb(0xee0d_9600, 32));
  }

  lemma StepsFrom(r: Register, n: nat)
    requires n > 0
    ensures Steps(r, n) == Steps(Step(r), n - 1)
  {
  }

  // ----- the change -----------------------------------------------------------------------------------

  lemma JoinParts(a: nat, x: nat)
    ensures (a + 2 * x) / 2 == a / 2 + x && (a + 2 * x) % 2 == a % 2
  {
  }

  lemma {:induction false} LsbJoin(a: nat, m: nat, q: nat, n: nat)
    requires a < Pow2(m)
    ensures Lsb(a + Shl(q, m), m + n) == Lsb(a, m) + Lsb(q, n)
    decreases m
  {
    if m > 0 {
      assert Pow2(m) == 2 * Pow2(m - 1) && Shl(q, m) == 2 * Shl(q, m - 1);
      LsbJoin(a / 2, m - 1, q, n);
      JoinParts(a, Shl(q, m - 1));
    } else {
      assert Lsb(a, 0) + Lsb(q, n) == Lsb(q, n);
    }
  }

  lemma LsbByte(a: byte, q: nat, n: nat)
    ensures Lsb(a + 256 * q, 8 + n) == Lsb(a, 8) + Lsb(q, n)
  {
    hide Lsb, Pow2, Shl;
    Pow2Values();
    LsbJoin(a, 8, q, n);
    EightTimes(q);
  }

  lemma EightTimes(q: nat)
    ensures Shl(q, 8) == 256 * q
  {
    hide Shl;
    ShlByTwo(q, 0);
    ShlByTwo(q, 2);
    ShlByTwo(q, 4);
    ShlByTwo(q, 6);
    ShlByNone(q);
  }

  lemma ShlByTwo(q: nat, k: nat)
    ensures Shl(q, k + 2) == 4 * Shl(q, k)
  {
    assert Shl(q, k + 1) == 2 * Shl(q, k);
  }

  lemma ShlByNone(q: nat)
    ensures Shl(q, 0) == q
  {
  }

  const GAP: seq<byte> := [0, 0x96, 0x0d, 0xee]

  lemma GapBits()
    ensures Lsb(0xee0d_9600, 32) == Flat(GAP)
  {
    hide Lsb;
    LsbByte(0, 0xee_0d96, 24);
    LsbByte(0x96, 0xee0d, 16);
    LsbByte(0x0d, 0xee, 8);
    assert GAP[1..] == [0x96, 0x0d, 0xee] && GAP[1..][1..] == [0x0d, 0xee] && GAP[1..][1..][1..] == [0xee];
    assert Flat([0xee]) == Lsb(0xee, 8) + Flat([0xee][1..]);
  }

  lemma {:induction false} CrcOfZeros(data: seq<byte>)
    requires forall i :: 0 <= i < |data| ==> data[i] == 0
    ensures Crc(Clear(32), data) == Clear(32)
  {
    hide Steps, Xor, Lsb, Clear;
    if data != [] {
      ZeroLsb(8);
      assert Lsb(0, 8) + Clear(24) == Clear(32);
      XorSelf(Clear(32), Clear(32));
      assert Clear(32) + Clear(0) == Clear(32);
      StepsShift(Clear(24), 8);
      assert Clear(8) + Clear(24) == Clear(32) && Clear(24) + Clear(8) == Clear(32);
      CrcOfZeros(data[1..]);
    }
  }

  lemma CrcOfByte()
    ensures Crc(Clear(32), [0x5d]) == Flat(GAP)
  {
    hide Steps, Xor, Lsb, Clear, Update, Flat;
    CrcOne(Clear(32), 0x5d);
    ByteOfGap();
    GapBits();
    assert Update(Clear(32), 0x5d) == Steps(Lsb(0x5d, 32), 8) by { FirstByte(); }
  }

  lemma FirstByte()
    ensures Update(Clear(32), 0x5d) == Steps(Lsb(0x5d, 32), 8)
  {
    hide Steps, Xor, Lsb, Clear;
    LsbByte(0x5d, 0, 24);
    ZeroLsb(24);
    XorSelf(Lsb(0x5d, 32), Clear(32));
    var r: Register := Lsb(0x5d, 8) + Clear(24);
    assert Xor(Clear(32), r) == r;
  }

  /** The change: the last three bytes of the field, and the byte after it. */
  function Changed(a: seq<byte>, off: nat): (b: seq<byte>)
    requires off + 5 == |a|
    ensures |b| == |a|
  {
    a[..off] + XorBytes(a[off..off + 4], GAP) + XorBytes(a[off + 4..], [0x5d])
  }

  lemma XorBack(a: byte, d: byte)
    ensures XorByte(a, XorByte(a, d)) == d && XorByte(a, a) == 0 && (XorByte(a, d) == a <==> d == 0)
  {
    hide Lsb, Xor, Pow2, XorByte;
    Pow2Values();
    var x, y := Lsb(a, 8), Lsb(d, 8);
    ZeroLsb(8);
    assert Xor(x, Xor(x, y)) == y && Xor(x, x) == Lsb(0, 8) && Xor(x, Lsb(0, 8)) == x;
    NumberOfLsb(a, 8);
    NumberOfLsb(d, 8);
    NumberOfLsb(0, 8);
    NumberOfLsb(XorByte(a, d), 8);
    NumberOfLsb(XorByte(a, XorByte(a, d)), 8);
    NumberOfLsb(XorByte(a, a), 8);
  }

  lemma XorBytesBack(a: seq<byte>, d: seq<byte>)
    requires |a| == |d|
    ensures XorBytes(a, XorBytes(a, d)) == d
  {
    hide XorByte;
    forall i | 0 <= i < |a| ensures XorByte(a[i], XorByte(a[i], d[i])) == d[i] { XorBack(a[i], d[i]); }
  }

  lemma {:induction false} FlatXor(a: seq<byte>, b: seq<byte>)
    requires |a| == |b|
    ensures Flat(XorBytes(a, b)) == Xor(Flat(a), Flat(b))
    decreases |a|
  {
    hide Lsb, Xor, XorByte;
    if a != [] {
      FlatXor(a[1..], b[1..]);
      assert XorBytes(a, b)[1..] == XorBytes(a[1..], b[1..]);
      assert Xor(Flat(a), Flat(b)) == Xor(Lsb(a[0], 8), Lsb(b[0], 8)) + Xor(Flat(a[1..]), Flat(b[1..]));
    } else {
      assert Xor(Flat(a), Flat(b)) == [];
    }
  }

  lemma ChangedParts(a: seq<byte>, off: nat)
    requires off + 5 == |a|
    ensures var b := Changed(a, off);
            && b[..off] == a[..off] && b[off..off + 4] == XorBytes(a[off..off + 4], GAP)
            && b[off + 4..] == XorBytes(a[off + 4..], [0x5d])
  {
    hide XorBytes;
  }

  lemma NoChange(a: seq<byte>)
    ensures forall i :: 0 <= i < |a| ==> XorBytes(a, a)[i] == 0
  {
    hide XorByte;
    forall i | 0 <= i < |a| ensures XorBytes(a, a)[i] == 0 { XorBack(a[i], 0); }
  }

  lemma RestChange(a: seq<byte>, off: nat)
    requires off + 5 == |a|
    ensures Crc(Clear(32), Change(a, Changed(a, off), off)) == Flat(GAP)
  {
    hide Crc, Flat, Clear, XorByte, XorBytes, Changed;
    ChangedParts(a, off);
    NoChange(a[..off]);
    XorBytesBack(a[off + 4..], [0x5d]);
    var zeros := XorBytes(a[..off], a[..off]) + [0, 0, 0, 0];
    CrcAppend(Clear(32), zeros, [0x5d]);
    CrcOfZeros(zeros);
    CrcOfByte();
  }

  /**
   * WITNESS: in a structure whose field is followed by one byte, a change of four consecutive bytes, the last
   * three of the field and the byte after it, goes unnoticed.
   */
  lemma StraddlingChangeUndetected(a: seq<byte>, off: nat)
    requires Verifies(a, off) && |a| == off + 5
    ensures DifferInWindow(a, Changed(a, off), off + 1, off + 5) && Verifies(Changed(a, off), off)
  {
    hide Crc, Flat, Clear, XorByte, XorBytes, Sum, Changed, Change;
    var b := Changed(a, off);
    ChangedParts(a, off);
    RestChange(a, off);
    XorBytesBack(a[off..off + 4], GAP);
    FlatXor(a[off..off + 4], b[off..off + 4]);
    UndetectedIff(a, b, off);
    Straddles(a, off);
  }

  lemma Straddles(a: seq<byte>, off: nat)
    requires |a| == off + 5
    ensures DifferInWindow(a, Changed(a, off), off + 1, off + 5)
  {
    hide XorByte;
    var b := Changed(a, off);
    XorBack(a[off], 0);
    XorBack(a[off + 4], 0x5d);
    assert b[off] == a[off] && b[off + 4] != a[off + 4];
  }
}
