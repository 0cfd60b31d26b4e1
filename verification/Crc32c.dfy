/**
 * The CRC32C checksum of on-disk structures, and what it detects. A `u32` is the sequence of its
 * 32 bits, lowest first, so that `>> 1` drops the first bit and `^` works bit by bit.
 */
module Crc32c {
  import opened Common
  import opened Bits

  type Register = r: seq<bool> | |r| == 32 witness seq(32, _ => false)

  function Clear(n: nat): (z: seq<bool>)
    ensures |z| == n && forall i :: 0 <= i < n ==> !z[i]
  {
    seq(n, _ => false)
  }

  /** The low n bits of a number, lowest first. */
  function Lsb(v: nat, n: nat): (r: seq<bool>)
    ensures |r| == n
  {
    if n == 0 then [] else [v % 2 == 1] + Lsb(v / 2, n - 1)
  }

  function Number(bits: seq<bool>): nat {
    if bits == [] then 0 else (if bits[0] then 1 else 0) + 2 * Number(bits[1..])
  }

  function Xor(x: seq<bool>, y: seq<bool>): (z: seq<bool>)
    requires |x| == |y|
    ensures |z| == |x| && forall i :: 0 <= i < |z| ==> z[i] == (x[i] != y[i])
  {
    seq(|x|, i requires 0 <= i < |x| => x[i] != y[i])
  }

  function Polynomial(): Register {
    Lsb(0x82f6_3b78, 32)
  }

  /** One bit of the division: shift, and subtract the polynomial if a one fell off. */
  function Step(crc: Register): Register {
    var shifted := crc[1..] + [false];
    if crc[0] then Xor(shifted, Polynomial()) else shifted
  }

  function Steps(crc: Register, n: nat): Register
    decreases n
  {
    if n == 0 then crc else Steps(Step(crc), n - 1)
  }

  /** The register after one more byte. */
  function Update(crc: Register, b: byte): Register {
    Steps(Xor(crc, Lsb(b, 8) + Clear(24)), 8)
  }

  function Crc(crc: Register, data: seq<byte>): Register
    decreases |data|
  {
    if data == [] then crc else Crc(Update(crc, data[0]), data[1..])
  }

  // ----- numbers and bits --------------------------------------------------------------------------

  lemma {:induction false} NumberOfLsb(v: nat, n: nat)
    requires v < Pow2(n)
    ensures Number(Lsb(v, n)) == v
  {
    if n > 0 { NumberOfLsb(v / 2, n - 1); }
  }

  lemma {:induction false} LsbOfNumber(bits: seq<bool>)
    ensures Number(bits) < Pow2(|bits|) && Lsb(Number(bits), |bits|) == bits
  {
    if bits != [] { LsbOfNumber(bits[1..]); }
  }

  lemma {:induction false} TopBit(v: nat, n: nat)
    requires n > 0 && Pow2(n - 1) <= v < Pow2(n)
    ensures Lsb(v, n)[n - 1]
  {
    if n > 1 { TopBit(v / 2, n - 1); }
  }

  lemma PolynomialTop()
    ensures Polynomial()[31]
  {
    Pow2Values();
    assert Pow2(31) == 0x8000_0000;
    assert Pow2(32) == 0x1_0000_0000;
    TopBit(0x82f6_3b78, 32);
  }

  // ----- the polynomial ----------------------------------------------------------------------------

  /** The low n bits of v, lowest first, appended to the binary digits of acc. */
  function Reversed(v: nat, n: nat, acc: nat): nat {
    if n == 0 then acc else Reversed(v / 2, n - 1, 2 * acc + v % 2)
  }

  lemma {:induction false} ReversedIs(v: nat, n: nat, b: seq<bool>)
    ensures Value(b + Lsb(v, n)) == Reversed(v, n, Value(b))
    decreases n
  {
    if n == 0 {
      assert b + Lsb(v, n) == b;
    } else {
      var c := b + [v % 2 == 1];
      assert c[..|b|] == b;
      assert b + Lsb(v, n) == c + Lsb(v / 2, n - 1);
      ReversedIs(v / 2, n - 1, c);
    }
  }

  lemma ReversedFour(v: nat, n: nat, acc: nat)
    requires n >= 4
    ensures Reversed(v, n, acc)
            == Reversed(v / 16, n - 4, 16 * acc + 8 * (v % 2) + 4 * (v / 2 % 2) + 2 * (v / 4 % 2) + v / 8 % 2)
  {
    assert Reversed(v, n, acc) == Reversed(v / 2, n - 1, 2 * acc + v % 2);
    assert Reversed(v, n, acc) == Reversed(v / 4, n - 2, 4 * acc + 2 * (v % 2) + v / 2 % 2);
    assert Reversed(v, n, acc) == Reversed(v / 8, n - 3, 8 * acc + 4 * (v % 2) + 2 * (v / 2 % 2) + v / 4 % 2);
  }

  lemma ReversedPolynomial()
    ensures Reversed(0x82f6_3b78, 32, 0) == 0x1EDC_6F41
  {
    hide Reversed;
    ReversedFour(0x82f6_3b78, 32, 0);
    ReversedFour(0x82f6_3b7, 28, 0x1);
    ReversedFour(0x82f6_3b, 24, 0x1E);
    ReversedFour(0x82f6_3, 20, 0x1ED);
    ReversedFour(0x82f6, 16, 0x1EDC);
    ReversedFour(0x82f, 12, 0x1_EDC6);
    ReversedFour(0x82, 8, 0x1E_DC6F);
    ReversedFour(0x8, 4, 0x1ED_C6F4);
    ReversedNone(0, 0x1EDC_6F41);
  }

  lemma ReversedNone(v: nat, acc: nat)
    ensures Reversed(v, 0, acc) == acc
  {
  }

  /** Read from its highest power down, the register constant is the polynomial 0x1EDC6F41 of the standard. */
  lemma PolynomialIsCastagnoli()
    ensures Value(Polynomial()) == 0x1EDC_6F41
  {
    hide Lsb, Reversed, Value;
    ReversedIs(0x82f6_3b78, 32, []);
    assert [] + Polynomial() == Polynomial();
    ReversedPolynomial();
    ValueNone();
  }

  lemma ValueNone()
    ensures Value([]) == 0
  {
  }

  // ----- the step is linear and invertible ---------------------------------------------------------

  lemma StepLinear(x: Register, y: Register)
    ensures Step(Xor(x, y)) == Xor(Step(x), Step(y))
  {
    hide Polynomial, Xor;
  }

  lemma StepInjective(x: Register, y: Register)
    requires Step(x) == Step(y)
    ensures x == y
  {
    hide Polynomial, Xor;
    PolynomialTop();
    assert Step(x)[31] == x[0] && Step(y)[31] == y[0];
    forall i | 1 <= i < 32 ensures x[i] == y[i] {
      assert Step(x)[i - 1] == Step(y)[i - 1];
    }
  }

  lemma {:induction false} StepsLinear(x: Register, y: Register, n: nat)
    ensures Steps(Xor(x, y), n) == Xor(Steps(x, n), Steps(y, n))
    decreases n
  {
    hide Step, Xor;
    if n > 0 {
      StepLinear(x, y);
      StepsLinear(Step(x), Step(y), n - 1);
    }
  }

  lemma {:induction false} StepsInjective(x: Register, y: Register, n: nat)
    requires Steps(x, n) == Steps(y, n)
    ensures x == y
    decreases n
  {
    hide Step, Xor;
    if n > 0 {
      StepsInjective(Step(x), Step(y), n - 1);
      StepInjective(x, y);
    }
  }

  lemma {:induction false} ShiftBy(r: seq<bool>, k: nat, j: nat)
    requires |r| + k == 32 && j <= k
    ensures Steps(Clear(j) + r + Clear(k - j), j) == r + Clear(k)
    decreases j
  {
    hide Polynomial, Xor, Clear;
    var x: Register := Clear(j) + r + Clear(k - j);
    if j > 0 {
      assert Step(x) == Clear(j - 1) + r + Clear(k - (j - 1));
      ShiftBy(r, k, j - 1);
    } else {
      assert x == r + Clear(k);
    }
  }

  /** Zero bits only shift out. */
  lemma StepsShift(r: seq<bool>, k: nat)
    requires |r| + k == 32
    ensures Steps(Clear(k) + r, k) == r + Clear(k)
  {
    hide Steps;
    assert Clear(k) + r + Clear(0) == Clear(k) + r;
    ShiftBy(r, k, k);
  }

  lemma {:induction false} StepsAdd(x: Register, m: nat, n: nat)
    ensures Steps(Steps(x, m), n) == Steps(x, m + n)
    decreases m
  {
    hide Step;
    if m > 0 { StepsAdd(Step(x), m - 1, n); }
  }

  // ----- up to four bytes determine the register ------------------------------------------------------

  /** The bits of a byte string, in the order the register takes them. */
  function Flat(data: seq<byte>): (r: seq<bool>)
    ensures |r| == 8 * |data|
  {
    if data == [] then [] else Lsb(data[0], 8) + Flat(data[1..])
  }

  lemma {:induction false} FlatInjective(a: seq<byte>, b: seq<byte>)
    requires |a| == |b| && Flat(a) == Flat(b)
    ensures a == b
  {
    hide Lsb;
    if a != [] {
      assert Flat(a)[..8] == Lsb(a[0], 8) && Flat(b)[..8] == Lsb(b[0], 8);
      assert Flat(a)[8..] == Flat(a[1..]) && Flat(b)[8..] == Flat(b[1..]);
      FlatInjective(a[1..], b[1..]);
      Pow2Values();
      NumberOfLsb(a[0], 8);
      NumberOfLsb(b[0], 8);
      assert a == [a[0]] + a[1..] && b == [b[0]] + b[1..];
    }
  }

  /** A window no wider than the register: the whole window is one xor, then so many steps. */
  lemma {:induction false} Window(crc: Register, w: seq<byte>)
    requires |w| <= 4
    ensures Crc(crc, w) == Steps(Xor(crc, Flat(w) + Clear(32 - 8 * |w|)), 8 * |w|)
    decreases |w|
  {
    hide Step, Steps, Lsb, Clear, Xor;
    var n := |w|;
    if n == 0 {
      assert Xor(crc, Flat(w) + Clear(32)) == crc;
      NoSteps(crc);
    } else {
      var b: Register, r := Lsb(w[0], 8) + Clear(24), Flat(w[1..]) + Clear(32 - 8 * n);
      var x: Register := Xor(crc, b);
      Window(Steps(x, 8), w[1..]);
      assert r + Clear(8) == Flat(w[1..]) + Clear(32 - 8 * (n - 1));
      StepsShift(r, 8);
      StepsLinear(x, Clear(8) + r, 8);
      assert Xor(x, Clear(8) + r) == Xor(crc, Flat(w) + Clear(32 - 8 * n));
      StepsAdd(Xor(x, Clear(8) + r), 8, 8 * (n - 1));
    }
  }

  lemma NoSteps(crc: Register)
    ensures Steps(crc, 0) == crc
  {
  }

  lemma XorInjective(x: Register, a: seq<bool>, b: seq<bool>)
    requires |a| == |b| == 32 && Xor(x, a) == Xor(x, b)
    ensures a == b
  {
    hide Xor;
    forall i | 0 <= i < 32 ensures a[i] == b[i] { assert Xor(x, a)[i] == Xor(x, b)[i]; }
  }

  lemma WindowInjective(crc: Register, v: seq<byte>, w: seq<byte>)
    requires |v| == |w| <= 4 && Crc(crc, v) == Crc(crc, w)
    ensures v == w
  {
    hide Step, Steps, Crc, Clear, Xor, Flat;
    Window(crc, v);
    Window(crc, w);
    var z := Clear(32 - 8 * |v|);
    StepsInjective(Xor(crc, Flat(v) + z), Xor(crc, Flat(w) + z), 8 * |v|);
    XorInjective(crc, Flat(v) + z, Flat(w) + z);
    assert Flat(v) == (Flat(v) + z)[..8 * |v|] && Flat(w) == (Flat(w) + z)[..8 * |v|];
    FlatInjective(v, w);
  }

  /** The same bytes take different registers to different registers. */
  lemma {:induction false} CrcInjective(x: Register, y: Register, data: seq<byte>)
    requires Crc(x, data) == Crc(y, data)
    ensures x == y
    decreases |data|
  {
    hide Steps, Clear, Xor, Lsb;
    if data != [] {
      var b: Register := Lsb(data[0], 8) + Clear(24);
      CrcInjective(Update(x, data[0]), Update(y, data[0]), data[1..]);
      StepsInjective(Xor(x, b), Xor(y, b), 8);
      assert forall i :: 0 <= i < 32 ==> Xor(x, b)[i] == Xor(y, b)[i];
    }
  }

  lemma {:induction false} CrcAppend(crc: Register, a: seq<byte>, b: seq<byte>)
    ensures Crc(crc, a + b) == Crc(Crc(crc, a), b)
    decreases |a|
  {
    hide Update;
    if a == [] {
      assert a + b == b;
    } else {
      assert (a + b)[1..] == a[1..] + b;
      CrcAppend(Update(crc, a[0]), a[1..], b);
    }
  }

  /** Two strings that differ, but only inside one window of four bytes, have different checksums. */
  lemma BurstChangesCrc(crc: Register, before: seq<byte>, v: seq<byte>, w: seq<byte>, after: seq<byte>)
    requires |v| == |w| <= 4 && v != w
    ensures Crc(crc, before + v + after) != Crc(crc, before + w + after)
  {
    hide Crc;
    CrcAppend(crc, before + v, after);
    CrcAppend(crc, before + w, after);
    CrcAppend(crc, before, v);
    CrcAppend(crc, before, w);
    if Crc(crc, before + v + after) == Crc(crc, before + w + after) {
      CrcInjective(Crc(Crc(crc, before), v), Crc(Crc(crc, before), w), after);
      WindowInjective(Crc(crc, before), v, w);
    }
  }
}
