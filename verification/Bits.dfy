/**
 Shifts and bit strings.  Shifts are defined one bit at a time, so every fact about them is
 proved by induction and linear arithmetic.  Bit strings are written most significant bit first.
 */
module Bits {
  function Pow2(n: nat): (r: nat)
    ensures r > 0
  {
    if n == 0 then 1 else 2 * Pow2(n - 1)
  }

  /** `x << k`, unbounded. */
  function Shl(x: nat, k: nat): nat {
    if k == 0 then x else 2 * Shl(x, k - 1)
  }

  /** `x >> k`. */
  function Shr(x: nat, k: nat): nat {
    if k == 0 then x else Shr(x, k - 1) / 2
  }

  /** `x & ((1 << k) - 1)`: the low `k` bits of `x`. */
  function Low(x: nat, k: nat): (r: nat)
    ensures r < Pow2(k)
  {
    if k == 0 then 0 else 2 * Low(x / 2, k - 1) + x % 2
  }

  /** Bitwise `a | b`. */
  function Or(a: nat, b: nat): nat {
    if a == 0 && b == 0 then 0
    else 2 * Or(a / 2, b / 2) + (if a % 2 == 1 || b % 2 == 1 then 1 else 0)
  }

  /** The low `n` bits of `v`. */
  function ToBits(v: nat, n: nat): (b: seq<bool>)
    ensures |b| == n
  {
    if n == 0 then [] else ToBits(v / 2, n - 1) + [v % 2 == 1]
  }

  /** The number a bit string denotes. */
  function Value(b: seq<bool>): (v: nat)
    ensures v < Pow2(|b|)
  {
    if b == [] then 0 else 2 * Value(b[..|b| - 1]) + (if b[|b| - 1] then 1 else 0)
  }

  function Zeros(n: nat): (b: seq<bool>)
    ensures |b| == n
  {
    if n == 0 then [] else Zeros(n - 1) + [false]
  }

  lemma Pow2Values()
    ensures Pow2(0) == 1 && Pow2(1) == 2 && Pow2(2) == 4 && Pow2(3) == 8 && Pow2(4) == 16 && Pow2(5) == 32
    ensures Pow2(6) == 64 && Pow2(7) == 128 && Pow2(8) == 256 && Pow2(9) == 512 && Pow2(10) == 1024
    ensures Pow2(11) == 2048 && Pow2(12) == 4096 && Pow2(13) == 8192 && Pow2(16) == 65536
  {
    assert Pow2(4) == 16;
    assert Pow2(8) == 256;
    assert Pow2(12) == 4096;
  }

  // ----- shifts ------------------------------------------------------------------------

  lemma {:induction false} ShlOne(k: nat)
    ensures Shl(1, k) == Pow2(k)
  {
    if k > 0 { ShlOne(k - 1); }
  }

  lemma {:induction false} ShlAdd(a: nat, b: nat, k: nat)
    ensures Shl(a + b, k) == Shl(a, k) + Shl(b, k)
  {
    if k > 0 { ShlAdd(a, b, k - 1); }
  }

  lemma {:induction false} ShlTwice(a: nat, j: nat, k: nat)
    ensures Shl(Shl(a, j), k) == Shl(a, j + k)
  {
    if k > 0 { ShlTwice(a, j, k - 1); }
  }

  /** Shifting keeps order, and distinct numbers end at least one step apart. */
  lemma ShlOrder(a: nat, b: nat, k: nat)
    ensures a <= b <==> Shl(a, k) <= Shl(b, k)
    ensures a < b <==> Shl(a, k) + Pow2(k) <= Shl(b, k)
  {
    hide Shl, Pow2;
    ShlOne(k);
    ShlZero(k);
    if a < b {
      ShlAdd(a + 1, b - a - 1, k);
      ShlAdd(a, 1, k);
    } else if b < a {
      ShlAdd(b + 1, a - b - 1, k);
      ShlAdd(b, 1, k);
    }
  }

  lemma ShlEqual(a: nat, b: nat, k: nat)
    ensures a == b <==> Shl(a, k) == Shl(b, k)
  {
    ShlOrder(a, b, k);
    ShlOrder(b, a, k);
  }

  lemma {:induction false} ShlZero(k: nat)
    ensures Shl(0, k) == 0
  {
    if k > 0 { ShlZero(k - 1); }
  }

  lemma {:induction false} ShrTwice(x: nat, j: nat, k: nat)
    ensures Shr(Shr(x, j), k) == Shr(x, j + k)
  {
    if k > 0 { ShrTwice(x, j, k - 1); }
  }

  /** A number is its high part shifted back plus its low part. */
  lemma {:induction false} ShrLow(x: nat, k: nat)
    ensures x == Shl(Shr(x, k), k) + Low(x, k)
  {
    if k > 0 {
      ShrTwice(x, 1, k - 1);
      assert Shr(x, 1) == x / 2;
      ShrLow(x / 2, k - 1);
    }
  }

  /** ... and that split is the only one. */
  lemma {:induction false} SplitUnique(q: nat, r: nat, k: nat)
    requires r < Pow2(k)
    ensures Shr(Shl(q, k) + r, k) == q && Low(Shl(q, k) + r, k) == r
  {
    var x := Shl(q, k) + r;
    ShrLow(x, k);
    ShlOrder(q, Shr(x, k), k);
    ShlOrder(Shr(x, k), q, k);
  }

  lemma {:induction false} LowSmall(x: nat, k: nat)
    requires x < Pow2(k)
    ensures Low(x, k) == x && Shr(x, k) == 0
  {
    ShlZero(k);
    SplitUnique(0, x, k);
  }

  lemma {:induction false} Pow2Monotone(a: nat, b: nat)
    requires a <= b
    ensures Pow2(a) <= Pow2(b)
  {
    if a < b { Pow2Monotone(a, b - 1); }
  }

  /** Or-ing into cleared low bits is addition. */
  lemma {:induction false} OrDisjoint(q: nat, b: nat, k: nat)
    requires b < Pow2(k)
    ensures Or(Shl(q, k), b) == Shl(q, k) + b
  {
    if k == 0 {
      OrZero(q);
    } else {
      OrDisjoint(q, b / 2, k - 1);
    }
  }

  lemma {:induction false} OrZero(a: nat)
    ensures Or(a, 0) == a
  {
    if a > 0 { OrZero(a / 2); }
  }

  // ----- bit strings ---------------------------------------------------------------------

  lemma {:induction false} ToBitsOfValue(b: seq<bool>)
    ensures ToBits(Value(b), |b|) == b
  {
    if b != [] {
      ToBitsOfValue(b[..|b| - 1]);
      assert Value(b) / 2 == Value(b[..|b| - 1]);
      assert b == b[..|b| - 1] + [b[|b| - 1]];
    }
  }

  lemma {:induction false} ValueOfToBits(v: nat, n: nat)
    ensures Value(ToBits(v, n)) == Low(v, n)
    ensures v < Pow2(n) ==> Value(ToBits(v, n)) == v
  {
    if n > 0 {
      ValueOfToBits(v / 2, n - 1);
      assert ToBits(v, n)[..n - 1] == ToBits(v / 2, n - 1);
    }
  }

  lemma ValueInjective(a: seq<bool>, b: seq<bool>)
    requires |a| == |b| && Value(a) == Value(b)
    ensures a == b
  {
    ToBitsOfValue(a);
    ToBitsOfValue(b);
  }

  lemma {:induction false} ValueConcat(a: seq<bool>, b: seq<bool>)
    ensures Value(a + b) == Shl(Value(a), |b|) + Value(b)
  {
    if b == [] {
      assert a + b == a;
    } else {
      ValueConcat(a, b[..|b| - 1]);
      assert (a + b)[..|a + b| - 1] == a + b[..|b| - 1];
    }
  }

  lemma {:induction false} ValueZeros(n: nat)
    ensures Value(Zeros(n)) == 0
  {
    if n > 0 {
      ValueZeros(n - 1);
    }
  }

  lemma ConcatSplit(a: seq<bool>, b: seq<bool>)
    ensures Value(a + b) == Shl(Value(a), |b|) + Value(b)
    ensures Value(a) == Shr(Value(a + b), |b|)
    ensures Value(b) == Low(Value(a + b), |b|)
  {
    hide Value, Shl, Shr, Low, Pow2;
    ValueConcat(a, b);
    SplitUnique(Value(a), Value(b), |b|);
  }

  /** Shifting right keeps the leading bits of a string; masking keeps the trailing ones. */
  lemma ValueSplit(s: seq<bool>, n: nat)
    requires n <= |s|
    ensures Value(s) == Shl(Value(s[..n]), |s| - n) + Value(s[n..])
    ensures Value(s[..n]) == Shr(Value(s), |s| - n)
    ensures Value(s[n..]) == Low(Value(s), |s| - n)
  {
    hide Value, Shl, Shr, Low, Pow2;
    assert s[..n] + s[n..] == s;
    ConcatSplit(s[..n], s[n..]);
  }

  /** `c` is a prefix of `s` exactly when `s` lies in `c`'s interval of values. */
  lemma PrefixInterval(c: seq<bool>, s: seq<bool>)
    requires |c| <= |s|
    ensures c <= s <==>
            Shl(Value(c), |s| - |c|) <= Value(s) < Shl(Value(c), |s| - |c|) + Pow2(|s| - |c|)
  {
    var n := |c|;
    ValueSplit(s, n);
    ShlOrder(Value(c), Value(s[..n]), |s| - n);
    ShlOrder(Value(s[..n]), Value(c), |s| - n);
    if Value(c) == Value(s[..n]) { ValueInjective(c, s[..n]); }
    if c <= s { assert c == s[..n]; }
  }
}
