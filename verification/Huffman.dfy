/**
 Canonical Huffman codes as LZX uses them: code lengths of at most 16 bits, codes of one
 length consecutive in symbol order, shorter codes before longer ones (the construction of
 section 3.2.2 of RFC 1951).  Everything here is about the codes; the lookup tables that
 decode them are in module HuffmanTable.
 */
module Huffman {
  import opened Bits

  const MAX_TREE_PATH_LEN: nat := 16

  ghost predicate LengthsOk(lens: seq<nat>) {
    forall i :: 0 <= i < |lens| ==> lens[i] <= MAX_TREE_PATH_LEN
  }

  ghost predicate AllZero(lens: seq<nat>) {
    forall i :: 0 <= i < |lens| ==> lens[i] == 0
  }

  /** How many symbols have length `l`. */
  function Count(lens: seq<nat>, l: nat): nat {
    if lens == [] then 0
    else Count(lens[..|lens| - 1], l) + (if lens[|lens| - 1] == l then 1 else 0)
  }

  /** The first code of length `l`. */
  function First(lens: seq<nat>, l: nat): nat
    requires l >= 1
  {
    if l == 1 then 0 else 2 * (First(lens, l - 1) + Count(lens, l - 1))
  }

  function Code(lens: seq<nat>, i: nat): nat
    requires i < |lens| && lens[i] > 0
  {
    First(lens, lens[i]) + Count(lens[..i], lens[i])
  }

  /** The bits of symbol `i`'s code. */
  function Codeword(lens: seq<nat>, i: nat): (b: seq<bool>)
    requires i < |lens| && lens[i] > 0
    ensures |b| == lens[i]
  {
    ToBits(Code(lens, i), lens[i])
  }

  /** Kraft's sum, in units of 2^-16. */
  function Kraft(lens: seq<nat>): nat
    requires LengthsOk(lens)
  {
    if lens == [] then 0
    else Kraft(lens[..|lens| - 1]) + Share(lens[|lens| - 1])
  }

  function Share(l: nat): nat
    requires l <= MAX_TREE_PATH_LEN
  {
    if l == 0 then 0 else Pow2(MAX_TREE_PATH_LEN - l)
  }

  /** The lengths describe a code that uses up the whole code space. */
  ghost predicate Complete(lens: seq<nat>) {
    LengthsOk(lens) && Kraft(lens) == Pow2(MAX_TREE_PATH_LEN)
  }

  /** Symbol `i` is the one whose code starts `bits`. */
  ghost predicate Decodes(lens: seq<nat>, bits: seq<bool>, i: nat) {
    i < |lens| && lens[i] > 0 && Codeword(lens, i) <= bits
  }

  // ----- the code space, laid out in order of length ---------------------------------

  /** The code space used by lengths 1..l-1, in units of 2^-16. */
  function Used(lens: seq<nat>, l: nat): nat
    requires 1 <= l <= MAX_TREE_PATH_LEN + 1
  {
    if l == 1 then 0 else Used(lens, l - 1) + Shl(Count(lens, l - 1), MAX_TREE_PATH_LEN + 1 - l)
  }

  lemma {:induction false} UsedMonotone(lens: seq<nat>, a: nat, b: nat)
    requires 1 <= a <= b <= MAX_TREE_PATH_LEN + 1
    ensures Used(lens, a) <= Used(lens, b)
  {
    if a < b { UsedMonotone(lens, a, b - 1); }
  }

  lemma {:induction false} FirstIsUsed(lens: seq<nat>, l: nat)
    requires 1 <= l <= MAX_TREE_PATH_LEN
    ensures Shl(First(lens, l), MAX_TREE_PATH_LEN - l) == Used(lens, l)
  {
    if l == 1 {
      ShlZero(MAX_TREE_PATH_LEN - l);
    } else {
      FirstIsUsed(lens, l - 1);
      var x := First(lens, l - 1) + Count(lens, l - 1);
      ShlAdd(First(lens, l - 1), Count(lens, l - 1), MAX_TREE_PATH_LEN + 1 - l);
      ShlTwice(x, 1, MAX_TREE_PATH_LEN - l);
      assert Shl(x, 1) == 2 * x;
    }
  }

  lemma {:induction false} UsedAppend(lens: seq<nat>, x: nat, l: nat)
    requires x <= MAX_TREE_PATH_LEN && 1 <= l <= MAX_TREE_PATH_LEN + 1
    ensures Used(lens + [x], l) == Used(lens, l) + (if 1 <= x < l then Share(x) else 0)
  {
    if l > 1 {
      UsedAppend(lens, x, l - 1);
      assert (lens + [x])[..|lens|] == lens;
      ShlAdd(Count(lens, l - 1), 1, MAX_TREE_PATH_LEN + 1 - l);
      ShlOne(MAX_TREE_PATH_LEN + 1 - l);
    }
  }

  lemma {:induction false} UsedNone(l: nat)
    requires 1 <= l <= MAX_TREE_PATH_LEN + 1
    ensures Used([], l) == 0
  {
    if l > 1 {
      UsedNone(l - 1);
      ShlZero(MAX_TREE_PATH_LEN + 1 - l);
    }
  }

  lemma {:induction false} KraftIsUsed(lens: seq<nat>)
    requires LengthsOk(lens)
    ensures Kraft(lens) == Used(lens, MAX_TREE_PATH_LEN + 1)
  {
    if lens == [] {
      UsedNone(MAX_TREE_PATH_LEN + 1);
    } else {
      var init, x := lens[..|lens| - 1], lens[|lens| - 1];
      KraftIsUsed(init);
      UsedAppend(init, x, MAX_TREE_PATH_LEN + 1);
      assert init + [x] == lens;
    }
  }

  lemma {:induction false} CountNone(lens: seq<nat>, l: nat)
    requires forall i :: 0 <= i < |lens| ==> lens[i] != l
    ensures Count(lens, l) == 0
  {
    if lens != [] { CountNone(lens[..|lens| - 1], l); }
  }

  /** Past the longest length in use nothing more is used. */
  lemma {:induction false} UsedBeyondMax(lens: seq<nat>, max: nat, l: nat)
    requires 1 <= max < l <= MAX_TREE_PATH_LEN + 1
    requires forall i :: 0 <= i < |lens| ==> lens[i] <= max
    ensures Used(lens, l) == Shl(First(lens, max) + Count(lens, max), MAX_TREE_PATH_LEN - max)
  {
    if l == max + 1 {
      FirstIsUsed(lens, max);
      ShlAdd(First(lens, max), Count(lens, max), MAX_TREE_PATH_LEN - max);
    } else {
      UsedBeyondMax(lens, max, l - 1);
      CountNone(lens, l - 1);
      ShlZero(MAX_TREE_PATH_LEN + 1 - l);
    }
  }

  /** The test `build_table` makes on the last code is exactly Kraft's equality. */
  lemma AcceptanceIsKraft(lens: seq<nat>, max: nat)
    requires 1 <= max <= MAX_TREE_PATH_LEN
    requires forall i :: 0 <= i < |lens| ==> lens[i] <= max
    ensures First(lens, max) + Count(lens, max) == Pow2(max) <==> Complete(lens)
  {
    hide Shl, Pow2, First, Count, Used, Kraft;
    UsedBeyondMax(lens, max, MAX_TREE_PATH_LEN + 1);
    KraftIsUsed(lens);
    Pow2Shifted(max);
    ShlEqual(First(lens, max) + Count(lens, max), Pow2(max), MAX_TREE_PATH_LEN - max);
  }

  lemma Pow2Shifted(l: nat)
    requires l <= MAX_TREE_PATH_LEN
    ensures Shl(Pow2(l), MAX_TREE_PATH_LEN - l) == Pow2(MAX_TREE_PATH_LEN)
  {
    hide Shl, Pow2;
    ShlOne(l);
    ShlOne(MAX_TREE_PATH_LEN);
    ShlTwice(1, l, MAX_TREE_PATH_LEN - l);
  }

  // ----- counting ----------------------------------------------------------------------

  lemma {:induction false} CountPrefix(lens: seq<nat>, l: nat, n: nat)
    requires n <= |lens|
    ensures Count(lens[..n], l) <= Count(lens, l)
  {
    if n < |lens| {
      var init := lens[..|lens| - 1];
      CountPrefix(init, l, n);
      assert init[..n] == lens[..n];
    } else {
      assert lens[..n] == lens;
    }
  }

  /** An earlier symbol of the same length has a smaller rank. */
  lemma RankIncreases(lens: seq<nat>, i: nat, j: nat)
    requires i < j <= |lens|
    ensures Count(lens[..i], lens[i]) < Count(lens[..j], lens[i])
  {
    assert lens[..i + 1][..i] == lens[..i];
    assert lens[..j][..i + 1] == lens[..i + 1];
    CountPrefix(lens[..j], lens[i], i + 1);
  }

  /** The symbol of length `l` with a given rank. */
  lemma {:induction false} FindRank(lens: seq<nat>, l: nat, k: nat) returns (i: nat)
    requires k < Count(lens, l)
    ensures i < |lens| && lens[i] == l && Count(lens[..i], l) == k
  {
    var init := lens[..|lens| - 1];
    if k < Count(init, l) {
      i := FindRank(init, l, k);
      assert init[..i] == lens[..i];
    } else {
      i := |lens| - 1;
    }
  }

  // ----- the codes tile the code space ---------------------------------------------------

  /** Where symbol `i`'s share of the code space begins. */
  function Start(lens: seq<nat>, i: nat): nat
    requires i < |lens| && 0 < lens[i] <= MAX_TREE_PATH_LEN
  {
    Shl(Code(lens, i), MAX_TREE_PATH_LEN - lens[i])
  }

  lemma StartInItsLength(lens: seq<nat>, i: nat)
    requires i < |lens| && 0 < lens[i] <= MAX_TREE_PATH_LEN
    ensures Start(lens, i) == Used(lens, lens[i]) + Shl(Count(lens[..i], lens[i]), MAX_TREE_PATH_LEN - lens[i])
    ensures Start(lens, i) + Share(lens[i]) <= Used(lens, lens[i] + 1)
  {
    hide Shl, Pow2, First, Count;
    var l := lens[i];
    FirstIsUsed(lens, l);
    RankIncreases(lens, i, |lens|);
    assert lens[..|lens|] == lens;
    ShlAdd(First(lens, l), Count(lens[..i], l), MAX_TREE_PATH_LEN - l);
    ShlOrder(Count(lens[..i], l), Count(lens, l), MAX_TREE_PATH_LEN - l);
  }

  lemma CodeFits(lens: seq<nat>, i: nat)
    requires Complete(lens) && i < |lens| && lens[i] > 0
    ensures Code(lens, i) < Pow2(lens[i])
    ensures Value(Codeword(lens, i)) == Code(lens, i)
  {
    hide Shl, Pow2, First, Count, Used, Kraft, Code, Value, ToBits;
    var l := lens[i];
    StartInItsLength(lens, i);
    UsedMonotone(lens, l + 1, MAX_TREE_PATH_LEN + 1);
    KraftIsUsed(lens);
    Pow2Shifted(l);
    ShlOrder(Code(lens, i), Pow2(l), MAX_TREE_PATH_LEN - l);
    ValueOfToBits(Code(lens, i), l);
  }

  /** A 16-bit lookahead starts with symbol `i`'s code exactly when it lies in `i`'s share. */
  lemma DecodesIsShare(lens: seq<nat>, bits: seq<bool>, i: nat)
    requires Complete(lens) && |bits| == MAX_TREE_PATH_LEN && i < |lens| && lens[i] > 0
    ensures Decodes(lens, bits, i) <==> Start(lens, i) <= Value(bits) < Start(lens, i) + Share(lens[i])
  {
    CodeFits(lens, i);
    PrefixInterval(Codeword(lens, i), bits);
  }

  /** Shares of different symbols do not meet. */
  lemma SharesDisjoint(lens: seq<nat>, i: nat, j: nat)
    requires LengthsOk(lens) && i < |lens| && j < |lens| && lens[i] > 0 && lens[j] > 0
    requires lens[i] < lens[j] || (lens[i] == lens[j] && i < j)
    ensures Start(lens, i) + Share(lens[i]) <= Start(lens, j)
  {
    StartInItsLength(lens, i);
    StartInItsLength(lens, j);
    if lens[i] < lens[j] {
      UsedMonotone(lens, lens[i] + 1, lens[j]);
    } else {
      RankIncreases(lens, i, j);
      ShlOrder(Count(lens[..i], lens[i]), Count(lens[..j], lens[i]), MAX_TREE_PATH_LEN - lens[i]);
    }
  }

  lemma AtMostOneSymbol16(lens: seq<nat>, bits: seq<bool>, i: nat, j: nat)
    requires Complete(lens) && |bits| == MAX_TREE_PATH_LEN
    requires Decodes(lens, bits, i) && Decodes(lens, bits, j)
    ensures i == j
  {
    DecodesIsShare(lens, bits, i);
    DecodesIsShare(lens, bits, j);
    if i != j {
      if lens[i] < lens[j] || (lens[i] == lens[j] && i < j) {
        SharesDisjoint(lens, i, j);
      } else {
        SharesDisjoint(lens, j, i);
      }
    }
  }

  /** The bits followed by zeros, cut to a 16-bit lookahead. */
  function Lookahead(bits: seq<bool>): (b: seq<bool>)
    ensures |b| == MAX_TREE_PATH_LEN
  {
    if |bits| >= MAX_TREE_PATH_LEN then bits[..MAX_TREE_PATH_LEN]
    else bits + Zeros(MAX_TREE_PATH_LEN - |bits|)
  }

  lemma LookaheadPrefix(bits: seq<bool>, c: seq<bool>)
    requires |c| <= MAX_TREE_PATH_LEN
    ensures c <= bits ==> c <= Lookahead(bits)
    ensures |c| <= |bits| && c <= Lookahead(bits) ==> c <= bits
  {
  }

  /** What the stream decodes to, its zero-padded lookahead decodes to as well. */
  lemma DecodesLookahead(lens: seq<nat>, bits: seq<bool>, i: nat)
    requires LengthsOk(lens) && i < |lens| && lens[i] > 0
    ensures Decodes(lens, bits, i) <==> Decodes(lens, Lookahead(bits), i) && lens[i] <= |bits|
  {
    LookaheadPrefix(bits, Codeword(lens, i));
  }

  /** PREFIX-FREE: at most one symbol's code starts any bit string. */
  lemma AtMostOneSymbol(lens: seq<nat>, bits: seq<bool>, i: nat, j: nat)
    requires Complete(lens) && Decodes(lens, bits, i) && Decodes(lens, bits, j)
    ensures i == j
  {
    DecodesLookahead(lens, bits, i);
    DecodesLookahead(lens, bits, j);
    AtMostOneSymbol16(lens, Lookahead(bits), i, j);
  }

  /** No code is a prefix of another symbol's code. */
  lemma PrefixFree(lens: seq<nat>, i: nat, j: nat)
    requires Complete(lens) && i < |lens| && j < |lens| && lens[i] > 0 && lens[j] > 0 && i != j
    ensures !(Codeword(lens, i) <= Codeword(lens, j))
  {
    if Codeword(lens, i) <= Codeword(lens, j) {
      AtMostOneSymbol(lens, Codeword(lens, j), i, j);
    }
  }

  lemma {:induction false} FindLength(lens: seq<nat>, v: nat, l: nat) returns (k: nat)
    requires 1 <= l <= MAX_TREE_PATH_LEN + 1 && v < Used(lens, l)
    ensures 1 <= k < l && Used(lens, k) <= v < Used(lens, k + 1)
  {
    if v < Used(lens, l - 1) { k := FindLength(lens, v, l - 1); } else { k := l - 1; }
  }

  /** COMPLETE: every lookahead of 16 bits starts with some symbol's code. */
  lemma SomeSymbol(lens: seq<nat>, bits: seq<bool>) returns (i: nat)
    requires Complete(lens) && |bits| >= MAX_TREE_PATH_LEN
    ensures Decodes(lens, bits, i)
  {
    hide Pow2, Shl, Shr, Low, Value, Kraft, Count, First, Codeword;
    var head := bits[..MAX_TREE_PATH_LEN];
    var v := Value(head);
    KraftIsUsed(lens);
    var l := FindLength(lens, v, MAX_TREE_PATH_LEN + 1);
    var k := MAX_TREE_PATH_LEN - l;
    var r := Shr(v - Used(lens, l), k);
    ShrLow(v - Used(lens, l), k);
    ShlOrder(Count(lens, l), r, k);
    i := FindRank(lens, l, r);
    StartInItsLength(lens, i);
    DecodesIsShare(lens, head, i);
    assert Codeword(lens, i) <= head <= bits;
  }

  lemma {:induction false} KraftZero(lens: seq<nat>)
    requires AllZero(lens)
    ensures Kraft(lens) == 0
  {
    if lens != [] { KraftZero(lens[..|lens| - 1]); }
  }

  lemma CompleteNotAllZero(lens: seq<nat>)
    requires Complete(lens)
    ensures !AllZero(lens)
  {
    if AllZero(lens) { KraftZero(lens); }
  }
}
