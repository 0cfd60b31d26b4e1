/**
 The decoding tables: a direct table indexed by nine bits of lookahead, and overflow rows
 for the codes longer than nine bits.
 */
module HuffmanTable {
  import opened Common
  import opened Bits
  import opened Huffman

  const TABLE_BITS: nat := 9
  const TABLE_SIZE: nat := 512
  const LEN_SHIFT: nat := 9
  const MAX_SYMBOLS: nat := 512

  datatype Table = Table(extra: seq<seq<nat>>, maxbits: nat, table: seq<nat>)

  /** A filled slot: the code's length above the symbol. */
  function Entry(l: nat, symbol: nat): nat {
    Or(Shl(l, LEN_SHIFT), symbol)
  }

  lemma EntryParts(l: nat, symbol: nat)
    requires symbol < MAX_SYMBOLS
    ensures Shr(Entry(l, symbol), LEN_SHIFT) == l && Low(Entry(l, symbol), LEN_SHIFT) == symbol
    ensures l > 0 <==> Entry(l, symbol) >= 512
  {
    Pow2Values();
    OrDisjoint(l, symbol, LEN_SHIFT);
    SplitUnique(l, symbol, LEN_SHIFT);
    ShlZero(LEN_SHIFT);
    ShlOrder(0, l, LEN_SHIFT);
  }

  /** The slot a 16-bit lookahead leads to; None where the source would report a corrupt stream. */
  function Lookup(h: Table, look: seq<bool>): Option<nat>
    requires |look| == MAX_TREE_PATH_LEN
  {
    var index := Value(look[..TABLE_BITS]);
    if index >= |h.table| then None
    else
      var e := h.table[index];
      if e >= 512 then Some(e)
      else if !(TABLE_BITS < h.maxbits <= MAX_TREE_PATH_LEN) || e >= |h.extra| then None
      else
        var suffix := Value(look[TABLE_BITS..h.maxbits]);
        if suffix >= |h.extra[e]| then None else Some(h.extra[e][suffix])
  }

  /** `h` decodes the canonical code of `lens`. */
  ghost predicate TableFor(h: Table, lens: seq<nat>) {
    && |lens| <= MAX_SYMBOLS
    && |h.table| == TABLE_SIZE
    && h.maxbits <= MAX_TREE_PATH_LEN
    && (h.maxbits == 0 <==> AllZero(lens))
    && (h.maxbits > 0 ==> Complete(lens) && DecodesAll(h, lens))
  }

  ghost predicate DecodesAll(h: Table, lens: seq<nat>) {
    forall look: seq<bool>, i: nat :: |look| == MAX_TREE_PATH_LEN && Decodes(lens, look, i) ==>
      Lookup(h, look) == Some(Entry(lens[i], i))
  }

  /** Nothing was left unwritten: direct slots name a symbol or a row, row slots name a symbol. */
  ghost predicate Filled(h: Table) {
    && (forall t :: 0 <= t < |h.table| ==> h.table[t] >= 512 || h.table[t] < |h.extra|)
    && (forall e, q :: 0 <= e < |h.extra| && 0 <= q < |h.extra[e]| ==> h.extra[e][q] >= 512)
  }

  // ----- which slots a symbol owns --------------------------------------------------------

  ghost predicate DirectCover(lens: seq<nat>, i: nat, t: nat) {
    i < |lens| && 0 < lens[i] <= TABLE_BITS && Codeword(lens, i) <= ToBits(t, TABLE_BITS)
  }

  ghost predicate ExtraCover(lens: seq<nat>, i: nat, p: nat, q: nat, max: nat) {
    && TABLE_BITS < max
    && i < |lens| && TABLE_BITS < lens[i] <= max
    && Codeword(lens, i) <= ToBits(p, TABLE_BITS) + ToBits(q, max - TABLE_BITS)
  }

  lemma DirectSlots(lens: seq<nat>, i: nat, t: nat)
    requires Complete(lens) && i < |lens| && 0 < lens[i] <= TABLE_BITS && t < TABLE_SIZE
    ensures DirectCover(lens, i, t) <==>
            var from := Shl(Code(lens, i), TABLE_BITS - lens[i]);
            from <= t < from + Pow2(TABLE_BITS - lens[i])
  {
    Pow2Values();
    CodeFits(lens, i);
    ValueOfToBits(t, TABLE_BITS);
    PrefixInterval(Codeword(lens, i), ToBits(t, TABLE_BITS));
  }

  lemma PrefixOfConcat(c: seq<bool>, a: seq<bool>, b: seq<bool>)
    requires |a| <= |c| <= |a| + |b|
    ensures c <= a + b <==> c[..|a|] == a && c[|a|..] <= b
  {
    var s := a + b;
    if c <= s {
      assert forall k :: 0 <= k < |c| ==> c[k] == s[k];
    }
    if c[..|a|] == a && c[|a|..] <= b {
      assert c == c[..|a|] + c[|a|..];
      assert b == c[|a|..] + b[|c| - |a|..];
      assert s == c + b[|c| - |a|..];
    }
  }

  lemma ExtraSlots(lens: seq<nat>, i: nat, p: nat, q: nat, max: nat)
    requires Complete(lens) && i < |lens| && TABLE_BITS < lens[i] <= max <= MAX_TREE_PATH_LEN
    requires p < TABLE_SIZE && q < Pow2(max - TABLE_BITS)
    ensures ExtraCover(lens, i, p, q, max) <==>
            var rest := lens[i] - TABLE_BITS;
            var from := Shl(Low(Code(lens, i), rest), max - lens[i]);
            p == Shr(Code(lens, i), rest) && from <= q < from + Pow2(max - lens[i])
  {
    hide Shl, Pow2, First, Count, Kraft, Code, Value, ToBits, Codeword, Low, Shr;
    Pow2Values();
    var c, a, b := Codeword(lens, i), ToBits(p, TABLE_BITS), ToBits(q, max - TABLE_BITS);
    CodeFits(lens, i);
    ValueSplit(c, TABLE_BITS);
    PrefixOfConcat(c, a, b);
    ValueOfToBits(p, TABLE_BITS);
    ValueOfToBits(q, max - TABLE_BITS);
    PrefixInterval(c[TABLE_BITS..], b);
    if p == Value(c[..TABLE_BITS]) { ValueInjective(a, c[..TABLE_BITS]); }
  }

  /** The number of nine-bit prefixes taken by codes of at most nine bits. */
  function Core(lens: seq<nat>): nat {
    First(lens, TABLE_BITS + 1) / 2
  }

  lemma CoreIsUsed(lens: seq<nat>)
    ensures Shl(Core(lens), 7) == Used(lens, TABLE_BITS + 1)
  {
    FirstIsUsed(lens, TABLE_BITS + 1);
    ShlTwice(Core(lens), 1, 6);
    assert Shl(Core(lens), 1) == 2 * Core(lens);
  }

  /** The first nine bits of a lookahead tell whether its symbol has a short code. */
  lemma ShortIffBelowCore(lens: seq<nat>, look: seq<bool>, i: nat)
    requires Complete(lens) && |look| == MAX_TREE_PATH_LEN && Decodes(lens, look, i)
    ensures lens[i] <= TABLE_BITS <==> Value(look[..TABLE_BITS]) < Core(lens)
  {
    var p := Value(look[..TABLE_BITS]);
    ValueSplit(look, TABLE_BITS);
    DecodesIsShare(lens, look, i);
    StartInItsLength(lens, i);
    CoreIsUsed(lens);
    ShlOrder(Core(lens), p, 7);
    ShlOrder(p, Core(lens), 7);
    if lens[i] <= TABLE_BITS {
      UsedMonotone(lens, lens[i] + 1, TABLE_BITS + 1);
    } else {
      UsedMonotone(lens, TABLE_BITS + 1, lens[i]);
    }
  }

  lemma DirectBelowCore(lens: seq<nat>, i: nat, t: nat)
    requires Complete(lens) && t < TABLE_SIZE && DirectCover(lens, i, t)
    ensures t < Core(lens)
  {
    Pow2Values();
    var look := Lookahead(ToBits(t, TABLE_BITS));
    assert look[..TABLE_BITS] == ToBits(t, TABLE_BITS);
    ValueOfToBits(t, TABLE_BITS);
    DecodesLookahead(lens, ToBits(t, TABLE_BITS), i);
    ShortIffBelowCore(lens, look, i);
  }

  /** A long code's first nine bits select an overflow row. */
  lemma LongPrefix(lens: seq<nat>, i: nat)
    requires Complete(lens) && i < |lens| && lens[i] > TABLE_BITS
    ensures Core(lens) <= Shr(Code(lens, i), lens[i] - TABLE_BITS) < TABLE_SIZE
  {
    hide Shl, Pow2, First, Count, Kraft, Code, Value, ToBits, Core;
    Pow2Values();
    var c := Codeword(lens, i);
    var look := Lookahead(c);
    CodeFits(lens, i);
    ValueSplit(c, TABLE_BITS);
    assert look[..TABLE_BITS] == c[..TABLE_BITS];
    DecodesLookahead(lens, c, i);
    ShortIffBelowCore(lens, look, i);
  }

  lemma LongSuffix(lens: seq<nat>, i: nat, max: nat)
    requires i < |lens| && TABLE_BITS < lens[i] <= max
    ensures Shl(Low(Code(lens, i), lens[i] - TABLE_BITS), max - lens[i]) + Pow2(max - lens[i]) <= Pow2(max - TABLE_BITS)
  {
    var rest := lens[i] - TABLE_BITS;
    ShlOrder(Low(Code(lens, i), rest), Pow2(rest), max - lens[i]);
    ShlOne(rest);
    ShlOne(max - TABLE_BITS);
    ShlTwice(1, rest, max - lens[i]);
  }

  lemma ShortSlotsFit(lens: seq<nat>, i: nat)
    requires Complete(lens) && i < |lens| && 0 < lens[i] <= TABLE_BITS
    ensures Shl(Code(lens, i), TABLE_BITS - lens[i]) + Pow2(TABLE_BITS - lens[i]) <= TABLE_SIZE
  {
    Pow2Values();
    CodeFits(lens, i);
    ShlOrder(Code(lens, i), Pow2(lens[i]), TABLE_BITS - lens[i]);
    ShlOne(lens[i]);
    ShlOne(TABLE_BITS);
    ShlTwice(1, lens[i], TABLE_BITS - lens[i]);
  }

  // ----- the state of the tables after `n` symbols -----------------------------------------

  ghost predicate DirectDone(table: seq<nat>, lens: seq<nat>, n: nat) {
    && |table| == TABLE_SIZE
    && forall i, t :: 0 <= i < n && 0 <= t < TABLE_SIZE && DirectCover(lens, i, t) ==> table[t] == Entry(lens[i], i)
  }

  ghost predicate RowsNumbered(table: seq<nat>, core: nat) {
    && |table| == TABLE_SIZE
    && forall t :: core <= t < TABLE_SIZE ==> table[t] == t - core
  }

  ghost predicate RowsShaped(extra: seq<seq<nat>>, core: nat, max: nat) {
    && TABLE_BITS < max && core <= TABLE_SIZE
    && |extra| == TABLE_SIZE - core
    && forall e :: 0 <= e < |extra| ==> |extra[e]| == Pow2(max - TABLE_BITS)
  }

  ghost predicate ExtraDone(extra: seq<seq<nat>>, lens: seq<nat>, n: nat, core: nat, max: nat) {
    && RowsShaped(extra, core, max)
    && forall i, p, q ::
         0 <= i < n && core <= p < TABLE_SIZE && 0 <= q < |extra[p - core]| && ExtraCover(lens, i, p, q, max) ==>
         extra[p - core][q] == Entry(lens[i], i)
  }

  lemma DirectUnique(lens: seq<nat>, i: nat, j: nat, t: nat)
    requires Complete(lens) && DirectCover(lens, i, t) && DirectCover(lens, j, t)
    ensures i == j
  {
    AtMostOneSymbol(lens, ToBits(t, TABLE_BITS), i, j);
  }

  lemma ExtraUnique(lens: seq<nat>, i: nat, j: nat, p: nat, q: nat, max: nat)
    requires Complete(lens) && ExtraCover(lens, i, p, q, max) && ExtraCover(lens, j, p, q, max)
    ensures i == j
  {
    AtMostOneSymbol(lens, ToBits(p, TABLE_BITS) + ToBits(q, max - TABLE_BITS), i, j);
  }

  /** Writing symbol `n`'s direct slots disturbs no other symbol's and no row number. */
  lemma DirectStep(lens: seq<nat>, n: nat, old_: seq<nat>, new_: seq<nat>)
    requires Complete(lens) && n < |lens| && 0 < lens[n] <= TABLE_BITS
    requires DirectDone(old_, lens, n) && |new_| == TABLE_SIZE
    requires forall t :: 0 <= t < TABLE_SIZE ==>
               var first, k := Shl(Code(lens, n), TABLE_BITS - lens[n]), TABLE_BITS - lens[n];
               new_[t] == if first <= t < first + Pow2(k) then Entry(lens[n], n) else old_[t]
    ensures DirectDone(new_, lens, n + 1)
    ensures forall core :: core == Core(lens) && RowsNumbered(old_, core) ==> RowsNumbered(new_, core)
  {
    forall i, t | 0 <= i < n + 1 && 0 <= t < TABLE_SIZE && DirectCover(lens, i, t)
      ensures new_[t] == Entry(lens[i], i)
    {
      DirectSlots(lens, n, t);
      if DirectCover(lens, n, t) { DirectUnique(lens, i, n, t); }
    }
    forall t | Core(lens) <= t < TABLE_SIZE
      ensures new_[t] == old_[t]
    {
      DirectSlots(lens, n, t);
      if DirectCover(lens, n, t) { DirectBelowCore(lens, n, t); }
    }
  }

  /** Writing symbol `n`'s run of its overflow row disturbs no other symbol's slots. */
  lemma ExtraStep(lens: seq<nat>, n: nat, old_: seq<seq<nat>>, row: seq<nat>, max: nat)
    requires Complete(lens) && n < |lens| && TABLE_BITS < lens[n] <= max <= MAX_TREE_PATH_LEN
    requires ExtraDone(old_, lens, n, Core(lens), max)
    requires Core(lens) <= Shr(Code(lens, n), lens[n] - TABLE_BITS) < TABLE_SIZE
    requires |row| == Pow2(max - TABLE_BITS)
    requires var from := Shl(Low(Code(lens, n), lens[n] - TABLE_BITS), max - lens[n]);
             forall q :: 0 <= q < |row| ==>
               row[q] == if from <= q < from + Pow2(max - lens[n]) then Entry(lens[n], n)
                         else old_[Shr(Code(lens, n), lens[n] - TABLE_BITS) - Core(lens)][q]
    ensures ExtraDone(old_[Shr(Code(lens, n), lens[n] - TABLE_BITS) - Core(lens) := row], lens, n + 1, Core(lens), max)
  {
    hide Shl, Pow2, First, Count, Kraft, Code, Low, Shr, Entry, Core;
    var core, prefix := Core(lens), Shr(Code(lens, n), lens[n] - TABLE_BITS);
    var new_ := old_[prefix - core := row];
    forall i, p, q | 0 <= i < n + 1 && core <= p < TABLE_SIZE && 0 <= q < |new_[p - core]|
        && ExtraCover(lens, i, p, q, max)
      ensures new_[p - core][q] == Entry(lens[i], i)
    {
      ExtraSlots(lens, n, p, q, max);
      if ExtraCover(lens, n, p, q, max) { ExtraUnique(lens, i, n, p, q, max); }
    }
  }

  // ----- from slots to lookaheads ------------------------------------------------------------

  ghost predicate Finished(h: Table, lens: seq<nat>) {
    && 0 < h.maxbits <= MAX_TREE_PATH_LEN
    && (forall i :: 0 <= i < |lens| ==> lens[i] <= h.maxbits)
    && DirectDone(h.table, lens, |lens|)
    && (h.maxbits > TABLE_BITS ==>
          RowsNumbered(h.table, Core(lens)) && ExtraDone(h.extra, lens, |lens|, Core(lens), h.maxbits))
  }

  lemma FinishedShort(h: Table, lens: seq<nat>, look: seq<bool>, i: nat)
    requires |lens| <= MAX_SYMBOLS && DirectDone(h.table, lens, |lens|)
    requires |look| == MAX_TREE_PATH_LEN && Decodes(lens, look, i) && lens[i] <= TABLE_BITS
    ensures Value(look[..TABLE_BITS]) < |h.table| && h.table[Value(look[..TABLE_BITS])] == Entry(lens[i], i)
  {
    Pow2Values();
    ToBitsOfValue(look[..TABLE_BITS]);
    assert Codeword(lens, i) <= look[..TABLE_BITS];
    assert DirectCover(lens, i, Value(look[..TABLE_BITS]));
  }

  lemma FinishedLong(h: Table, lens: seq<nat>, look: seq<bool>, i: nat)
    requires |lens| <= MAX_SYMBOLS && Complete(lens) && Finished(h, lens)
    requires |look| == MAX_TREE_PATH_LEN && Decodes(lens, look, i) && lens[i] > TABLE_BITS
    ensures var t, q := Value(look[..TABLE_BITS]), Value(look[TABLE_BITS..h.maxbits]);
            && Core(lens) <= t < |h.table| && h.table[t] == t - Core(lens) < |h.extra|
            && q < |h.extra[t - Core(lens)]| && h.extra[t - Core(lens)][q] == Entry(lens[i], i)
  {
    hide Shl, Pow2, First, Count, Kraft, Code, Value, ToBits, Codeword, Core, Entry;
    Pow2Values();
    var max := h.maxbits;
    var a, b := look[..TABLE_BITS], look[TABLE_BITS..max];
    ShortIffBelowCore(lens, look, i);
    ToBitsOfValue(a);
    ToBitsOfValue(b);
    assert a + b == look[..max];
    assert Codeword(lens, i) <= look[..max];
    assert ExtraCover(lens, i, Value(a), Value(b), max);
  }

  lemma FinishedLookup(h: Table, lens: seq<nat>, look: seq<bool>, i: nat)
    requires |lens| <= MAX_SYMBOLS && Complete(lens) && Finished(h, lens)
    requires |look| == MAX_TREE_PATH_LEN && Decodes(lens, look, i)
    ensures Lookup(h, look) == Some(Entry(lens[i], i))
  {
    hide Shl, Pow2, First, Count, Kraft, Code, Value, ToBits, Codeword, Core, Entry;
    EntryParts(lens[i], i);
    if lens[i] <= TABLE_BITS {
      FinishedShort(h, lens, look, i);
    } else {
      FinishedLong(h, lens, look, i);
    }
  }

  lemma FinishedTable(h: Table, lens: seq<nat>)
    requires |lens| <= MAX_SYMBOLS && Complete(lens) && Finished(h, lens)
    requires h.maxbits <= TABLE_BITS ==> h.extra == []
    ensures TableFor(h, lens) && Filled(h)
  {
    CompleteNotAllZero(lens);
    forall look: seq<bool>, i: nat | |look| == MAX_TREE_PATH_LEN && Decodes(lens, look, i)
      ensures Lookup(h, look) == Some(Entry(lens[i], i))
    {
      FinishedLookup(h, lens, look, i);
    }
    forall t | 0 <= t < |h.table| ensures h.table[t] >= 512 || h.table[t] < |h.extra| {
      DirectFilled(h, lens, t);
    }
    forall e, q | 0 <= e < |h.extra| && 0 <= q < |h.extra[e]| ensures h.extra[e][q] >= 512 {
      ExtraFilled(h, lens, e, q);
    }
  }

  lemma DirectFilled(h: Table, lens: seq<nat>, t: nat)
    requires |lens| <= MAX_SYMBOLS && Complete(lens) && Finished(h, lens) && t < TABLE_SIZE
    ensures h.table[t] >= 512 || h.table[t] < |h.extra|
  {
    hide Shl, Pow2, First, Count, Kraft, Code, Value, ToBits, Codeword, Core, Entry;
    Pow2Values();
    var look := Lookahead(ToBits(t, TABLE_BITS));
    assert look[..TABLE_BITS] == ToBits(t, TABLE_BITS);
    ValueOfToBits(t, TABLE_BITS);
    var i := SomeSymbol(lens, look);
    EntryParts(lens[i], i);
    FinishedLookup(h, lens, look, i);
  }

  lemma ExtraFilled(h: Table, lens: seq<nat>, e: nat, q: nat)
    requires |lens| <= MAX_SYMBOLS && Complete(lens) && Finished(h, lens)
    requires h.maxbits > TABLE_BITS && e < |h.extra| && q < |h.extra[e]|
    ensures h.extra[e][q] >= 512
  {
    hide Shl, Pow2, First, Count, Kraft, Code, Value, ToBits, Codeword, Core, Entry;
    Pow2Values();
    var p := Core(lens) + e;
    var i := OverflowSymbol(lens, p, q, h.maxbits);
    EntryParts(lens[i], i);
  }

  /** Every row slot belongs to some long code. */
  lemma OverflowSymbol(lens: seq<nat>, p: nat, q: nat, max: nat) returns (i: nat)
    requires Complete(lens) && TABLE_BITS < max <= MAX_TREE_PATH_LEN
    requires forall j :: 0 <= j < |lens| ==> lens[j] <= max
    requires Core(lens) <= p < TABLE_SIZE
    ensures ExtraCover(lens, i, p, q, max)
  {
    hide Shl, Pow2, First, Count, Kraft, Code, Value, ToBits, Codeword, Core;
    Pow2Values();
    var a, b := ToBits(p, TABLE_BITS), ToBits(q, max - TABLE_BITS);
    var look := Lookahead(a + b);
    assert look[..TABLE_BITS] == a;
    assert look[..max] == a + b;
    ValueOfToBits(p, TABLE_BITS);
    i := SomeSymbol(lens, look);
    ShortIffBelowCore(lens, look, i);
    assert Codeword(lens, i) <= look[..max];
  }

  // ----- building ------------------------------------------------------------------------------

  method CountLengths(lens: seq<nat>) returns (ok: bool, count: array<nat>, max: nat)
    ensures fresh(count) && count.Length == MAX_TREE_PATH_LEN + 1
    ensures ok <==> LengthsOk(lens)
    ensures ok ==> max <= MAX_TREE_PATH_LEN && (max == 0 <==> AllZero(lens))
    ensures ok ==> forall i :: 0 <= i < |lens| ==> lens[i] <= max
    ensures ok ==> forall l :: 0 <= l <= MAX_TREE_PATH_LEN ==> count[l] == Count(lens, l)
  {
    count := new nat[MAX_TREE_PATH_LEN + 1](_ => 0);
    max := 0;
    for i := 0 to |lens|
      invariant fresh(count) && count.Length == MAX_TREE_PATH_LEN + 1
      invariant forall j :: 0 <= j < i ==> lens[j] <= max
      invariant max <= MAX_TREE_PATH_LEN
      invariant max == 0 <==> forall j :: 0 <= j < i ==> lens[j] == 0
      invariant forall l :: 0 <= l <= MAX_TREE_PATH_LEN ==> count[l] == Count(lens[..i], l)
    {
      if lens[i] > MAX_TREE_PATH_LEN {
        ok := false;
        return;
      }
      count[lens[i]] := count[lens[i]] + 1;
      max := if max >= lens[i] then max else lens[i];
      assert lens[..i + 1][..i] == lens[..i];
    }
    assert lens[..|lens|] == lens;
    ok := true;
  }

  method FirstCodes(lens: seq<nat>, count: array<nat>, max: nat) returns (first: array<nat>, code: nat)
    requires 1 <= max <= MAX_TREE_PATH_LEN && count.Length == MAX_TREE_PATH_LEN + 1
    requires forall l :: 0 <= l <= MAX_TREE_PATH_LEN ==> count[l] == Count(lens, l)
    ensures fresh(first) && first.Length == MAX_TREE_PATH_LEN + 1
    ensures forall l :: 1 <= l <= max ==> first[l] == First(lens, l)
    ensures code == First(lens, max) + Count(lens, max)
  {
    hide First, Count;
    FirstNext(lens, 1);
    first := new nat[MAX_TREE_PATH_LEN + 1];
    code := 0;
    for i := 1 to max + 1
      invariant fresh(first) && first.Length == MAX_TREE_PATH_LEN + 1
      invariant forall l :: 1 <= l < i ==> first[l] == First(lens, l)
      invariant 2 * code == First(lens, i)
    {
      FirstNext(lens, i);
      code := 2 * code;
      first[i] := code;
      code := code + count[i];
    }
    FirstNext(lens, max);
  }

  lemma FirstNext(lens: seq<nat>, l: nat)
    requires l >= 1
    ensures First(lens, 1) == 0
    ensures First(lens, l + 1) == 2 * (First(lens, l) + Count(lens, l))
  {
  }

  method FillDirect(table: array<nat>, from: nat, n: nat, value: nat)
    requires from + n <= table.Length
    modifies table
    ensures forall t :: 0 <= t < table.Length ==>
              table[t] == if from <= t < from + n then value else old(table[t])
  {
    for j := 0 to n
      invariant forall t :: 0 <= t < table.Length ==>
                  table[t] == if from <= t < from + j then value else old(table[t])
    {
      table[from + j] := value;
    }
  }

  method FillRow(row: seq<nat>, from: nat, n: nat, value: nat) returns (r: seq<nat>)
    requires from + n <= |row|
    ensures |r| == |row|
    ensures forall t :: 0 <= t < |row| ==> r[t] == if from <= t < from + n then value else row[t]
  {
    r := row;
    for j := 0 to n
      invariant |r| == |row|
      invariant forall t :: 0 <= t < |row| ==> r[t] == if from <= t < from + j then value else row[t]
    {
      r := r[from + j := value];
    }
  }

  /** The rows for long codes, all empty, and their numbers in the direct table. */
  method NumberRows(table: array<nat>, lens: seq<nat>, core: nat, max: nat) returns (extra: seq<seq<nat>>)
    requires table.Length == TABLE_SIZE && TABLE_BITS < max && core <= TABLE_SIZE
    modifies table
    ensures RowsNumbered(table[..], core)
    ensures RowsShaped(extra, core, max)
  {
    extra := seq(TABLE_SIZE - core, _ => seq(Pow2(max - TABLE_BITS), _ => 0));
    for code := core to TABLE_SIZE
      invariant forall t :: core <= t < code ==> table[t] == t - core
    {
      table[code] := code - core;
    }
  }

  /** Enters one symbol, as one turn of the last loop of `build_table`. */
  method EnterSymbol(table: array<nat>, extra: seq<seq<nat>>, lens: seq<nat>, n: nat, code: nat, max: nat)
    returns (extra': seq<seq<nat>>)
    requires |lens| <= MAX_SYMBOLS && Complete(lens) && n < |lens| && 0 < lens[n] <= max <= MAX_TREE_PATH_LEN
    requires code == Code(lens, n)
    requires table.Length == TABLE_SIZE && DirectDone(table[..], lens, n)
    requires max > TABLE_BITS ==> RowsNumbered(table[..], Core(lens)) && ExtraDone(extra, lens, n, Core(lens), max)
    modifies table
    ensures DirectDone(table[..], lens, n + 1)
    ensures max > TABLE_BITS ==> RowsNumbered(table[..], Core(lens)) && ExtraDone(extra', lens, n + 1, Core(lens), max)
    ensures max <= TABLE_BITS ==> extra' == extra
  {
    hide Shl, Pow2, First, Count, Kraft, Code, Low, Shr, Core, Entry;
    var cl := lens[n];
    var value := Entry(cl, n);
    ghost var before := table[..];
    extra' := extra;
    if cl <= TABLE_BITS {
      var extended := Shl(code, TABLE_BITS - cl);
      ShortSlotsFit(lens, n);
      FillDirect(table, extended, Pow2(TABLE_BITS - cl), value);
      DirectStep(lens, n, before, table[..]);
    } else {
      var prefix := Shr(code, cl - TABLE_BITS);
      var suffix := Low(code, cl - TABLE_BITS);
      var extended := Shl(suffix, max - cl);
      LongPrefix(lens, n);
      LongSuffix(lens, n, max);
      var index := table[prefix];
      assert table[..][prefix] == prefix - Core(lens);
      var row := FillRow(extra[index], extended, Pow2(max - cl), value);
      extra' := extra[index := row];
      ExtraStep(lens, n, extra, row, max);
    }
  }

  lemma ZeroStepDirect(table: seq<nat>, lens: seq<nat>, n: nat)
    requires n < |lens| && lens[n] == 0 && DirectDone(table, lens, n)
    ensures DirectDone(table, lens, n + 1)
  {
  }

  lemma ZeroStepExtra(extra: seq<seq<nat>>, lens: seq<nat>, n: nat, core: nat, max: nat)
    requires n < |lens| && lens[n] == 0 && ExtraDone(extra, lens, n, core, max)
    ensures ExtraDone(extra, lens, n + 1, core, max)
  {
  }

  method FillTables(lens: seq<nat>, first: array<nat>, max: nat) returns (h: Table)
    requires |lens| <= MAX_SYMBOLS && Complete(lens) && 1 <= max <= MAX_TREE_PATH_LEN
    requires forall i :: 0 <= i < |lens| ==> lens[i] <= max
    requires first.Length == MAX_TREE_PATH_LEN + 1
    requires forall l :: 1 <= l <= max ==> first[l] == First(lens, l)
    modifies first
    ensures h.maxbits == max && Finished(h, lens)
    ensures max <= TABLE_BITS ==> h.extra == []
  {
    hide Shl, Pow2, First, Kraft, Entry;
    var table := new nat[TABLE_SIZE];
    var extra: seq<seq<nat>> := [];
    if max > TABLE_BITS {
      CoreBound(lens);
      extra := NumberRows(table, lens, first[TABLE_BITS + 1] / 2, max);
    }
    for i := 0 to |lens|
      invariant table.Length == TABLE_SIZE && first != table
      invariant forall l :: 1 <= l <= max ==> first[l] == First(lens, l) + Count(lens[..i], l)
      invariant DirectDone(table[..], lens, i)
      invariant max > TABLE_BITS ==> RowsNumbered(table[..], Core(lens)) && ExtraDone(extra, lens, i, Core(lens), max)
      invariant max <= TABLE_BITS ==> extra == []
    {
      CountNext(lens, i);
      if lens[i] == 0 {
        ZeroStepDirect(table[..], lens, i);
        if max > TABLE_BITS { ZeroStepExtra(extra, lens, i, Core(lens), max); }
      } else {
        var c := first[lens[i]];
        first[lens[i]] := c + 1;
        extra := EnterSymbol(table, extra, lens, i, c, max);
      }
    }
    h := Table(extra, max, table[..]);
  }

  lemma CountNext(lens: seq<nat>, i: nat)
    requires i < |lens|
    ensures forall l :: Count(lens[..i + 1], l) == Count(lens[..i], l) + if lens[i] == l then 1 else 0
  {
    assert lens[..i + 1][..i] == lens[..i];
  }

  /**
   `build_table`.  It accepts exactly the all-zero lengths and the lengths that satisfy Kraft's
   equality, and the tables it then returns are completely filled and send every 16-bit
   lookahead to the one symbol whose canonical code starts it.
   */
  method BuildTable(lens: seq<nat>) returns (r: Option<Table>)
    requires |lens| <= MAX_SYMBOLS
    ensures r.Some? <==> LengthsOk(lens) && (AllZero(lens) || Complete(lens))
    ensures r.Some? ==> TableFor(r.value, lens)
    ensures r.Some? && !AllZero(lens) ==> Filled(r.value)
  {
    var ok, count, max := CountLengths(lens);
    if !ok {
      return None;
    }
    if max == 0 {
      KraftZero(lens);
      return Some(Table([], 0, seq(TABLE_SIZE, _ => 0)));
    }
    var first, code := FirstCodes(lens, count, max);
    AcceptanceIsKraft(lens, max);
    if code != Pow2(max) {
      return None;
    }
    var h := FillTables(lens, first, max);
    FinishedTable(h, lens);
    return Some(h);
  }

  lemma CoreBound(lens: seq<nat>)
    requires Complete(lens)
    ensures Core(lens) <= TABLE_SIZE
  {
    Pow2Values();
    CoreIsUsed(lens);
    KraftIsUsed(lens);
    UsedMonotone(lens, TABLE_BITS + 1, MAX_TREE_PATH_LEN + 1);
    Pow2Shifted(TABLE_BITS);
    ShlOrder(Core(lens), TABLE_SIZE, 7);
  }
}
