/** Fixed records of big-endian fields: what `serialize` puts at an offset, `parse` finds there. */
module DiskRecord {
  import opened Common
  import opened Endian

  datatype Field = Field(off: nat, width: nat)

  /** n fields in increasing order, inside the first `size` bytes. */
  ghost predicate LayoutOk(layout: nat -> Field, n: nat, size: nat) {
    && (forall k: nat :: k < n ==> layout(k).off + layout(k).width <= size)
    && (forall j: nat, k: nat :: j < k < n ==> layout(j).off + layout(j).width <= layout(k).off)
  }

  lemma {:induction false} Ordered(layout: nat -> Field, n: nat, size: nat)
    requires forall k: nat :: k + 1 < n ==> layout(k).off + layout(k).width <= layout(k + 1).off
    requires n > 0 && layout(n - 1).off + layout(n - 1).width <= size
    ensures LayoutOk(layout, n, size)
    decreases n
  {
    if n > 1 {
      assert layout(n - 2).off + layout(n - 2).width <= layout(n - 2 + 1).off;
      Ordered(layout, n - 1, layout(n - 1).off);
    }
  }

  /** Fields 0..n written, in order, over the bytes that were there. */
  function Serialize(layout: nat -> Field, n: nat, numbers: nat -> nat, bytes: seq<byte>): (r: seq<byte>)
    requires LayoutOk(layout, n, |bytes|)
    ensures |r| == |bytes|
    decreases n
  {
    if n == 0 then bytes
    else Put(Serialize(layout, n - 1, numbers, bytes), layout(n - 1).off, Be(numbers(n - 1), layout(n - 1).width))
  }

  function ReadField(f: Field, bytes: seq<byte>): nat
    requires f.off + f.width <= |bytes|
  {
    FromBe(bytes[f.off..f.off + f.width])
  }

  ghost predicate Clear(layout: nat -> Field, n: nat, from: nat, to: nat) {
    forall k: nat :: k < n ==> to <= layout(k).off || layout(k).off + layout(k).width <= from
  }

  /** Bytes outside every field stay as they were. */
  lemma {:induction false} SerializeKeeps(
      layout: nat -> Field, n: nat, numbers: nat -> nat, bytes: seq<byte>, from: nat, to: nat)
    requires LayoutOk(layout, n, |bytes|) && from <= to <= |bytes| && Clear(layout, n, from, to)
    ensures Serialize(layout, n, numbers, bytes)[from..to] == bytes[from..to]
    decreases n
  {
    hide Put, Be;
    if n > 0 {
      SerializeKeeps(layout, n - 1, numbers, bytes, from, to);
      PutKeeps(Serialize(layout, n - 1, numbers, bytes), layout(n - 1).off, Be(numbers(n - 1), layout(n - 1).width),
          from, to);
    }
  }

  /** Every field reads back, if its number fits its width. */
  lemma {:induction false} SerializeReads(layout: nat -> Field, n: nat, numbers: nat -> nat, bytes: seq<byte>, k: nat)
    requires LayoutOk(layout, n, |bytes|) && k < n && numbers(k) < Pow256(layout(k).width)
    ensures layout(k).off + layout(k).width <= |bytes|
    ensures ReadField(layout(k), Serialize(layout, n, numbers, bytes)) == numbers(k)
    decreases n
  {
    hide Put, Be, FromBe, Pow256;
    var f := layout(n - 1);
    var before := Serialize(layout, n - 1, numbers, bytes);
    if k == n - 1 {
      PutReads(before, f.off, Be(numbers(k), f.width));
      FromBeOfBe(numbers(k), f.width);
    } else {
      SerializeReads(layout, n - 1, numbers, bytes, k);
      PutKeeps(before, f.off, Be(numbers(n - 1), f.width), layout(k).off, layout(k).off + layout(k).width);
    }
  }
}
