/** Big-endian numbers in byte strings, and overwriting part of a byte string. */
module Endian {
  import opened Common

  function Pow256(n: nat): (r: nat)
    ensures r > 0
  {
    if n == 0 then 1 else 256 * Pow256(n - 1)
  }

  lemma Pow256Values()
    ensures Pow256(1) == 0x100 && Pow256(2) == 0x1_0000 && Pow256(4) == 0x1_0000_0000
    ensures Pow256(8) == 0x1_0000_0000_0000_0000
  {
    assert Pow256(4) == 0x1_0000_0000;
    assert Pow256(6) == 0x1_0000_0000_0000;
  }

  /** `to_be_bytes`, in n bytes. */
  function Be(v: nat, n: nat): (b: seq<byte>)
    ensures |b| == n
  {
    if n == 0 then [] else Be(v / 256, n - 1) + [v % 256]
  }

  /** `from_be_bytes`. */
  function FromBe(b: seq<byte>): nat {
    if b == [] then 0 else 256 * FromBe(b[..|b| - 1]) + b[|b| - 1]
  }

  lemma {:induction false} FromBeOfBe(v: nat, n: nat)
    requires v < Pow256(n)
    ensures FromBe(Be(v, n)) == v
  {
    if n > 0 {
      FromBeOfBe(v / 256, n - 1);
      assert Be(v, n)[..n - 1] == Be(v / 256, n - 1);
    }
  }

  lemma {:induction false} BeOfFromBe(b: seq<byte>)
    ensures FromBe(b) < Pow256(|b|) && Be(FromBe(b), |b|) == b
  {
    if b != [] { BeOfFromBe(b[..|b| - 1]); }
  }

  /** `bytes[off..off + data.len()].copy_from_slice(data)`. */
  function Put(bytes: seq<byte>, off: nat, data: seq<byte>): (r: seq<byte>)
    requires off + |data| <= |bytes|
    ensures |r| == |bytes|
  {
    bytes[..off] + data + bytes[off + |data|..]
  }

  lemma PutReads(bytes: seq<byte>, off: nat, data: seq<byte>)
    requires off + |data| <= |bytes|
    ensures Put(bytes, off, data)[off..off + |data|] == data
  {
  }

  lemma PutKeeps(bytes: seq<byte>, off: nat, data: seq<byte>, from: nat, to: nat)
    requires off + |data| <= |bytes| && from <= to <= |bytes| && (to <= off || off + |data| <= from)
    ensures Put(bytes, off, data)[from..to] == bytes[from..to]
  {
  }

  lemma PutAppend(image: seq<byte>, off: nat, a: seq<byte>, b: seq<byte>)
    requires off + |a| + |b| <= |image|
    ensures Put(Put(image, off, a), off + |a|, b) == Put(image, off, a + b)
  {
  }

  lemma PutNothing(image: seq<byte>, at: nat)
    requires at <= |image|
    ensures Put(image, at, []) == image
  {
  }
}
