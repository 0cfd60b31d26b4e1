/** The on-disk inode and the extent record in its fork. */
module DiskInode {
  import opened Common
  import opened Bits
  import opened Endian
  import opened DiskRecord

  /** The inode number of the root directory. */
  const ROOT_INO: nat := 64

  const XFS_DINODE_MAGIC: nat := 0x494e
  const XFS_DINODE_SIZE_V3: nat := 176
  const XFS_DINODE_CRC_OFF: nat := 100

  datatype InodeFormat = Dev | Local | Extents | Btree | Uuid

  function FormatOf(v: nat): InodeFormat {
    match v case 0 => Dev case 1 => Local case 2 => Extents case 3 => Btree case _ => Uuid
  }

  function FormatNumber(f: InodeFormat): nat {
    match f case Dev => 0 case Local => 1 case Extents => 2 case Btree => 3 case Uuid => 4
  }

  datatype Time = Time(seconds: int, nanos: nat)

  datatype Inode = Inode(
    magic: nat, mode: nat, version: nat, format: InodeFormat, onlink: nat, uid: nat, gid: nat, nlink: nat, projid: nat,
    flushiter: nat, atime: Time, mtime: Time, ctime: Time, size: int, nblocks: nat, extsize: nat, nextents: nat,
    anextents: nat, forkoff: nat, aformat: InodeFormat, dmevmask: nat, dmstate: nat, flags: nat, generation: nat,
    nextUnlinked: nat, changeCount: nat, lsn: nat, flags2: nat, cowextsize: nat, crtime: Time, ino: nat,
    uuid: seq<byte>)

  /** `as u32` and `as i32`. */
  function Unsigned32(v: int): int { if v < 0 then v + 0x1_0000_0000 else v }
  function Signed32(v: nat): int { if v >= 0x8000_0000 then v - 0x1_0000_0000 else v }

  /** `as u64` and `as i64`. */
  function Unsigned64(v: int): int { if v < 0 then v + 0x1_0000_0000_0000_0000 else v }
  function Signed64(v: nat): int { if v >= 0x8000_0000_0000_0000 then v - 0x1_0000_0000_0000_0000 else v }

  const INODE_FIELDS: nat := 39

  /** Offsets and widths; fields 10 and 34 are padding, and the checksum at 100 is not a field. */
  function InodeLayout(k: nat): Field {
    match k
    case 0 => Field(0, 2) case 1 => Field(2, 2) case 2 => Field(4, 1) case 3 => Field(5, 1)
    case 4 => Field(6, 2) case 5 => Field(8, 4) case 6 => Field(12, 4) case 7 => Field(16, 4)
    case 8 => Field(20, 2) case 9 => Field(22, 2) case 10 => Field(24, 6) case 11 => Field(30, 2)
    case 12 => Field(32, 4) case 13 => Field(36, 4) case 14 => Field(40, 4) case 15 => Field(44, 4)
    case 16 => Field(48, 4) case 17 => Field(52, 4) case 18 => Field(56, 8) case 19 => Field(64, 8)
    case 20 => Field(72, 4) case 21 => Field(76, 4) case 22 => Field(80, 2) case 23 => Field(82, 1)
    case 24 => Field(83, 1) case 25 => Field(84, 4) case 26 => Field(88, 2) case 27 => Field(90, 2)
    case 28 => Field(92, 4) case 29 => Field(96, 4) case 30 => Field(104, 8) case 31 => Field(112, 8)
    case 32 => Field(120, 8) case 33 => Field(128, 4) case 34 => Field(132, 12) case 35 => Field(144, 4)
    case 36 => Field(148, 4) case 37 => Field(152, 8) case 38 => Field(160, 16)
    case _ => Field(176, 0)
  }

  /** What `serialize` writes in each field. */
  function InodeNumber(i: Inode, k: nat): int {
    match k
    case 0 => i.magic case 1 => i.mode case 2 => i.version case 3 => FormatNumber(i.format) case 4 => i.onlink
    case 5 => i.uid case 6 => i.gid case 7 => i.nlink case 8 => i.projid % 0x1_0000
    case 9 => i.projid / 0x1_0000 case 10 => 0 case 11 => i.flushiter case 12 => Unsigned32(i.atime.seconds)
    case 13 => i.atime.nanos case 14 => Unsigned32(i.mtime.seconds) case 15 => i.mtime.nanos
    case 16 => Unsigned32(i.ctime.seconds) case 17 => i.ctime.nanos case 18 => Unsigned64(i.size)
    case 19 => i.nblocks case 20 => i.extsize case 21 => i.nextents case 22 => i.anextents
    case 23 => i.forkoff case 24 => FormatNumber(i.aformat) case 25 => i.dmevmask case 26 => i.dmstate
    case 27 => i.flags case 28 => i.generation case 29 => i.nextUnlinked case 30 => i.changeCount
    case 31 => i.lsn case 32 => i.flags2 case 33 => i.cowextsize case 34 => 0
    case 35 => Unsigned32(i.crtime.seconds) case 36 => i.crtime.nanos case 37 => i.ino
    case 38 => FromBe(i.uuid)
    case _ => 0
  }

  /** Every field is within the range of its Rust type. */
  ghost predicate InodeOk(i: Inode) {
    && (forall k: nat :: k < INODE_FIELDS ==> 0 <= InodeNumber(i, k) < Pow256(InodeLayout(k).width))
    && TimeOk(i.atime) && TimeOk(i.mtime) && TimeOk(i.ctime) && TimeOk(i.crtime)
    && -0x8000_0000_0000_0000 <= i.size < 0x8000_0000_0000_0000
    && |i.uuid| == 16
  }

  predicate TimeOk(t: Time) {
    -0x8000_0000 <= t.seconds < 0x8000_0000
  }

  lemma InodeLayoutOk(size: nat)
    requires size >= XFS_DINODE_SIZE_V3
    ensures LayoutOk(InodeLayout, INODE_FIELDS, size)
  {
    Ordered(InodeLayout, INODE_FIELDS, size);
  }

  /** `Inode::serialize`. */
  function SerializeInode(i: Inode, bytes: seq<byte>): (r: seq<byte>)
    requires |bytes| >= XFS_DINODE_SIZE_V3
    ensures |r| == |bytes|
  {
    InodeLayoutOk(|bytes|);
    Serialize(InodeLayout, INODE_FIELDS, k => if InodeNumber(i, k) >= 0 then InodeNumber(i, k) else 0, bytes)
  }

  datatype ParseError = BufferTooSmall | InvalidMagic | InvalidField | CrcMismatch

  function At(bytes: seq<byte>, k: nat): nat
    requires k < INODE_FIELDS && |bytes| >= XFS_DINODE_SIZE_V3
  {
    ReadField(InodeLayout(k), bytes)
  }

  /** `Inode::parse`; the checksum bytes are left to the checksum code. */
  function ParseInode(bytes: seq<byte>): Result<Inode, ParseError> {
    if |bytes| < XFS_DINODE_SIZE_V3 then Err(BufferTooSmall)
    else if At(bytes, 0) != XFS_DINODE_MAGIC then Err(InvalidMagic)
    else Ok(Inode(
        At(bytes, 0), At(bytes, 1), At(bytes, 2), FormatOf(At(bytes, 3)), At(bytes, 4), At(bytes, 5), At(bytes, 6),
        At(bytes, 7), At(bytes, 9) * 0x1_0000 + At(bytes, 8), At(bytes, 11),
        Time(Signed32(At(bytes, 12)), At(bytes, 13)), Time(Signed32(At(bytes, 14)), At(bytes, 15)),
        Time(Signed32(At(bytes, 16)), At(bytes, 17)), Signed64(At(bytes, 18)),
        At(bytes, 19), At(bytes, 20), At(bytes, 21), At(bytes, 22), At(bytes, 23), FormatOf(At(bytes, 24)),
        At(bytes, 25), At(bytes, 26), At(bytes, 27), At(bytes, 28), At(bytes, 29), At(bytes, 30), At(bytes, 31),
        At(bytes, 32), At(bytes, 33), Time(Signed32(At(bytes, 35)), At(bytes, 36)), At(bytes, 37), bytes[160..176]))
  }

  lemma InodeFieldReads(i: Inode, bytes: seq<byte>, k: nat)
    requires |bytes| >= XFS_DINODE_SIZE_V3 && InodeOk(i) && k < INODE_FIELDS
    ensures At(SerializeInode(i, bytes), k) == InodeNumber(i, k)
  {
    hide InodeLayout, InodeNumber, Serialize, ReadField, Pow256;
    InodeLayoutOk(|bytes|);
    SerializeReads(InodeLayout, INODE_FIELDS, k => if InodeNumber(i, k) >= 0 then InodeNumber(i, k) else 0, bytes, k);
  }

  /** Parsing what was serialized gives the inode back; a wrong magic number is the one refusal. */
  lemma InodeRoundTrip(i: Inode, bytes: seq<byte>)
    requires |bytes| >= XFS_DINODE_SIZE_V3 && InodeOk(i)
    ensures ParseInode(SerializeInode(i, bytes)) == if i.magic == XFS_DINODE_MAGIC then Ok(i) else Err(InvalidMagic)
  {
    hide InodeLayout, SerializeInode, FromBe, InodeOk;
    var s := SerializeInode(i, bytes);
    forall k: nat | k < INODE_FIELDS ensures At(s, k) == InodeNumber(i, k) { InodeFieldReads(i, bytes, k); }
    assert i.uuid == s[160..176] by { UuidReads(i, bytes); }
    InodeRanges(i);
    FormatInverse(i.format);
    FormatInverse(i.aformat);
    SignInverse(i);
  }

  lemma UuidReads(i: Inode, bytes: seq<byte>)
    requires |bytes| >= XFS_DINODE_SIZE_V3 && InodeOk(i)
    ensures SerializeInode(i, bytes)[160..176] == i.uuid
  {
    hide FromBe, SerializeInode, Pow256;
    InodeFieldReads(i, bytes, 38);
    BeOfFromBe(i.uuid);
    BeOfFromBe(SerializeInode(i, bytes)[160..176]);
  }

  lemma InodeRanges(i: Inode)
    requires InodeOk(i)
    ensures TimeOk(i.atime) && TimeOk(i.mtime) && TimeOk(i.ctime) && TimeOk(i.crtime)
    ensures -0x8000_0000_0000_0000 <= i.size < 0x8000_0000_0000_0000
  {
  }

  lemma FormatInverse(f: InodeFormat)
    ensures FormatOf(FormatNumber(f)) == f
  {
  }

  lemma SignInverse(i: Inode)
    requires TimeOk(i.atime) && TimeOk(i.mtime) && TimeOk(i.ctime) && TimeOk(i.crtime)
    requires -0x8000_0000_0000_0000 <= i.size < 0x8000_0000_0000_0000
    ensures Unsigned64(i.size) >= 0 && Signed64(Unsigned64(i.size)) == i.size
    ensures forall t <- {i.atime, i.mtime, i.ctime, i.crtime} ::
              Unsigned32(t.seconds) >= 0 && Signed32(Unsigned32(t.seconds)) == t.seconds
  {
  }

  lemma FieldPlace(k: nat)
    requires k < INODE_FIELDS
    ensures var f := InodeLayout(k); f.off + f.width <= 100 || (104 <= f.off && f.off + f.width <= 176)
  {
  }

  lemma SubSlice(a: seq<byte>, b: seq<byte>, lo: nat, hi: nat, from: nat, to: nat)
    requires lo <= from <= to <= hi <= |a| && hi <= |b| && a[lo..hi] == b[lo..hi]
    ensures a[from..to] == b[from..to]
  {
    forall k | from <= k < to ensures a[k] == b[k] {
      assert a[k] == a[lo..hi][k - lo] && b[k] == b[lo..hi][k - lo];
    }
  }

  /** Parsing looks neither at the checksum nor at the fork. */
  lemma ParseSame(a: seq<byte>, b: seq<byte>)
    requires |a| >= XFS_DINODE_SIZE_V3 && |b| >= XFS_DINODE_SIZE_V3
    requires a[0..100] == b[0..100] && a[104..176] == b[104..176]
    ensures ParseInode(a) == ParseInode(b)
  {
    hide FromBe, InodeLayout;
    forall k: nat | k < INODE_FIELDS ensures At(a, k) == At(b, k) {
      var f := InodeLayout(k);
      FieldPlace(k);
      if f.off + f.width <= 100 {
        SubSlice(a, b, 0, 100, f.off, f.off + f.width);
      } else {
        SubSlice(a, b, 104, 176, f.off, f.off + f.width);
      }
    }
    SubSlice(a, b, 104, 176, 160, 176);
  }

  // ----- extent records -------------------------------------------------------------------------------

  datatype BmapExtent = BmapExtent(state: nat, startoff: nat, startblock: nat, blockcount: nat)

  /** `serialize_bmap_extent`: two big-endian words packed from the three numbers. */
  function SerializeExtent(startoff: nat, startblock: nat, blockcount: nat): (r: seq<byte>)
    ensures |r| == 16
  {
    Be(Or(Shl(startoff, 9), Low(Shr(startblock, 43), 9)), 8) + Be(Or(Shl(Low(startblock, 43), 21), blockcount), 8)
  }

  /** `BmapExtent::parse`. */
  function ParseExtent(bytes: seq<byte>): Result<BmapExtent, ParseError> {
    if |bytes| < 16 then Err(BufferTooSmall)
    else
      var x0, x1 := FromBe(bytes[0..8]), FromBe(bytes[8..16]);
      Ok(BmapExtent(Shr(x0, 63), Shr(Low(x0, 63), 9), Or(Shl(Low(x0, 9), 43), Shr(x1, 21)), Low(x1, 21)))
  }

  lemma JoinBound(q: nat, r: nat, j: nat, k: nat)
    requires q < Pow2(j) && r < Pow2(k)
    ensures Shl(q, k) + r < Pow2(j + k)
  {
    hide Pow2, Shl;
    ShlOrder(q, Pow2(j), k);
    ShlOne(j);
    ShlOne(j + k);
    ShlTwice(1, j, k);
  }

  lemma {:induction false} Pow256IsPow2(n: nat)
    ensures Pow256(n) == Pow2(8 * n)
  {
    if n > 0 {
      Pow256IsPow2(n - 1);
      assert Pow2(8 * n) == 2 * Pow2(8 * n - 1) == 4 * Pow2(8 * n - 2) == 8 * Pow2(8 * n - 3) == 16 * Pow2(8 * n - 4);
      assert Pow2(8 * n - 4) == 2 * Pow2(8 * n - 5) == 4 * Pow2(8 * n - 6) == 8 * Pow2(8 * n - 7)
          == 16 * Pow2(8 * n - 8);
    }
  }

  lemma BeWord(x: nat)
    requires x < Pow2(64)
    ensures FromBe(Be(x, 8)) == x
  {
    hide Pow2, Pow256, Be, FromBe;
    Pow256IsPow2(8);
    FromBeOfBe(x, 8);
  }

  /** The high word: the file offset above nine bits of the block number. */
  lemma HighWord(startoff: nat, startblock: nat)
    requires startoff < Pow2(54) && startblock < Pow2(52)
    ensures var x0 := Or(Shl(startoff, 9), Low(Shr(startblock, 43), 9));
            x0 < Pow2(64) && Shr(x0, 63) == 0 && Shr(Low(x0, 63), 9) == startoff && Low(x0, 9) == Shr(startblock, 43)
  {
    hide Pow2, Shl, Shr, Low, Or;
    var hi := Shr(startblock, 43);
    TopBits(startblock);
    LowSmall(hi, 9);
    OrDisjoint(startoff, hi, 9);
    var x0 := Shl(startoff, 9) + hi;
    JoinBound(startoff, hi, 54, 9);
    LowSmall(x0, 63);
    Pow2Monotone(63, 64);
    SplitUnique(startoff, hi, 9);
  }

  lemma TopBits(startblock: nat)
    requires startblock < Pow2(52)
    ensures Shr(startblock, 43) < Pow2(9)
  {
    hide Pow2, Shl, Shr, Low;
    ShrLow(startblock, 43);
    ShlOrder(Pow2(9), Shr(startblock, 43), 43);
    ShlOne(9);
    ShlTwice(1, 9, 43);
    ShlOne(52);
  }

  /** The low word: the rest of the block number above the block count. */
  lemma LowWord(startblock: nat, blockcount: nat)
    requires blockcount < Pow2(21)
    ensures var x1 := Or(Shl(Low(startblock, 43), 21), blockcount);
            x1 < Pow2(64) && Shr(x1, 21) == Low(startblock, 43) && Low(x1, 21) == blockcount
  {
    hide Pow2, Shl, Shr, Low, Or;
    OrDisjoint(Low(startblock, 43), blockcount, 21);
    JoinBound(Low(startblock, 43), blockcount, 43, 21);
    SplitUnique(Low(startblock, 43), blockcount, 21);
  }

  /** An extent reads back exactly when its block count fits in 21 bits. */
  lemma ExtentRoundTrip(startoff: nat, startblock: nat, blockcount: nat)
    requires startoff < Pow2(54) && startblock < Pow2(52)
    ensures ParseExtent(SerializeExtent(startoff, startblock, blockcount))
            == Ok(BmapExtent(0, startoff, startblock, blockcount))
            <==> blockcount < Pow2(21)
  {
    hide Pow2, Shl, Shr, Low, Or, Be, FromBe;
    if blockcount < Pow2(21) {
      var x0, x1 := Or(Shl(startoff, 9), Low(Shr(startblock, 43), 9)), Or(Shl(Low(startblock, 43), 21), blockcount);
      var s := SerializeExtent(startoff, startblock, blockcount);
      assert s[0..8] == Be(x0, 8) && s[8..16] == Be(x1, 8);
      HighWord(startoff, startblock);
      LowWord(startblock, blockcount);
      BeWord(x0);
      BeWord(x1);
      OrDisjoint(Shr(startblock, 43), Low(startblock, 43), 43);
      ShrLow(startblock, 43);
    }
  }
}
