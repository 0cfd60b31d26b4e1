/** The superblock on disk. */
module DiskSuperblock {
  import opened Common
  import opened Bits
  import opened Endian
  import opened DiskRecord
  import opened DiskInode

  const XFS_SB_MAGIC: nat := 0x5846_5342
  const XFS_SB_VERSION_5: nat := 5
  const XFS_DSB_SIZE: nat := 304
  const XFS_SB_CRC_OFF: nat := 224

  datatype V5Fields = V5Fields(
    featuresCompat: nat, featuresRoCompat: nat, featuresIncompat: nat, featuresLogIncompat: nat,
    sparseInodeAlign: nat, pquotino: nat, lsn: nat, metaUuid: seq<byte>, metadirino: nat, rgcount: nat,
    rgextents: nat, rgblklog: nat, rtstart: nat, rtreserved: nat)

  /** Every field but the checksum, which module XfsChecksum writes and verifies. */
  datatype Superblock = Superblock(
    blockSize: nat, dblocks: nat, rblocks: nat, rextents: nat, uuid: seq<byte>, logstart: nat, rootino: nat,
    rbmino: nat, rsumino: nat, rextsize: nat, agBlocks: nat, agCount: nat, rbmBlocks: nat, logBlocks: nat,
    version: nat, sectorSize: nat, inodeSize: nat, inodePerBlock: nat, fname: seq<byte>, blockLog: nat,
    sectLog: nat, inodeLog: nat, inopblog: nat, agblklog: nat, rextslog: nat, inprogress: bool, imaxPct: nat,
    icount: nat, ifree: nat, fdblocks: nat, frextents: nat, uquotino: nat, gquotino: nat, qflags: nat,
    flags: nat, sharedVn: nat, inoalignmt: nat, unit: nat, width: nat, logSectorSize: nat, logSunit: nat,
    features2: nat, badFeatures2: nat, v5: Option<V5Fields>)

  const SB_FIELDS: nat := 46
  const SB_V5_FIELDS: nat := 60

  function SbLayout(k: nat): Field {
    match k
    case 0 => Field(0, 4) case 1 => Field(4, 4) case 2 => Field(8, 8) case 3 => Field(16, 8)
    case 4 => Field(24, 8) case 5 => Field(32, 16) case 6 => Field(48, 8) case 7 => Field(56, 8)
    case 8 => Field(64, 8) case 9 => Field(72, 8) case 10 => Field(80, 4) case 11 => Field(84, 4)
    case 12 => Field(88, 4) case 13 => Field(92, 4) case 14 => Field(96, 4) case 15 => Field(100, 2)
    case 16 => Field(102, 2) case 17 => Field(104, 2) case 18 => Field(106, 2) case 19 => Field(108, 12)
    case 20 => Field(120, 1) case 21 => Field(121, 1) case 22 => Field(122, 1) case 23 => Field(123, 1)
    case 24 => Field(124, 1) case 25 => Field(125, 1) case 26 => Field(126, 1) case 27 => Field(127, 1)
    case 28 => Field(128, 8) case 29 => Field(136, 8) case 30 => Field(144, 8) case 31 => Field(152, 8)
    case 32 => Field(160, 8) case 33 => Field(168, 8) case 34 => Field(176, 2) case 35 => Field(178, 1)
    case 36 => Field(179, 1) case 37 => Field(180, 4) case 38 => Field(184, 4) case 39 => Field(188, 4)
    case 40 => Field(192, 1) case 41 => Field(193, 1) case 42 => Field(194, 2) case 43 => Field(196, 4)
    case 44 => Field(200, 4) case 45 => Field(204, 4) case 46 => Field(208, 4) case 47 => Field(212, 4)
    case 48 => Field(216, 4) case 49 => Field(220, 4) case 50 => Field(228, 4) case 51 => Field(232, 8)
    case 52 => Field(240, 8) case 53 => Field(248, 16) case 54 => Field(264, 8) case 55 => Field(272, 4)
    case 56 => Field(276, 4) case 57 => Field(280, 1) case 58 => Field(288, 8) case 59 => Field(296, 8)
    case _ => Field(304, 0)
  }

  function SbNumber(sb: Superblock, k: nat): nat {
    match k
    case 0 => XFS_SB_MAGIC case 1 => sb.blockSize case 2 => sb.dblocks case 3 => sb.rblocks
    case 4 => sb.rextents case 5 => FromBe(sb.uuid) case 6 => sb.logstart case 7 => sb.rootino
    case 8 => sb.rbmino case 9 => sb.rsumino case 10 => sb.rextsize case 11 => sb.agBlocks case 12 => sb.agCount
    case 13 => sb.rbmBlocks case 14 => sb.logBlocks case 15 => sb.version case 16 => sb.sectorSize
    case 17 => sb.inodeSize case 18 => sb.inodePerBlock case 19 => FromBe(sb.fname) case 20 => sb.blockLog
    case 21 => sb.sectLog case 22 => sb.inodeLog case 23 => sb.inopblog case 24 => sb.agblklog
    case 25 => sb.rextslog case 26 => (if sb.inprogress then 1 else 0) case 27 => sb.imaxPct
    case 28 => sb.icount case 29 => sb.ifree case 30 => sb.fdblocks case 31 => sb.frextents
    case 32 => sb.uquotino case 33 => sb.gquotino case 34 => sb.qflags case 35 => sb.flags
    case 36 => sb.sharedVn case 37 => sb.inoalignmt case 38 => sb.unit case 39 => sb.width case 40 => 0
    case 41 => 0 case 42 => sb.logSectorSize case 43 => sb.logSunit case 44 => sb.features2
    case 45 => sb.badFeatures2
    case _ => if sb.v5.Some? then V5Number(sb.v5.value, k) else 0
  }

  function V5Number(v: V5Fields, k: nat): nat {
    match k
    case 46 => v.featuresCompat case 47 => v.featuresRoCompat case 48 => v.featuresIncompat
    case 49 => v.featuresLogIncompat case 50 => v.sparseInodeAlign case 51 => v.pquotino case 52 => v.lsn
    case 53 => FromBe(v.metaUuid) case 54 => v.metadirino case 55 => v.rgcount case 56 => v.rgextents
    case 57 => v.rgblklog case 58 => v.rtstart case 59 => v.rtreserved
    case _ => 0
  }

  function SbCount(sb: Superblock): (n: nat)
    ensures 0 < n <= SB_V5_FIELDS
  {
    if sb.v5.Some? then SB_V5_FIELDS else SB_FIELDS
  }

  /** What the parser can give back: fields in range, no zero sizes, version 5 exactly with its fields. */
  ghost predicate SbOk(sb: Superblock) {
    && (forall k: nat :: k < SbCount(sb) ==> SbNumber(sb, k) < Pow256(SbLayout(k).width))
    && sb.blockSize != 0 && sb.sectorSize != 0 && sb.inodeSize != 0 && sb.version < 16
    && (sb.v5.Some? <==> sb.version == XFS_SB_VERSION_5)
    && |sb.uuid| == 16 && |sb.fname| == 12 && (sb.v5.Some? ==> |sb.v5.value.metaUuid| == 16)
  }

  lemma SbFirstFields(k: nat)
    requires k < 30
    ensures SbLayout(k).off + SbLayout(k).width <= SbLayout(k + 1).off
  {
  }

  lemma SbLastFields(k: nat)
    requires 30 <= k < SB_V5_FIELDS
    ensures SbLayout(k).off + SbLayout(k).width <= SbLayout(k + 1).off <= XFS_DSB_SIZE
  {
  }

  lemma SbLayoutOk(n: nat, size: nat)
    requires 0 < n <= SB_V5_FIELDS && size >= XFS_DSB_SIZE
    ensures LayoutOk(SbLayout, n, size)
  {
    hide SbLayout;
    forall k: nat | k < n
      ensures SbLayout(k).off + SbLayout(k).width <= SbLayout(k + 1).off && SbLayout(k).off + SbLayout(k).width <= size
    {
      if k < 30 { SbFirstFields(k); SbPlace(k); } else { SbLastFields(k); }
    }
    Ordered(SbLayout, n, size);
  }

  /** `Superblock::serialize`, over zeroed bytes. */
  function SerializeSb(sb: Superblock, bytes: seq<byte>): (r: seq<byte>)
    requires |bytes| >= XFS_DSB_SIZE
    ensures |r| == |bytes|
  {
    SbLayoutOk(SbCount(sb), |bytes|);
    Serialize(SbLayout, SbCount(sb), k => SbNumber(sb, k), bytes)
  }

  function SbAt(bytes: seq<byte>, k: nat): nat
    requires k < SB_V5_FIELDS && |bytes| >= XFS_DSB_SIZE
  {
    ReadField(SbLayout(k), bytes)
  }

  function ParseV5(bytes: seq<byte>): V5Fields
    requires |bytes| >= XFS_DSB_SIZE
  {
    V5Fields(
      SbAt(bytes, 46), SbAt(bytes, 47), SbAt(bytes, 48), SbAt(bytes, 49), SbAt(bytes, 50), SbAt(bytes, 51),
      SbAt(bytes, 52), bytes[248..264], SbAt(bytes, 54), SbAt(bytes, 55), SbAt(bytes, 56), SbAt(bytes, 57),
      SbAt(bytes, 58), SbAt(bytes, 59))
  }

  /** `Superblock::parse`. */
  function ParseSb(bytes: seq<byte>): Result<Superblock, ParseError> {
    if |bytes| < XFS_DSB_SIZE then Err(BufferTooSmall)
    else if SbAt(bytes, 0) != XFS_SB_MAGIC then Err(InvalidMagic)
    else if SbAt(bytes, 1) == 0 || SbAt(bytes, 16) == 0 || SbAt(bytes, 17) == 0 then Err(InvalidField)
    else
      var version := SbAt(bytes, 15) % 16;
      Ok(Superblock(
           SbAt(bytes, 1), SbAt(bytes, 2), SbAt(bytes, 3), SbAt(bytes, 4), bytes[32..48], SbAt(bytes, 6),
           SbAt(bytes, 7), SbAt(bytes, 8), SbAt(bytes, 9), SbAt(bytes, 10), SbAt(bytes, 11), SbAt(bytes, 12),
           SbAt(bytes, 13), SbAt(bytes, 14), version, SbAt(bytes, 16), SbAt(bytes, 17), SbAt(bytes, 18),
           bytes[108..120], SbAt(bytes, 20), SbAt(bytes, 21), SbAt(bytes, 22), SbAt(bytes, 23), SbAt(bytes, 24),
           SbAt(bytes, 25), SbAt(bytes, 26) != 0, SbAt(bytes, 27), SbAt(bytes, 28), SbAt(bytes, 29),
           SbAt(bytes, 30), SbAt(bytes, 31), SbAt(bytes, 32), SbAt(bytes, 33), SbAt(bytes, 34), SbAt(bytes, 35),
           SbAt(bytes, 36), SbAt(bytes, 37), SbAt(bytes, 38), SbAt(bytes, 39), SbAt(bytes, 42), SbAt(bytes, 43),
           SbAt(bytes, 44), SbAt(bytes, 45),
           if version == XFS_SB_VERSION_5 then Some(ParseV5(bytes)) else None))
  }

  lemma SbFieldReads(sb: Superblock, bytes: seq<byte>, k: nat)
    requires |bytes| >= XFS_DSB_SIZE && SbOk(sb) && k < SbCount(sb)
    ensures SbAt(SerializeSb(sb, bytes), k) == SbNumber(sb, k)
  {
    hide SbLayout, SbNumber, Serialize, ReadField, Pow256;
    SbLayoutOk(SbCount(sb), |bytes|);
    SerializeReads(SbLayout, SbCount(sb), k => SbNumber(sb, k), bytes, k);
  }

  /** A field of bytes reads back as the bytes. */
  lemma SbBytesAt(sb: Superblock, bytes: seq<byte>, k: nat, v: seq<byte>)
    requires |bytes| >= XFS_DSB_SIZE && SbOk(sb) && k < SbCount(sb)
    requires SbNumber(sb, k) == FromBe(v) && |v| == SbLayout(k).width
    ensures var f := SbLayout(k);
            f.off + f.width <= |bytes| && SerializeSb(sb, bytes)[f.off..f.off + f.width] == v
  {
    hide FromBe, SerializeSb, Pow256, SbNumber, SbLayout, SbOk;
    var f, s := SbLayout(k), SerializeSb(sb, bytes);
    SbPlace(k);
    SbFieldReads(sb, bytes, k);
    BeOfFromBe(v);
    BeOfFromBe(s[f.off..f.off + f.width]);
  }

  lemma SbBytes(sb: Superblock, bytes: seq<byte>)
    requires |bytes| >= XFS_DSB_SIZE && SbOk(sb)
    ensures SerializeSb(sb, bytes)[32..48] == sb.uuid && SerializeSb(sb, bytes)[108..120] == sb.fname
    ensures sb.v5.Some? ==> SerializeSb(sb, bytes)[248..264] == sb.v5.value.metaUuid
  {
    hide FromBe, SerializeSb, Pow256;
    SbBytesAt(sb, bytes, 5, sb.uuid);
    SbBytesAt(sb, bytes, 19, sb.fname);
    if sb.v5.Some? { SbBytesAt(sb, bytes, 53, sb.v5.value.metaUuid); }
  }

  lemma V5RoundTrip(sb: Superblock, bytes: seq<byte>)
    requires |bytes| >= XFS_DSB_SIZE && SbOk(sb) && sb.v5.Some?
    ensures ParseV5(SerializeSb(sb, bytes)) == sb.v5.value
  {
    hide SbLayout, SerializeSb, FromBe, Pow256, SbAt, SbOk;
    var s := SerializeSb(sb, bytes);
    forall k: nat | SB_FIELDS <= k < SB_V5_FIELDS ensures SbAt(s, k) == V5Number(sb.v5.value, k) {
      SbFieldReads(sb, bytes, k);
    }
    SbBytes(sb, bytes);
  }

  lemma SbReadsFirst(sb: Superblock, s: seq<byte>)
    requires |s| >= XFS_DSB_SIZE && forall k: nat :: k < SB_FIELDS ==> SbAt(s, k) == SbNumber(sb, k)
    ensures SbAt(s, 0) == XFS_SB_MAGIC && SbAt(s, 1) == sb.blockSize && SbAt(s, 2) == sb.dblocks
    ensures SbAt(s, 3) == sb.rblocks && SbAt(s, 4) == sb.rextents && SbAt(s, 6) == sb.logstart
    ensures SbAt(s, 7) == sb.rootino && SbAt(s, 8) == sb.rbmino && SbAt(s, 9) == sb.rsumino
    ensures SbAt(s, 10) == sb.rextsize && SbAt(s, 11) == sb.agBlocks && SbAt(s, 12) == sb.agCount
  {
    hide SbAt, FromBe;
  }

  lemma SbReadsSecond(sb: Superblock, s: seq<byte>)
    requires |s| >= XFS_DSB_SIZE && forall k: nat :: k < SB_FIELDS ==> SbAt(s, k) == SbNumber(sb, k)
    ensures SbAt(s, 13) == sb.rbmBlocks && SbAt(s, 14) == sb.logBlocks && SbAt(s, 15) == sb.version
    ensures SbAt(s, 16) == sb.sectorSize && SbAt(s, 17) == sb.inodeSize && SbAt(s, 18) == sb.inodePerBlock
    ensures SbAt(s, 20) == sb.blockLog && SbAt(s, 21) == sb.sectLog && SbAt(s, 22) == sb.inodeLog
    ensures SbAt(s, 23) == sb.inopblog && SbAt(s, 24) == sb.agblklog
  {
    hide SbAt, FromBe;
  }

  lemma SbReadsThird(sb: Superblock, s: seq<byte>)
    requires |s| >= XFS_DSB_SIZE && forall k: nat :: k < SB_FIELDS ==> SbAt(s, k) == SbNumber(sb, k)
    ensures SbAt(s, 25) == sb.rextslog && SbAt(s, 26) == (if sb.inprogress then 1 else 0) && SbAt(s, 27) == sb.imaxPct
    ensures SbAt(s, 28) == sb.icount && SbAt(s, 29) == sb.ifree && SbAt(s, 30) == sb.fdblocks
    ensures SbAt(s, 31) == sb.frextents && SbAt(s, 32) == sb.uquotino && SbAt(s, 33) == sb.gquotino
    ensures SbAt(s, 34) == sb.qflags && SbAt(s, 35) == sb.flags
  {
    hide SbAt, FromBe;
  }

  lemma SbReadsLast(sb: Superblock, s: seq<byte>)
    requires |s| >= XFS_DSB_SIZE && forall k: nat :: k < SB_FIELDS ==> SbAt(s, k) == SbNumber(sb, k)
    ensures SbAt(s, 36) == sb.sharedVn && SbAt(s, 37) == sb.inoalignmt && SbAt(s, 38) == sb.unit
    ensures SbAt(s, 39) == sb.width && SbAt(s, 42) == sb.logSectorSize && SbAt(s, 43) == sb.logSunit
    ensures SbAt(s, 44) == sb.features2 && SbAt(s, 45) == sb.badFeatures2
  {
    hide SbAt, FromBe;
  }

  /** Parsing what was serialized gives the superblock back. */
  lemma SbRoundTrip(sb: Superblock, bytes: seq<byte>)
    requires |bytes| >= XFS_DSB_SIZE && SbOk(sb)
    ensures ParseSb(SerializeSb(sb, bytes)) == Ok(sb)
  {
    hide SbLayout, SerializeSb, FromBe, Pow256, SbAt, ParseV5, SbNumber;
    var s := SerializeSb(sb, bytes);
    forall k: nat | k < SB_FIELDS ensures SbAt(s, k) == SbNumber(sb, k) { SbFieldReads(sb, bytes, k); }
    SbReadsFirst(sb, s);
    SbReadsSecond(sb, s);
    SbReadsThird(sb, s);
    SbReadsLast(sb, s);
    SbBytes(sb, bytes);
    if sb.v5.Some? { V5RoundTrip(sb, bytes); }
  }

  lemma SbPlace(k: nat)
    requires k < SB_V5_FIELDS
    ensures var f := SbLayout(k); f.off + f.width <= 224 || (228 <= f.off && f.off + f.width <= 304)
  {
  }

  /** Parsing does not look at the checksum. */
  lemma ParseSbSame(a: seq<byte>, b: seq<byte>)
    requires |a| >= XFS_DSB_SIZE && |b| >= XFS_DSB_SIZE
    requires a[0..224] == b[0..224] && a[228..304] == b[228..304]
    ensures ParseSb(a) == ParseSb(b)
  {
    hide FromBe, SbLayout;
    forall k: nat | k < SB_V5_FIELDS ensures SbAt(a, k) == SbAt(b, k) {
      var f := SbLayout(k);
      SbPlace(k);
      if f.off + f.width <= 224 {
        SubSlice(a, b, 0, 224, f.off, f.off + f.width);
      } else {
        SubSlice(a, b, 228, 304, f.off, f.off + f.width);
      }
    }
    SubSlice(a, b, 0, 224, 32, 48);
    SubSlice(a, b, 0, 224, 108, 120);
    SubSlice(a, b, 228, 304, 248, 264);
  }

  // ----- what mkfs writes --------------------------------------------------------------------------

  /** `ilog2`. */
  function ILog2(n: nat): nat {
    if n <= 1 then 0 else 1 + ILog2(n / 2)
  }

  /** `ceil_ilog2`. */
  function CeilILog2(n: nat): nat {
    if n <= 1 then 0 else ILog2(n - 1) + 1
  }

  lemma {:induction false} ILog2Is(n: nat)
    requires n >= 1
    ensures Pow2(ILog2(n)) <= n < Pow2(ILog2(n) + 1)
  {
    if n > 1 { ILog2Is(n / 2); }
  }

  /** The smallest power of two that is not less than n. */
  lemma CeilILog2Is(n: nat)
    requires n >= 1
    ensures n <= Pow2(CeilILog2(n)) && (n > 1 ==> Pow2(CeilILog2(n) - 1) < n)
  {
    if n > 1 { ILog2Is(n - 1); }
  }

  lemma {:induction false} ILog2Bound(n: nat, k: nat)
    requires n < Pow2(k)
    ensures ILog2(n) <= k
  {
    if k > 0 && n > 1 { ILog2Bound(n / 2, k - 1); }
  }

  const BLOCK_SIZE: nat := 4096
  const INODE_SIZE: nat := 512

  function MkfsV5(uuid: seq<byte>): V5Fields {
    V5Fields(0, 0, 1, 0, 8, 0, 0, uuid, 0, 0, 0, 0, 0, 0)
  }

  /** The superblock of one group of 4096-byte blocks. */
  function MkfsSuperblock(totalBlocks: nat, sectorSize: nat, uuid: seq<byte>): Superblock
    requires totalBlocks >= 10
  {
    Superblock(
      BLOCK_SIZE, totalBlocks, 0, 0, uuid, 0, ROOT_INO, 0, 0, 0, totalBlocks, 1, 0, 0, XFS_SB_VERSION_5,
      sectorSize, INODE_SIZE, 8, seq(12, _ => 0), 12, ILog2(sectorSize), 9, 3, CeilILog2(totalBlocks), 0, false,
      25, 64, 63, totalBlocks - 10, 0, 0, 0, 0, 0, 0, 0, 0, 0, sectorSize, 0, 0, 0, Some(MkfsV5(uuid)))
  }

  ghost predicate GeometryOk(totalBlocks: nat, sectorSize: nat, uuid: seq<byte>) {
    10 <= totalBlocks < 0x1_0000_0000 && XFS_DSB_SIZE <= sectorSize <= 4096 && |uuid| == 16
  }

  /** The byte strings fit their fields. */
  lemma ByteStringsFit(uuid: seq<byte>)
    requires |uuid| == 16
    ensures FromBe(uuid) < Pow256(16) && FromBe(seq(12, _ => 0)) < Pow256(12)
  {
    hide FromBe, Pow256;
    BeOfFromBe(uuid);
    BeOfFromBe(seq(12, _ => 0));
  }

  lemma MkfsFitsFirst(totalBlocks: nat, sectorSize: nat, uuid: seq<byte>, k: nat)
    requires GeometryOk(totalBlocks, sectorSize, uuid) && 0 <= k < 20
    ensures SbNumber(MkfsSuperblock(totalBlocks, sectorSize, uuid), k) < Pow256(SbLayout(k).width)
  {
    hide FromBe, ILog2, Pow256;
    Pow256Values();
    ByteStringsFit(uuid);
    LogValues(totalBlocks, sectorSize);
  }

  lemma MkfsFitsMiddle(totalBlocks: nat, sectorSize: nat, uuid: seq<byte>, k: nat)
    requires GeometryOk(totalBlocks, sectorSize, uuid) && 20 <= k < 40
    ensures SbNumber(MkfsSuperblock(totalBlocks, sectorSize, uuid), k) < Pow256(SbLayout(k).width)
  {
    hide FromBe, ILog2, Pow256;
    Pow256Values();
    ByteStringsFit(uuid);
    LogValues(totalBlocks, sectorSize);
  }

  lemma MkfsFitsLast(totalBlocks: nat, sectorSize: nat, uuid: seq<byte>, k: nat)
    requires GeometryOk(totalBlocks, sectorSize, uuid) && 40 <= k < 60
    ensures SbNumber(MkfsSuperblock(totalBlocks, sectorSize, uuid), k) < Pow256(SbLayout(k).width)
  {
    hide FromBe, ILog2, Pow256;
    Pow256Values();
    ByteStringsFit(uuid);
    LogValues(totalBlocks, sectorSize);
  }

  lemma MkfsSuperblockOk(totalBlocks: nat, sectorSize: nat, uuid: seq<byte>)
    requires GeometryOk(totalBlocks, sectorSize, uuid)
    ensures SbOk(MkfsSuperblock(totalBlocks, sectorSize, uuid))
    ensures MkfsSuperblock(totalBlocks, sectorSize, uuid).blockLog == ILog2(BLOCK_SIZE)
  {
    hide FromBe, ILog2, Pow256, SbNumber, SbLayout;
    LogValues(totalBlocks, sectorSize);
    forall k: nat | k < SB_V5_FIELDS
      ensures SbNumber(MkfsSuperblock(totalBlocks, sectorSize, uuid), k) < Pow256(SbLayout(k).width)
    {
      if k < 20 { MkfsFitsFirst(totalBlocks, sectorSize, uuid, k); }
      else if k < 40 { MkfsFitsMiddle(totalBlocks, sectorSize, uuid, k); }
      else { MkfsFitsLast(totalBlocks, sectorSize, uuid, k); }
    }
  }

  lemma LogValues(totalBlocks: nat, sectorSize: nat)
    requires totalBlocks < 0x1_0000_0000 && sectorSize <= 4096
    ensures ILog2(sectorSize) <= 13 && CeilILog2(totalBlocks) <= 33 && ILog2(BLOCK_SIZE) == 12
  {
    Pow2Values();
    ILog2Bound(sectorSize, 13);
    assert Pow2(32) == 0x1_0000_0000 by {
      assert Pow2(16) == 65536;
      assert Pow2(20) == 0x10_0000;
      assert Pow2(26) == 0x400_0000;
    }
    if totalBlocks > 1 { ILog2Bound(totalBlocks - 1, 32); }
    assert ILog2(1) == 0 && ILog2(16) == 4 && ILog2(256) == 8;
  }
}
