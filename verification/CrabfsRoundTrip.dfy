/** Reading back an image that holds a packed tree. */
module CrabfsRoundTrip {
  import opened Common
  import opened Bits
  import opened Endian
  import opened XfsChecksum
  import opened DiskInode
  import opened DiskSuperblock
  import opened CrabfsDir
  import opened CrabfsLayout
  import opened CrabfsReader

  /** What the file tree gives: type bits that agree with the kind, 16-bit modes, 32-bit owners. */
  ghost predicate NodeOk(node: Node) {
    && node.mode < 0x1_0000 && node.uid < 0x1_0000_0000 && node.gid < 0x1_0000_0000
    && node.mode / 0x1000 == (match node.kind case Directory(_) => 4 case File(_) => 8 case Symlink(_) => 10)
  }

  /** An image and the tree packed into it. */
  datatype Packing = Packing(
    image: seq<byte>, nodes: seq<Node>, payloads: seq<seq<byte>>, totalBlocks: nat, sectorSize: nat, uuid: seq<byte>,
    headers: GroupHeaders)

  /** Superblock, headers, inode records and payloads are all in place. */
  ghost predicate PackedImage(p: Packing) {
    && GeometryOk(p.totalBlocks, p.sectorSize, p.uuid) && |p.nodes| == |p.payloads|
    && HeadersOk(p.headers, p.sectorSize)
    && (forall i :: 0 <= i < |p.nodes| ==> Payload(p.nodes[i]) == Ok(p.payloads[i]))
    && Fits(p.payloads, p.totalBlocks)
    && MetadataHolds(p.image, Super(p), p.sectorSize, p.headers)
    && DataHolds(p.image, p.payloads, |p.payloads|) && InodesHold(p.image, p.nodes, p.payloads, p.uuid, |p.payloads|)
  }

  function Super(p: Packing): Superblock
    requires p.totalBlocks >= 10
  {
    MkfsSuperblock(p.totalBlocks, p.sectorSize, p.uuid)
  }

  ghost predicate HasNode(p: Packing, i: nat) {
    PackedImage(p) && i < |p.nodes| && NodeOk(p.nodes[i])
  }

  /** What a read of `size` bytes at `offset` should return. */
  function Slice(bytes: seq<byte>, offset: nat, size: nat): seq<byte> {
    bytes[Min(offset, |bytes|)..Min(offset + size, |bytes|)]
  }

  // ----- the superblock -------------------------------------------------------------------------------

  lemma SectorReads(sb: Superblock, sectorSize: nat)
    requires SbOk(sb) && sectorSize >= XFS_DSB_SIZE
    ensures Verifies(SuperSector(sb, sectorSize), XFS_SB_CRC_OFF)
    ensures ParseSb(SuperSector(sb, sectorSize)[..XFS_DSB_SIZE]) == Ok(sb)
  {
    hide SerializeSb, Sealed, Verifies, ParseSb, SbOk, ZeroBytes;
    var s := SerializeSb(sb, ZeroBytes(sectorSize));
    SealedVerifies(s, XFS_SB_CRC_OFF);
    SbRoundTrip(sb, ZeroBytes(sectorSize));
    var t := SuperSector(sb, sectorSize);
    assert t[..XFS_DSB_SIZE][0..224] == s[0..224] && t[..XFS_DSB_SIZE][228..304] == s[228..304];
    ParseSbSame(t[..XFS_DSB_SIZE], s);
  }

  /** The superblock of a packed image is read back, and its checksum verifies. */
  lemma ReadsSuperblock(p: Packing)
    requires PackedImage(p)
    ensures ReadSuperblock(p.image) == Ok(Super(p))
  {
    hide SuperSector, Verifies, ParseSb, SbOk, DataHolds, InodesHold, Fits, Payload, HeadersOk;
    MkfsSuperblockOk(p.totalBlocks, p.sectorSize, p.uuid);
    SectorReads(Super(p), p.sectorSize);
    assert p.image[0..p.sectorSize] == SuperSector(Super(p), p.sectorSize);
    assert p.image[0..XFS_DSB_SIZE] == p.image[0..p.sectorSize][..XFS_DSB_SIZE];
  }

  // ----- inodes --------------------------------------------------------------------------------------------

  lemma ThreeBits(x: nat)
    ensures Shr(x, 3) == x / 8 && Low(x, 3) == x % 8
  {
    assert Shr(x, 1) == x / 2;
    assert Shr(x, 2) == x / 2 / 2;
    assert Low(x / 2 / 2, 1) == x / 2 / 2 % 2;
    assert Low(x / 2, 2) == 2 * (x / 2 / 2 % 2) + x / 2 % 2;
  }

  /** The reader looks for inode i where the packer put it. */
  lemma FindsInode(totalBlocks: nat, sectorSize: nat, uuid: seq<byte>, i: nat)
    requires totalBlocks >= 10 && (ROOT_INO + i) / 8 < totalBlocks
    ensures InodeOffset(MkfsSuperblock(totalBlocks, sectorSize, uuid), Ino(i)) == Ok(INODE_TABLE + i * INODE_SIZE)
  {
    hide Shr, Low, Pow2, CeilILog2, ILog2;
    var log := CeilILog2(totalBlocks);
    var ino := Ino(i);
    CeilILog2Is(totalBlocks);
    ThreeBits(ino);
    ShrTwice(ino, 3, log);
    LowSmall(ino / 8, log);
    ZeroLow();
    assert log + 3 == 3 + log;
  }

  lemma ZeroLow()
    ensures Low(0, 32) == 0
  {
    LowSmall(0, 32);
  }

  ghost predicate OwnerOk(node: Node, index: nat, payload: seq<byte>, uuid: seq<byte>) {
    NodeOk(node) && |uuid| == 16 && Ino(index) < 0x1_0000_0000_0000_0000 && |payload| < 0x8000_0000_0000_0000
  }

  lemma InodeForLow(node: Node, index: nat, payload: seq<byte>, uuid: seq<byte>, k: nat)
    requires OwnerOk(node, index, payload, uuid) && k < 19
    ensures 0 <= InodeNumber(InodeFor(node, index, payload, uuid), k) < Pow256(InodeLayout(k).width)
  {
    hide FromBe, Pow256, Blocks;
    Pow256Values();
    SmallPowers();
  }

  lemma InodeForHigh(node: Node, index: nat, payload: seq<byte>, uuid: seq<byte>, k: nat)
    requires OwnerOk(node, index, payload, uuid) && 19 <= k < INODE_FIELDS
    ensures 0 <= InodeNumber(InodeFor(node, index, payload, uuid), k) < Pow256(InodeLayout(k).width)
  {
    hide FromBe, Pow256;
    Pow256Values();
    SmallPowers();
    BeOfFromBe(uuid);
  }

  lemma InodeForOk(node: Node, index: nat, payload: seq<byte>, uuid: seq<byte>)
    requires OwnerOk(node, index, payload, uuid)
    ensures InodeOk(InodeFor(node, index, payload, uuid))
  {
    hide Pow256, InodeNumber, InodeLayout;
    forall k: nat | k < INODE_FIELDS
      ensures 0 <= InodeNumber(InodeFor(node, index, payload, uuid), k) < Pow256(InodeLayout(k).width)
    {
      if k < 19 { InodeForLow(node, index, payload, uuid, k); } else { InodeForHigh(node, index, payload, uuid, k); }
    }
  }

  lemma SmallPowers()
    ensures Pow256(6) > 0 && Pow256(12) > 0
  {
  }

  /** A record verifies, parses to its inode, and ends in its fork. */
  lemma RecordReads(node: Node, index: nat, payload: seq<byte>, start: nat, uuid: seq<byte>)
    requires InodeOk(InodeFor(node, index, payload, uuid))
    ensures var r := InodeRecord(node, index, payload, start, uuid);
            && Verifies(r, XFS_DINODE_CRC_OFF)
            && ParseInode(r) == Ok(InodeFor(node, index, payload, uuid))
            && Fork(payload, start) <= r[XFS_DINODE_SIZE_V3..]
  {
    hide SerializeInode, Sealed, Verifies, ParseInode, InodeOk, Fork, ZeroBytes;
    var i := InodeFor(node, index, payload, uuid);
    var fork := Fork(payload, start);
    var header := SerializeInode(i, ZeroBytes(INODE_SIZE));
    var s := Put(header, XFS_DINODE_SIZE_V3, fork);
    SealedVerifies(s, XFS_DINODE_CRC_OFF);
    InodeRoundTrip(i, ZeroBytes(INODE_SIZE));
    var r := Sealed(s, XFS_DINODE_CRC_OFF);
    assert r[0..100] == header[0..100] && r[104..176] == header[104..176];
    ParseSame(r, header);
    assert r[XFS_DINODE_SIZE_V3..][..|fork|] == fork;
  }

  /** The record a packed image has for inode i. */
  function RawInode(p: Packing, i: nat): seq<byte>
    requires i < |p.nodes| == |p.payloads|
  {
    InodeRecord(p.nodes[i], i, p.payloads[i], StartBlock(p.payloads, i), p.uuid)
  }

  lemma TableFits(payloads: seq<seq<byte>>, totalBlocks: nat, i: nat)
    requires i < |payloads| && Fits(payloads, totalBlocks)
    ensures (ROOT_INO + i) / 8 < totalBlocks
    ensures BlocksBefore(payloads, i) + Blocks(payloads[i]) + DataStart(|payloads|) <= totalBlocks
  {
    BlocksOrder(payloads, i, |payloads|);
  }

  /** Every inode of a packed image reads back, its checksum verifies, and its fork is in place. */
  lemma ReadsInode(p: Packing, i: nat)
    requires HasNode(p, i)
    ensures ReadInode(p.image, Super(p), Ino(i)) == Ok((InodeFor(p.nodes[i], i, p.payloads[i], p.uuid), RawInode(p, i)))
    ensures Fork(p.payloads[i], StartBlock(p.payloads, i)) <= RawInode(p, i)[XFS_DINODE_SIZE_V3..]
  {
    hide MetadataHolds, DataHolds, InodeOffset, InodeRecord, Verifies, ParseInode, Fork, Fits, Payload, HeadersOk;
    hide StartBlock, InodeFor, InodeOk, BlocksBefore, DataStart;
    TableFits(p.payloads, p.totalBlocks, i);
    PayloadBound(p.payloads[i], p.totalBlocks);
    FindsInode(p.totalBlocks, p.sectorSize, p.uuid, i);
    InodeForOk(p.nodes[i], i, p.payloads[i], p.uuid);
    RecordReads(p.nodes[i], i, p.payloads[i], StartBlock(p.payloads, i), p.uuid);
  }

  lemma PayloadBound(payload: seq<byte>, totalBlocks: nat)
    requires Blocks(payload) <= totalBlocks < 0x1_0000_0000
    ensures |payload| <= Blocks(payload) * BLOCK_SIZE < 0x8000_0000_0000_0000
  {
  }

  // ----- files ---------------------------------------------------------------------------------------------

  /** Only the first sixteen bytes matter to an extent record. */
  lemma ExtentPrefix(fork: seq<byte>, ext: seq<byte>)
    requires |ext| == 16 && ext <= fork
    ensures ParseExtent(fork) == ParseExtent(ext)
  {
    hide FromBe, Shr, Low, Or, Shl;
    assert fork[0..8] == ext[0..8] && fork[8..16] == ext[8..16];
  }

  lemma OneExtent(fork: seq<byte>, start: nat, blocks: nat)
    requires SerializeExtent(0, start, blocks) <= fork && start < 0x1_0000_0000 && blocks < 0x20_0000
    ensures ParseExtents(fork, 0, 1) == Ok([BmapExtent(0, 0, start, blocks)])
  {
    hide SerializeExtent, ParseExtent, Pow2;
    ExtentPrefix(fork, SerializeExtent(0, start, blocks));
    assert fork[0..] == fork;
    Powers();
    ExtentRoundTrip(0, start, blocks);
    var ext := BmapExtent(0, 0, start, blocks);
    assert ParseExtents(fork, 1, 1) == Ok([]) && [ext] + [] == [ext];
  }

  lemma Powers()
    ensures Pow2(21) == 0x20_0000 && Pow2(52) >= 0x1_0000_0000 && Pow2(54) > 0
  {
    Pow2Values();
    assert Pow2(21) == 0x20_0000;
    assert Pow2(26) == 0x400_0000;
    assert Pow2(32) == 0x1_0000_0000;
    Pow2Monotone(32, 52);
  }

  /** Blocks of the one group are numbered as they lie on the device. */
  lemma PhysicalStart(totalBlocks: nat, sectorSize: nat, uuid: seq<byte>, start: nat, blocks: nat)
    requires 10 <= totalBlocks && start < totalBlocks
    ensures PhysicalOffset(MkfsSuperblock(totalBlocks, sectorSize, uuid), BmapExtent(0, 0, start, blocks))
            == start * BLOCK_SIZE
  {
    hide Shr, Low, Pow2, CeilILog2, ILog2;
    CeilILog2Is(totalBlocks);
    LowSmall(start, CeilILog2(totalBlocks));
  }

  /** Gathering from the single extent of a payload gives that part of the payload. */
  lemma GathersPayload(image: seq<byte>, sb: Superblock, start: nat, payload: seq<byte>, offset: nat, n: nat)
    requires sb.blockSize == BLOCK_SIZE && offset < |payload| && n <= |payload| - offset
    requires PhysicalOffset(sb, BmapExtent(0, 0, start, Blocks(payload))) == start * BLOCK_SIZE
    requires Holds(image, start * BLOCK_SIZE, Padded(payload))
    ensures Gather(image, sb, [BmapExtent(0, 0, start, Blocks(payload))], offset, n) == Ok(payload[offset..offset + n])
  {
    hide PhysicalOffset, Blocks;
    var ext := BmapExtent(0, 0, start, Blocks(payload));
    assert |payload| <= Blocks(payload) * BLOCK_SIZE by { CoversPayload(payload); }
    assert Covers(sb, ext, offset) && Take(sb, ext, offset, n) == n;
    assert [ext][0] == ext && [ext][1..] == [];
    var at := start * BLOCK_SIZE;
    HeldPart(image, at, Padded(payload), payload, offset, n);
  }

  lemma CoversPayload(payload: seq<byte>)
    ensures |payload| <= Blocks(payload) * BLOCK_SIZE
  {
  }

  lemma HeldPart(image: seq<byte>, at: nat, padded: seq<byte>, payload: seq<byte>, offset: nat, n: nat)
    requires Holds(image, at, padded) && payload <= padded && offset + n <= |payload|
    ensures at + offset + n <= |image| && image[at + offset..at + offset + n] == payload[offset..offset + n]
  {
    var a, b := image[at + offset..at + offset + n], payload[offset..offset + n];
    forall k | 0 <= k < n ensures a[k] == b[k] {
      assert a[k] == image[at..at + |padded|][offset + k];
    }
  }

  /** A range read through the single extent of a payload. */
  lemma RangeOfOne(
      image: seq<byte>, sb: Superblock, inode: Inode, raw: seq<byte>, start: nat, payload: seq<byte>, offset: nat,
      size: nat)
    requires sb.blockSize == BLOCK_SIZE && |raw| == INODE_SIZE && inode.size == |payload| && inode.nextents == 1
    requires SerializeExtent(0, start, Blocks(payload)) <= raw[XFS_DINODE_SIZE_V3..] && start < 0x1_0000_0000
    requires Blocks(payload) < 0x20_0000
    requires PhysicalOffset(sb, BmapExtent(0, 0, start, Blocks(payload))) == start * BLOCK_SIZE
    requires Holds(image, start * BLOCK_SIZE, Padded(payload))
    ensures ReadRange(image, sb, inode, raw, offset, size) == Ok(Slice(payload, offset, size))
  {
    hide ParseExtents, Gather, PhysicalOffset, Holds, Padded, SerializeExtent, Blocks;
    OneExtent(raw[XFS_DINODE_SIZE_V3..], start, Blocks(payload));
    if offset < |payload| {
      GathersPayload(image, sb, start, payload, offset, Min(size, |payload| - offset));
    } else {
      assert Slice(payload, offset, size) == [];
    }
  }

  /** What a range read of an extent payload returns. */
  lemma ReadsRange(p: Packing, i: nat, offset: nat, size: nat)
    requires HasNode(p, i) && |p.payloads[i]| > LOCAL_FORK_BYTES && Blocks(p.payloads[i]) < 0x20_0000
    ensures ReadRange(p.image, Super(p), InodeFor(p.nodes[i], i, p.payloads[i], p.uuid), RawInode(p, i), offset, size)
            == Ok(Slice(p.payloads[i], offset, size))
  {
    hide MetadataHolds, InodesHold, Fits, Payload, HeadersOk, ReadRange, ReadInode, PhysicalOffset, Holds, Padded;
    hide BlocksBefore, DataStart, SerializeExtent, InodeRecord, Slice, Blocks;
    var payload, start := p.payloads[i], StartBlock(p.payloads, i);
    TableFits(p.payloads, p.totalBlocks, i);
    ReadsInode(p, i);
    SomeBlocks(payload);
    PhysicalStart(p.totalBlocks, p.sectorSize, p.uuid, start, Blocks(payload));
    RangeOfOne(p.image, Super(p), InodeFor(p.nodes[i], i, payload, p.uuid), RawInode(p, i), start, payload, offset,
        size);
  }

  lemma SomeBlocks(payload: seq<byte>)
    requires payload != []
    ensures Blocks(payload) > 0
  {
  }

  /** The bytes of a file or a symbolic link. */
  function Contents(node: Node): seq<byte>
    requires !node.kind.Directory?
  {
    if node.kind.File? then node.kind.data else node.kind.target
  }

  /** Any (offset, size) read of a packed file returns that slice of its bytes. */
  lemma ReadsFile(p: Packing, i: nat, offset: nat, size: nat)
    requires HasNode(p, i) && !p.nodes[i].kind.Directory? && Blocks(p.payloads[i]) < 0x20_0000
    ensures ReadFile(p.image, Super(p), Ino(i), offset, size) == Ok(Slice(Contents(p.nodes[i]), offset, size))
  {
    hide ReadInode, ReadRange, MetadataHolds, DataHolds, InodesHold, Fits, HeadersOk, StartBlock, Blocks, Super;
    hide RawInode;
    ReadsInode(p, i);
    ModeReads(p.nodes[i]);
    assert Payload(p.nodes[i]) == Ok(p.payloads[i]);
    if FormatFor(p.payloads[i]) == Local {
      LocalSlice(RawInode(p, i)[XFS_DINODE_SIZE_V3..], p.payloads[i], offset, size);
    } else {
      ReadsRange(p, i, offset, size);
    }
  }

  // ----- payloads of 2^21 blocks and more -------------------------------------------------------------------

  /** An extent record never covers more than 2^21 - 1 blocks. */
  lemma ExtentCountBound(fork: seq<byte>)
    ensures ParseExtents(fork, 0, 1).Ok? ==>
              |ParseExtents(fork, 0, 1).value| == 1 && ParseExtents(fork, 0, 1).value[0].blockcount < 0x20_0000
  {
    hide FromBe, Shr, Low, Or, Shl, Pow2;
    Powers();
    assert fork[0..] == fork;
    assert ParseExtents(fork, 1, 1) == Ok([]);
  }

  lemma GatherBound(image: seq<byte>, sb: Superblock, ext: BmapExtent, n: nat)
    requires sb.blockSize == BLOCK_SIZE && ext.blockcount < 0x20_0000
    ensures Gather(image, sb, [ext], 0, n).Ok? ==> |Gather(image, sb, [ext], 0, n).value| <= 0x1f_ffff * BLOCK_SIZE
  {
    hide PhysicalOffset;
    assert [ext][0] == ext && [ext][1..] == [];
    assert Gather(image, sb, [], 0, n) == Ok([]);
  }

  /** So a longer payload is cut short when it is read from the start. */
  lemma ReadsCut(p: Packing, i: nat, n: nat)
    requires HasNode(p, i) && Blocks(p.payloads[i]) >= 0x20_0000
    ensures var inode := InodeFor(p.nodes[i], i, p.payloads[i], p.uuid);
            var r := ReadRange(p.image, Super(p), inode, RawInode(p, i), 0, n);
            r.Ok? ==> |r.value| < |p.payloads[i]|
  {
    hide PackedImage, ParseExtents, Gather, InodeRecord, Blocks, StartBlock;
    Shape(p);
    LongPayload(p.payloads[i]);
    var fork, inode := RawInode(p, i)[XFS_DINODE_SIZE_V3..], InodeFor(p.nodes[i], i, p.payloads[i], p.uuid);
    ExtentCountBound(fork);
    var exts := ParseExtents(fork, 0, 1);
    if exts.Ok? {
      assert exts.value == [exts.value[0]];
      GatherBound(p.image, Super(p), exts.value[0], Min(n, |p.payloads[i]|));
    }
  }

  lemma LongPayload(payload: seq<byte>)
    requires Blocks(payload) >= 0x20_0000
    ensures |payload| > 0x1f_ffff * BLOCK_SIZE
  {
  }

  /** The extent record of a payload starts at the beginning of the file, whatever its block count. */
  lemma ExtentStartsFile(fork: seq<byte>, start: nat, blocks: nat)
    requires SerializeExtent(0, start, blocks) <= fork && start < 0x1_0000_0000
    ensures ParseExtents(fork, 0, 1).Ok? && |ParseExtents(fork, 0, 1).value| == 1
    ensures ParseExtents(fork, 0, 1).value[0].startoff == 0
  {
    hide FromBe, Be, Shr, Low, Or, Shl, Pow2;
    Powers();
    assert fork[0..] == fork;
    var x0 := Or(Shl(0, 9), Low(Shr(start, 43), 9));
    assert fork[0..8] == SerializeExtent(0, start, blocks)[0..8] == Be(x0, 8);
    HighWord(0, start);
    BeWord(x0);
    assert ParseExtents(fork, 1, 1) == Ok([]);
  }

  lemma GatherNothing(image: seq<byte>, sb: Superblock, ext: BmapExtent, n: nat)
    requires sb.blockSize == BLOCK_SIZE && ext.startoff == 0 && ext.blockcount < 0x20_0000
    ensures Gather(image, sb, [ext], 0x1f_ffff * BLOCK_SIZE, n) == Ok([])
  {
    hide PhysicalOffset;
    assert [ext][0] == ext && [ext][1..] == [];
    assert !Covers(sb, ext, 0x1f_ffff * BLOCK_SIZE);
  }

  /** Past its extent's 2^21 - 1 blocks a longer payload reads as nothing. */
  lemma ReadsNothing(p: Packing, i: nat)
    requires HasNode(p, i) && Blocks(p.payloads[i]) >= 0x20_0000
    ensures var inode := InodeFor(p.nodes[i], i, p.payloads[i], p.uuid);
            ReadRange(p.image, Super(p), inode, RawInode(p, i), 0x1f_ffff * BLOCK_SIZE, 1) == Ok([])
  {
    hide MetadataHolds, InodesHold, DataHolds, Fits, Payload, HeadersOk, ParseExtents, InodeRecord, Blocks;
    hide SerializeExtent, BlocksBefore, DataStart, NodeOk, ReadInode, Gather;
    LongPayload(p.payloads[i]);
    TableFits(p.payloads, p.totalBlocks, i);
    ReadsInode(p, i);
    var fork, start := RawInode(p, i)[XFS_DINODE_SIZE_V3..], StartBlock(p.payloads, i);
    ExtentCountBound(fork);
    ExtentStartsFile(fork, start, Blocks(p.payloads[i]));
    var ext := ParseExtents(fork, 0, 1).value[0];
    assert ParseExtents(fork, 0, 1).value == [ext];
    GatherNothing(p.image, Super(p), ext, 1);
  }

  /** What a caller of `read_file_data` can pass: a `u64` offset and a `u32` size. */
  predicate Callable(offset: nat, size: nat) {
    offset <= U64_MAX && size < 0x1_0000_0000
  }

  /** FILES: every (offset, size) read of a packed file returns its slice iff it has fewer than 2^21 blocks. */
  lemma ReadsFileIff(p: Packing, i: nat)
    requires HasNode(p, i) && !p.nodes[i].kind.Directory?
    ensures (forall offset: nat, size: nat :: Callable(offset, size) ==>
               ReadFile(p.image, Super(p), Ino(i), offset, size) == Ok(Slice(Contents(p.nodes[i]), offset, size)))
            <==> Blocks(p.payloads[i]) < 0x20_0000
  {
    hide PackedImage, Super, Blocks, ReadFile, Slice, NodeOk;
    Shape(p);
    if Blocks(p.payloads[i]) < 0x20_0000 {
      forall offset: nat, size: nat
        ensures ReadFile(p.image, Super(p), Ino(i), offset, size) == Ok(Slice(Contents(p.nodes[i]), offset, size))
      {
        ReadsFile(p, i, offset, size);
      }
    } else {
      LongFileGap(p, i);
      assert Callable(0x1f_ffff * BLOCK_SIZE, 1);
    }
  }

  /** The byte after the first 2^21 - 1 blocks of a longer file reads as the end of the file. */
  lemma LongFileGap(p: Packing, i: nat)
    requires HasNode(p, i) && !p.nodes[i].kind.Directory? && Blocks(p.payloads[i]) >= 0x20_0000
    ensures ReadFile(p.image, Super(p), Ino(i), 0x1f_ffff * BLOCK_SIZE, 1) == Ok([])
    ensures |Slice(Contents(p.nodes[i]), 0x1f_ffff * BLOCK_SIZE, 1)| == 1
  {
    hide ReadInode, ReadRange, MetadataHolds, DataHolds, InodesHold, Fits, HeadersOk, StartBlock, Blocks, Super;
    hide RawInode;
    ReadsInode(p, i);
    ModeReads(p.nodes[i]);
    assert Payload(p.nodes[i]) == Ok(p.payloads[i]);
    LongPayload(p.payloads[i]);
    ReadsNothing(p, i);
  }

  // ----- local payloads -----------------------------------------------------------------------------------------

  lemma LocalSlice(fork: seq<byte>, payload: seq<byte>, offset: nat, size: nat)
    requires payload <= fork
    ensures offset < |payload| ==> fork[offset..Min(offset + size, |payload|)] == Slice(payload, offset, size)
    ensures offset >= |payload| ==> Slice(payload, offset, size) == []
  {
  }

  lemma ModeReads(node: Node)
    requires NodeOk(node)
    ensures ModeType(node.mode) == match node.kind case Directory(_) => 4 case File(_) => 8 case Symlink(_) => 10
  {
    hide Low;
    Pow2Values();
    LowSmall(node.mode, 16);
  }

  // ----- directories -----------------------------------------------------------------------------------------

  /** The form the packer chose is the one the reader expects from where it was stored. */
  predicate EncodedAsWritten(entries: seq<PackedEntry>, parent: nat) {
    FitsShortform(entries, parent) || |ExtentForm(entries, parent)| > LOCAL_FORK_BYTES
  }

  ghost predicate IndicesOk(node: Node) {
    && node.kind.Directory? && Ino(node.parentIndex) < Pow256(8)
    && forall k :: 0 <= k < |node.kind.entries| ==> Ino(node.kind.entries[k].inodeIndex) < Pow256(8)
  }

  function Expected(node: Node, i: nat): seq<DirEntry>
    requires node.kind.Directory?
  {
    Dots(Ino(i), Ino(node.parentIndex)) + Listing(node.kind.entries)
  }

  function ExpectedLookup(node: Node, i: nat, target: seq<byte>): Option<(nat, byte)>
    requires node.kind.Directory?
  {
    if target == DOT then Some((Ino(i), 2))
    else if target == DOT_DOT then Some((Ino(node.parentIndex), 2))
    else Lookup(node.kind.entries, target)
  }

  /** Listing and lookup both give what was packed. */
  ghost predicate ReadsBack(p: Packing, i: nat, target: seq<byte>)
    requires HasNode(p, i) && p.nodes[i].kind.Directory?
  {
    && ListDir(p.image, Super(p), Ino(i)) == Ok(Expected(p.nodes[i], i))
    && FindDir(p.image, Super(p), Ino(i), target) == Ok(ExpectedLookup(p.nodes[i], i, target))
  }

  lemma FtypeOn(p: Packing)
    requires p.totalBlocks >= 10
    ensures HasFtype(Super(p))
  {
  }

  lemma PrefixSplit(a: seq<byte>, b: seq<byte>)
    requires a <= b
    ensures b == a + b[|a|..]
  {
  }

  /** A directory whose payload is its short form. */
  lemma ReadsShortDir(p: Packing, i: nat, target: seq<byte>)
    requires HasNode(p, i) && IndicesOk(p.nodes[i]) && FitsShortform(p.nodes[i].kind.entries, p.nodes[i].parentIndex)
    ensures ReadsBack(p, i, target)
  {
    hide ReadInode, ReadRange, MetadataHolds, DataHolds, InodesHold, Fits, HeadersOk, StartBlock, Blocks, Super;
    hide Shortform, ListShortform, FindShortform, Lookup, Pow256, HasFtype, RawInode;
    ReadsInode(p, i);
    ModeReads(p.nodes[i]);
    FtypeOn(p);
    assert Payload(p.nodes[i]) == Ok(p.payloads[i]);
    var fork := RawInode(p, i)[XFS_DINODE_SIZE_V3..];
    PrefixSplit(p.payloads[i], fork);
    ShortformReads(p.nodes[i].kind.entries, p.nodes[i].parentIndex, Ino(i), fork[|p.payloads[i]|..], target);
  }

  /** A directory whose payload is its extent form, in data blocks. */
  lemma ReadsExtentDir(p: Packing, i: nat, target: seq<byte>)
    requires HasNode(p, i) && IndicesOk(p.nodes[i]) && !FitsShortform(p.nodes[i].kind.entries, p.nodes[i].parentIndex)
    requires |p.payloads[i]| > LOCAL_FORK_BYTES && Blocks(p.payloads[i]) < 0x20_0000
    ensures ReadsBack(p, i, target)
  {
    hide ReadInode, ReadRange, MetadataHolds, DataHolds, InodesHold, Fits, HeadersOk, StartBlock, Blocks, Super;
    hide ExtentForm, ListExtentForm, FindExtentForm, Lookup, Pow256, FitsShortform, RawInode;
    ReadsInode(p, i);
    ModeReads(p.nodes[i]);
    assert Payload(p.nodes[i]) == Ok(p.payloads[i]);
    var payload := p.payloads[i];
    ReadsRange(p, i, 0, |payload|);
    assert Slice(payload, 0, |payload|) == payload;
    ExtentFormReads(p.nodes[i].kind.entries, p.nodes[i].parentIndex, Ino(i), target);
  }

  /** An extent form of at most 336 bytes is stored in the inode and read as something else. */
  lemma MisreadsInBetween(p: Packing, i: nat)
    requires HasNode(p, i) && p.nodes[i].kind.Directory?
    requires !EncodedAsWritten(p.nodes[i].kind.entries, p.nodes[i].parentIndex)
    ensures ListDir(p.image, Super(p), Ino(i)) != Ok(Expected(p.nodes[i], i))
  {
    hide ReadInode, ReadRange, MetadataHolds, DataHolds, InodesHold, Fits, HeadersOk, StartBlock, Blocks, Super;
    hide ExtentForm, ListShortform, Pow256, FitsShortform, HasFtype, RawInode;
    ReadsInode(p, i);
    ModeReads(p.nodes[i]);
    FtypeOn(p);
    assert Payload(p.nodes[i]) == Ok(p.payloads[i]);
    var fork := RawInode(p, i)[XFS_DINODE_SIZE_V3..];
    PrefixSplit(p.payloads[i], fork);
    InBetweenMisreads(p.nodes[i].kind.entries, p.nodes[i].parentIndex, Ino(i), fork[|p.payloads[i]|..]);
  }

  /** A directory of 2^21 blocks or more is read through too few bytes to list as packed. */
  lemma LongDirMisreads(p: Packing, i: nat)
    requires HasNode(p, i) && p.nodes[i].kind.Directory? && Blocks(p.payloads[i]) >= 0x20_0000
    ensures ListDir(p.image, Super(p), Ino(i)) != Ok(Expected(p.nodes[i], i))
  {
    hide ReadInode, ReadRange, MetadataHolds, DataHolds, InodesHold, Fits, HeadersOk, StartBlock, Blocks, Super;
    hide RawInode;
    hide ExtentForm, Shortform, ListExtentForm, ListShortform, HasFtype;
    ReadsInode(p, i);
    ModeReads(p.nodes[i]);
    var node, payload := p.nodes[i], p.payloads[i];
    assert Payload(node) == Ok(payload);
    LongPayload(payload);
    ReadsCut(p, i, |payload|);
    assert payload == ExtentForm(node.kind.entries, node.parentIndex);
    SmallWhenEmpty(node.parentIndex);
    var data := ReadRange(p.image, Super(p), InodeFor(node, i, payload, p.uuid), RawInode(p, i), 0, |payload|);
    if data.Ok? { CutMisreads(node.kind.entries, node.parentIndex, Ino(i), data.value); }
  }

  lemma SmallWhenEmpty(parent: nat)
    ensures |ExtentForm([], parent)| == 20
  {
  }

  /** What a directory needs to come back as packed. */
  predicate DirectoryFits(node: Node, payload: seq<byte>)
    requires node.kind.Directory?
  {
    EncodedAsWritten(node.kind.entries, node.parentIndex) && Blocks(payload) < 0x20_0000
  }

  /**
   * DIRECTORIES: a packed directory lists its own entries iff its form is stored where the reader looks for
   * it and has fewer than 2^21 blocks; and then every lookup finds the packed entry.
   */
  lemma ReadsDirectoryIff(p: Packing, i: nat, target: seq<byte>)
    requires HasNode(p, i) && IndicesOk(p.nodes[i])
    ensures ListDir(p.image, Super(p), Ino(i)) == Ok(Expected(p.nodes[i], i))
            <==> DirectoryFits(p.nodes[i], p.payloads[i])
    ensures DirectoryFits(p.nodes[i], p.payloads[i]) ==> ReadsBack(p, i, target)
  {
    hide ListDir, FindDir, MetadataHolds, DataHolds, InodesHold, Fits, HeadersOk, Blocks, Super, ExtentForm;
    hide FitsShortform, Expected, ExpectedLookup;
    var node := p.nodes[i];
    if Blocks(p.payloads[i]) >= 0x20_0000 {
      LongDirMisreads(p, i);
    } else if FitsShortform(node.kind.entries, node.parentIndex) {
      ReadsShortDir(p, i, target);
    } else if |ExtentForm(node.kind.entries, node.parentIndex)| > LOCAL_FORK_BYTES {
      assert Payload(node) == Ok(p.payloads[i]);
      ReadsExtentDir(p, i, target);
    } else {
      MisreadsInBetween(p, i);
    }
  }

  // ----- whole trees --------------------------------------------------------------------------------------------

  /** A collected tree: every node is well formed and every index names a node of the tree. */
  ghost predicate TreeOk(nodes: seq<Node>) {
    forall i :: 0 <= i < |nodes| ==> NodeOk(nodes[i]) && (nodes[i].kind.Directory? ==> IndexesBelow(nodes[i], |nodes|))
  }

  ghost predicate IndexesBelow(node: Node, n: nat)
    requires node.kind.Directory?
  {
    node.parentIndex < n && forall k :: 0 <= k < |node.kind.entries| ==> node.kind.entries[k].inodeIndex < n
  }

  /** No payload of 2^21 blocks or more, and no directory in between the two encodings. */
  ghost predicate Faithful(p: Packing)
    requires |p.nodes| == |p.payloads|
  {
    forall i :: 0 <= i < |p.nodes| ==>
      if p.nodes[i].kind.Directory? then DirectoryFits(p.nodes[i], p.payloads[i])
      else Blocks(p.payloads[i]) < 0x20_0000
  }

  lemma IndicesFit(p: Packing, i: nat)
    requires PackedImage(p) && i < |p.nodes| && p.nodes[i].kind.Directory? && IndexesBelow(p.nodes[i], |p.nodes|)
    ensures IndicesOk(p.nodes[i])
  {
    hide MetadataHolds, DataHolds, InodesHold, HeadersOk, Payload, BlocksBefore, Pow256;
    Pow256Values();
    assert |p.nodes| <= 8 * DivCeil(|p.nodes|, INODES_PER_BLOCK);
  }

  /** Every slice of every file and link, and every listing and lookup, is as packed. */
  ghost predicate AllReadBack(p: Packing)
    requires p.totalBlocks >= 10
  {
    && (forall i: nat, offset: nat, size: nat ::
          i < |p.nodes| && !p.nodes[i].kind.Directory? && Callable(offset, size) ==>
          ReadFile(p.image, Super(p), Ino(i), offset, size) == Ok(Slice(Contents(p.nodes[i]), offset, size)))
    && (forall i: nat :: i < |p.nodes| && p.nodes[i].kind.Directory? ==>
          ListDir(p.image, Super(p), Ino(i)) == Ok(Expected(p.nodes[i], i)))
    && (forall i: nat, target: seq<byte> :: i < |p.nodes| && p.nodes[i].kind.Directory? ==>
          FindDir(p.image, Super(p), Ino(i), target) == Ok(ExpectedLookup(p.nodes[i], i, target)))
  }

  /**
   * IDENTITY: the superblock of a packed image always reads back; files, links, directories and lookups all
   * do if and only if every payload is faithful.
   */
  lemma PackReadIdentityIff(p: Packing)
    requires PackedImage(p) && TreeOk(p.nodes)
    ensures |p.nodes| == |p.payloads| && p.totalBlocks >= 10
    ensures ReadSuperblock(p.image) == Ok(Super(p))
    ensures AllReadBack(p) <==> Faithful(p)
  {
    hide PackedImage, ReadSuperblock, AllReadBack, Faithful;
    Shape(p);
    ReadsSuperblock(p);
    if Faithful(p) { PackReadIdentity(p); } else { UnfaithfulMisreads(p); }
  }

  /** Packing and reading a faithful tree is the identity. */
  lemma PackReadIdentity(p: Packing)
    requires PackedImage(p) && TreeOk(p.nodes) && Faithful(p)
    ensures AllReadBack(p)
  {
    hide PackedImage, ReadFile, ListDir, FindDir, Super, Slice, Contents, Expected, ExpectedLookup, DirectoryFits;
    hide NodeOk, IndexesBelow, IndicesOk, Blocks;
    Shape(p);
    forall i: nat, offset: nat, size: nat | i < |p.nodes| && !p.nodes[i].kind.Directory?
      ensures ReadFile(p.image, Super(p), Ino(i), offset, size) == Ok(Slice(Contents(p.nodes[i]), offset, size))
    {
      ReadsFile(p, i, offset, size);
    }
    forall i: nat, target: seq<byte> | i < |p.nodes| && p.nodes[i].kind.Directory? ensures ReadsBack(p, i, target) {
      IndicesFit(p, i);
      ReadsDirectoryIff(p, i, target);
    }
    forall i: nat | i < |p.nodes| && p.nodes[i].kind.Directory?
      ensures ListDir(p.image, Super(p), Ino(i)) == Ok(Expected(p.nodes[i], i))
    {
      assert ReadsBack(p, i, DOT);
    }
    forall i: nat, target: seq<byte> | i < |p.nodes| && p.nodes[i].kind.Directory?
      ensures FindDir(p.image, Super(p), Ino(i), target) == Ok(ExpectedLookup(p.nodes[i], i, target))
    {
      assert ReadsBack(p, i, target);
    }
  }

  lemma UnfaithfulMisreads(p: Packing)
    requires PackedImage(p) && TreeOk(p.nodes) && |p.nodes| == |p.payloads| && !Faithful(p)
    ensures p.totalBlocks >= 10 && !AllReadBack(p)
  {
    hide PackedImage, ReadFile, ListDir, FindDir, Super, Slice, Contents, Expected, ExpectedLookup, DirectoryFits;
    hide NodeOk, IndexesBelow, IndicesOk, Blocks;
    Shape(p);
    var i :| 0 <= i < |p.nodes|
             && !(if p.nodes[i].kind.Directory? then DirectoryFits(p.nodes[i], p.payloads[i])
                  else Blocks(p.payloads[i]) < 0x20_0000);
    if p.nodes[i].kind.Directory? {
      IndicesFit(p, i);
      ReadsDirectoryIff(p, i, DOT);
    } else {
      ReadsFileIff(p, i);
    }
  }

  lemma Shape(p: Packing)
    requires PackedImage(p)
    ensures |p.nodes| == |p.payloads| && p.totalBlocks >= 10
  {
  }

  // ----- a tree that is not faithful ------------------------------------------------------------------------------

  /** Twenty-one files with different names of four bytes. */
  function ExampleEntries(): (r: seq<PackedEntry>)
    ensures |r| == 21 && forall i, j :: 0 <= i < j < |r| ==> r[i].name != r[j].name
  {
    seq(21, i requires 0 <= i < 21 => PackedEntry([102, 105, 108, 97 + i], i + 1, 1))
  }

  /** A root directory with those empty files in it. */
  function ExampleTree(): seq<Node> {
    [Node(0, 0x41ed, 0, 0, Directory(ExampleEntries()))] + seq(21, _ => Node(0, 0x81a4, 0, 0, File([])))
  }

  /** The entries take 346 bytes in short form and 335 in extent form, so the root is in between. */
  lemma ExampleInBetween()
    ensures Payload(ExampleTree()[0]).Ok? && !EncodedAsWritten(ExampleEntries(), 0)
    ensures |Payload(ExampleTree()[0]).value| == 335
  {
    hide SfEntries, ExtEntries;
    FourByteNames(ExampleEntries());
    SfLength(ExampleEntries());
    ExtLength(ExampleEntries());
  }

  lemma {:induction false} FourByteNames(entries: seq<PackedEntry>)
    requires forall i :: 0 <= i < |entries| ==> |entries[i].name| == 4
    ensures NameBytes(entries) == 4 * |entries|
  {
    if entries != [] { FourByteNames(entries[..|entries| - 1]); }
  }

  lemma ExampleTreeOk()
    ensures TreeOk(ExampleTree())
  {
  }

  /** WITNESS: any image this tree is packed into lists its root wrongly. */
  lemma ExampleMisreads(p: Packing)
    requires PackedImage(p) && p.nodes == ExampleTree()
    ensures HasNode(p, 0) && ListDir(p.image, Super(p), Ino(0)) != Ok(Expected(p.nodes[0], 0))
  {
    hide PackedImage, ListDir, Super, Expected, EncodedAsWritten, Payload;
    ExampleTreeOk();
    ExampleInBetween();
    assert HasNode(p, 0) by { assert NodeOk(p.nodes[0]); Shape(p); }
    MisreadsInBetween(p, 0);
  }
}
