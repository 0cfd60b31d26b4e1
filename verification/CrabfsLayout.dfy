/** Where `pack` puts things: payloads, blocks, inode records, and what a finished image holds. */
module CrabfsLayout {
  import opened Common
  import opened Endian
  import opened XfsChecksum
  import opened DiskInode
  import opened DiskSuperblock
  import opened CrabfsDir

  const INODE_TABLE_START_BLOCK: nat := 8
  const INODES_PER_BLOCK: nat := 8
  const INODE_TABLE: nat := 32768

  datatype NodeKind = Directory(entries: seq<PackedEntry>) | File(data: seq<byte>) | Symlink(target: seq<byte>)

  datatype Node = Node(parentIndex: nat, mode: nat, uid: nat, gid: nat, kind: NodeKind)

  datatype PackError = TryFromInt | OutOfRange

  // ----- payloads ------------------------------------------------------------------------------------

  function ExtentPayload(entries: seq<PackedEntry>, parent: nat): Result<seq<byte>, PackError> {
    if |entries| < 0x1_0000_0000 && NamesBelow(entries, 0x1_0000) then Ok(ExtentForm(entries, parent))
    else Err(TryFromInt)
  }

  /** The short form of a small enough directory, whatever its length in bytes. */
  predicate HasShortform(entries: seq<PackedEntry>) {
    |entries| < 256 && NamesBelow(entries, 256)
  }

  predicate FitsShortform(entries: seq<PackedEntry>, parent: nat) {
    HasShortform(entries) && |Shortform(entries, parent)| <= LOCAL_FORK_BYTES
  }

  /** `build_payload`. */
  function Payload(node: Node): Result<seq<byte>, PackError> {
    match node.kind
    case File(data) => Ok(data)
    case Symlink(target) => Ok(target)
    case Directory(entries) =>
      if |entries| < 256 && !NamesBelow(entries, 256) then Err(TryFromInt)
      else if FitsShortform(entries, node.parentIndex) then Ok(Shortform(entries, node.parentIndex))
      else ExtentPayload(entries, node.parentIndex)
  }

  function Blocks(payload: seq<byte>): nat {
    DivCeil(|payload|, BLOCK_SIZE)
  }

  function BlocksBefore(payloads: seq<seq<byte>>, i: nat): nat
    requires i <= |payloads|
  {
    if i == 0 then 0 else BlocksBefore(payloads, i - 1) + Blocks(payloads[i - 1])
  }

  /** The first block after the inode table. */
  function DataStart(inodes: nat): nat {
    INODE_TABLE_START_BLOCK + DivCeil(inodes, INODES_PER_BLOCK)
  }

  /** The first block of payload i; 0 for an empty payload. */
  function StartBlock(payloads: seq<seq<byte>>, i: nat): nat
    requires i < |payloads|
  {
    if Blocks(payloads[i]) == 0 then 0 else DataStart(|payloads|) + BlocksBefore(payloads, i)
  }

  lemma {:induction false} BlocksOrder(payloads: seq<seq<byte>>, i: nat, j: nat)
    requires i < j <= |payloads|
    ensures BlocksBefore(payloads, i) + Blocks(payloads[i]) <= BlocksBefore(payloads, j)
    decreases j
  {
    if i < j - 1 { BlocksOrder(payloads, i, j - 1); }
  }

  /** A payload padded with zeros to whole blocks. */
  function Padded(payload: seq<byte>): (r: seq<byte>)
    ensures |r| == Blocks(payload) * BLOCK_SIZE && payload <= r
  {
    payload + seq(Blocks(payload) * BLOCK_SIZE - |payload|, _ => 0)
  }

  // ----- inode records -------------------------------------------------------------------------------

  function FormatFor(payload: seq<byte>): InodeFormat {
    if |payload| <= LOCAL_FORK_BYTES then Local else Extents
  }

  function InodeFor(node: Node, index: nat, payload: seq<byte>, uuid: seq<byte>): Inode {
    var format, links := FormatFor(payload), if node.kind.Directory? then 2 else 1;
    var extents, never := if format == Extents then 1 else 0, Time(0, 0);
    Inode(XFS_DINODE_MAGIC, node.mode, 3, format, 0, node.uid, node.gid, links, 0, 0, never, never, never,
          |payload|, Blocks(payload), 0, extents, 0, 0, Extents, 0, 0, 0, 0, 0xffff_ffff, 0, 0, 0, 0, never,
          Ino(index), uuid)
  }

  /** What goes in the fork: the payload itself, or the one extent it occupies. */
  function Fork(payload: seq<byte>, start: nat): (r: seq<byte>)
    ensures |r| <= LOCAL_FORK_BYTES
  {
    if FormatFor(payload) == Local then payload else SerializeExtent(0, start, Blocks(payload))
  }

  function ZeroBytes(n: nat): (r: seq<byte>)
    ensures |r| == n
  {
    seq(n, _ => 0)
  }

  /** `write_inode_record`: the 512 bytes of one inode. */
  function InodeRecord(node: Node, index: nat, payload: seq<byte>, start: nat, uuid: seq<byte>): (r: seq<byte>)
    ensures |r| == INODE_SIZE
  {
    var header := SerializeInode(InodeFor(node, index, payload, uuid), ZeroBytes(INODE_SIZE));
    SealedVerifies(Put(header, XFS_DINODE_SIZE_V3, Fork(payload, start)), XFS_DINODE_CRC_OFF);
    Sealed(Put(header, XFS_DINODE_SIZE_V3, Fork(payload, start)), XFS_DINODE_CRC_OFF)
  }

  /** The superblock's sector. */
  function SuperSector(sb: Superblock, sectorSize: nat): (r: seq<byte>)
    requires sectorSize >= XFS_DSB_SIZE
    ensures |r| == sectorSize
  {
    SealedVerifies(SerializeSb(sb, ZeroBytes(sectorSize)), XFS_SB_CRC_OFF);
    Sealed(SerializeSb(sb, ZeroBytes(sectorSize)), XFS_SB_CRC_OFF)
  }

  // ----- images ----------------------------------------------------------------------------------------

  ghost predicate Holds(image: seq<byte>, off: nat, bytes: seq<byte>) {
    off + |bytes| <= |image| && image[off..off + |bytes|] == bytes
  }

  lemma HoldsPut(image: seq<byte>, off: nat, bytes: seq<byte>)
    requires off + |bytes| <= |image|
    ensures Holds(Put(image, off, bytes), off, bytes)
  {
    PutReads(image, off, bytes);
  }

  lemma HoldsKept(image: seq<byte>, off: nat, bytes: seq<byte>, off': nat, bytes': seq<byte>)
    requires Holds(image, off, bytes) && off' + |bytes'| <= |image|
    requires off + |bytes| <= off' || off' + |bytes'| <= off
    ensures Holds(Put(image, off', bytes'), off, bytes)
  {
    PutKeeps(image, off', bytes', off, off + |bytes|);
  }

  /** The headers `mkfs` writes beside the superblock: three sectors, and four tree roots of a block each. */
  datatype GroupHeaders = GroupHeaders(agf: seq<byte>, agi: seq<byte>, agfl: seq<byte>, roots: seq<seq<byte>>)

  ghost predicate HeadersOk(h: GroupHeaders, sectorSize: nat) {
    && |h.agf| == |h.agi| == |h.agfl| == sectorSize && |h.roots| == 4
    && (forall k :: 0 <= k < 4 ==> |h.roots[k]| == BLOCK_SIZE)
  }

  /** Everything below the inode table is in place. */
  ghost predicate MetadataHolds(image: seq<byte>, sb: Superblock, sectorSize: nat, h: GroupHeaders)
    requires sectorSize >= XFS_DSB_SIZE
  {
    && Holds(image, 0, SuperSector(sb, sectorSize))
    && Holds(image, sectorSize, h.agf) && Holds(image, 2 * sectorSize, h.agi) && Holds(image, 3 * sectorSize, h.agfl)
    && (forall k :: 0 <= k < |h.roots| ==> Holds(image, (4 + k) * BLOCK_SIZE, h.roots[k]))
  }

  ghost predicate DataHolds(image: seq<byte>, payloads: seq<seq<byte>>, n: nat)
    requires n <= |payloads|
  {
    forall i: nat :: i < n && Blocks(payloads[i]) > 0 ==>
        Holds(image, StartBlock(payloads, i) * BLOCK_SIZE, Padded(payloads[i]))
  }

  ghost predicate InodesHold(image: seq<byte>, nodes: seq<Node>, payloads: seq<seq<byte>>, uuid: seq<byte>, n: nat)
    requires n <= |payloads| == |nodes|
  {
    forall i: nat :: i < n ==>
        Holds(image, INODE_TABLE + i * INODE_SIZE, InodeRecord(nodes[i], i, payloads[i], StartBlock(payloads, i), uuid))
  }

  ghost predicate Fits(payloads: seq<seq<byte>>, totalBlocks: nat) {
    DataStart(|payloads|) + BlocksBefore(payloads, |payloads|) <= totalBlocks
  }

  /** A write at or above the inode table leaves the metadata alone. */
  lemma MetadataKept(image: seq<byte>, sb: Superblock, sectorSize: nat, h: GroupHeaders, off: nat, bytes: seq<byte>)
    requires XFS_DSB_SIZE <= sectorSize <= 4096 && HeadersOk(h, sectorSize) && MetadataHolds(image, sb, sectorSize, h)
    requires INODE_TABLE <= off && off + |bytes| <= |image|
    ensures MetadataHolds(Put(image, off, bytes), sb, sectorSize, h)
  {
    hide Holds, Put, SuperSector;
    HoldsKept(image, 0, SuperSector(sb, sectorSize), off, bytes);
    HoldsKept(image, sectorSize, h.agf, off, bytes);
    HoldsKept(image, 2 * sectorSize, h.agi, off, bytes);
    HoldsKept(image, 3 * sectorSize, h.agfl, off, bytes);
    forall k | 0 <= k < |h.roots| ensures Holds(Put(image, off, bytes), (4 + k) * BLOCK_SIZE, h.roots[k]) {
      HoldsKept(image, (4 + k) * BLOCK_SIZE, h.roots[k], off, bytes);
    }
  }

  /** Writing payload n keeps the payloads before it: their blocks are disjoint. */
  lemma DataMore(image: seq<byte>, payloads: seq<seq<byte>>, n: nat)
    requires n < |payloads| && DataHolds(image, payloads, n) && Blocks(payloads[n]) > 0
    requires StartBlock(payloads, n) * BLOCK_SIZE + |Padded(payloads[n])| <= |image|
    ensures DataHolds(Put(image, StartBlock(payloads, n) * BLOCK_SIZE, Padded(payloads[n])), payloads, n + 1)
  {
    hide Holds, Put, Padded, Blocks, DivCeil;
    var off, bytes := StartBlock(payloads, n) * BLOCK_SIZE, Padded(payloads[n]);
    HoldsPut(image, off, bytes);
    forall i: nat | i < n && Blocks(payloads[i]) > 0
      ensures Holds(Put(image, off, bytes), StartBlock(payloads, i) * BLOCK_SIZE, Padded(payloads[i]))
    {
      BlocksOrder(payloads, i, n);
      HoldsKept(image, StartBlock(payloads, i) * BLOCK_SIZE, Padded(payloads[i]), off, bytes);
    }
  }

  /** The inode table ends where the data starts. */
  lemma TableBelowData(inodes: nat, i: nat)
    requires i < inodes
    ensures INODE_TABLE + i * INODE_SIZE + INODE_SIZE <= DataStart(inodes) * BLOCK_SIZE
  {
  }

  /** An inode record keeps all data and the records before it. */
  lemma InodeMore(image: seq<byte>, nodes: seq<Node>, payloads: seq<seq<byte>>, uuid: seq<byte>, n: nat)
    requires n < |payloads| == |nodes| && DataHolds(image, payloads, |payloads|)
    requires InodesHold(image, nodes, payloads, uuid, n)
    requires INODE_TABLE + n * INODE_SIZE + INODE_SIZE <= |image|
    ensures var record := InodeRecord(nodes[n], n, payloads[n], StartBlock(payloads, n), uuid);
            var image' := Put(image, INODE_TABLE + n * INODE_SIZE, record);
            DataHolds(image', payloads, |payloads|) && InodesHold(image', nodes, payloads, uuid, n + 1)
  {
    hide Holds, Put, Padded, Blocks, InodeRecord, DataStart, BlocksBefore, DivCeil;
    var off := INODE_TABLE + n * INODE_SIZE;
    var bytes := InodeRecord(nodes[n], n, payloads[n], StartBlock(payloads, n), uuid);
    HoldsPut(image, off, bytes);
    TableBelowData(|payloads|, n);
    forall i: nat | i < |payloads| && Blocks(payloads[i]) > 0
      ensures Holds(Put(image, off, bytes), StartBlock(payloads, i) * BLOCK_SIZE, Padded(payloads[i]))
    {
      HoldsKept(image, StartBlock(payloads, i) * BLOCK_SIZE, Padded(payloads[i]), off, bytes);
    }
    forall i: nat | i < n
      ensures Holds(Put(image, off, bytes), INODE_TABLE + i * INODE_SIZE,
              InodeRecord(nodes[i], i, payloads[i], StartBlock(payloads, i), uuid))
    {
      HoldsKept(image, INODE_TABLE + i * INODE_SIZE,
          InodeRecord(nodes[i], i, payloads[i], StartBlock(payloads, i), uuid), off, bytes);
    }
  }
}
