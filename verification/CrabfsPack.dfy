/** `mkfs` and the packer, writing a tree to a device. */
module CrabfsPack {
  import opened Common
  import opened Endian
  import opened XfsChecksum
  import opened DiskInode
  import opened DiskSuperblock
  import opened CrabfsDir
  import opened CrabfsLayout
  import opened CrabfsReader
  import opened CrabfsRoundTrip

  /** A block device of fixed size. */
  class Device {
    var data: seq<byte>

    method WriteAt(offset: nat, buf: seq<byte>) returns (r: Result<(), PackError>)
      modifies this
      ensures r.Ok? <==> offset + |buf| <= |old(data)|
      ensures r.Ok? ==> data == Put(old(data), offset, buf)
      ensures r.Err? ==> data == old(data) && r.error == OutOfRange
    {
      if offset + |buf| > |data| {
        return Err(OutOfRange);
      }
      data := Put(data, offset, buf);
      return Ok(());
    }
  }

  // ----- payloads ------------------------------------------------------------------------------------

  /** The short-form candidate of `build_payload`; fails on a name too long for its length byte. */
  method BuildShortform(entries: seq<PackedEntry>, parent: nat) returns (r: Result<seq<byte>, PackError>)
    requires |entries| < 256
    ensures r.Ok? <==> NamesBelow(entries, 256)
    ensures r.Ok? ==> r.value == Shortform(entries, parent)
    ensures r.Err? ==> r.error == TryFromInt
  {
    hide Be;
    var candidate: seq<byte> := [|entries|, 1] + Be(Ino(parent), 8);
    ghost var header := candidate;
    for slot := 0 to |entries|
      invariant NamesBelow(entries[..slot], 256) && candidate == header + SfEntries(entries[..slot])
    {
      var entry := entries[slot];
      if |entry.name| > 255 {
        return Err(TryFromInt);
      }
      ghost var before := candidate;
      candidate := candidate + [|entry.name|];
      candidate := candidate + Be(slot + 1, 2);
      candidate := candidate + entry.name;
      candidate := candidate + [entry.ftype];
      candidate := candidate + Be(Ino(entry.inodeIndex), 8);
      assert candidate == before + SfEntry(entry, slot);
      assert entries[..slot + 1][..slot] == entries[..slot];
    }
    assert entries[..|entries|] == entries;
    return Ok(candidate);
  }

  /** The extent form of `build_payload`. */
  method BuildExtentForm(entries: seq<PackedEntry>, parent: nat) returns (r: Result<seq<byte>, PackError>)
    ensures r == ExtentPayload(entries, parent)
  {
    hide Be;
    if |entries| >= 0x1_0000_0000 {
      return Err(TryFromInt);
    }
    var extent := EXTENT_DIR_MAGIC + Be(|entries|, 4) + Be(Ino(parent), 8);
    ghost var header := extent;
    for k := 0 to |entries|
      invariant NamesBelow(entries[..k], 0x1_0000) && extent == header + ExtEntries(entries[..k])
    {
      var entry := entries[k];
      if |entry.name| >= 0x1_0000 {
        return Err(TryFromInt);
      }
      ghost var before := extent;
      extent := extent + Be(Ino(entry.inodeIndex), 8);
      extent := extent + [entry.ftype];
      extent := extent + Be(|entry.name|, 2);
      extent := extent + entry.name;
      assert extent == before + ExtEntry(entry);
      assert entries[..k + 1][..k] == entries[..k];
    }
    assert entries[..|entries|] == entries;
    return Ok(extent);
  }

  /** `build_payload`. */
  method BuildPayload(node: Node) returns (r: Result<seq<byte>, PackError>)
    ensures r == Payload(node)
  {
    hide Shortform, ExtentForm, NamesBelow;
    match node.kind {
      case File(data) =>
        return Ok(data);
      case Symlink(target) =>
        return Ok(target);
      case Directory(entries) =>
        if |entries| <= 255 {
          var candidate := BuildShortform(entries, node.parentIndex);
          if candidate.Err? {
            return Err(candidate.error);
          }
          if |candidate.value| <= LOCAL_FORK_BYTES {
            return Ok(candidate.value);
          }
        }
        r := BuildExtentForm(entries, node.parentIndex);
    }
  }

  predicate AllPack(nodes: seq<Node>) {
    forall i :: 0 <= i < |nodes| ==> Payload(nodes[i]).Ok?
  }

  function Payloads(nodes: seq<Node>): (r: seq<seq<byte>>)
    requires AllPack(nodes)
    ensures |r| == |nodes|
  {
    seq(|nodes|, i requires 0 <= i < |nodes| => Payload(nodes[i]).value)
  }

  /** The layout loop: payloads, and where each of them goes. */
  method LayOut(nodes: seq<Node>) returns (r: Result<seq<seq<byte>>, PackError>, starts: seq<nat>, next: nat)
    ensures r.Ok? <==> AllPack(nodes)
    ensures r.Err? ==> r.error == TryFromInt
    ensures r.Ok? ==>
            r.value == Payloads(nodes) && |starts| == |nodes|
                && next == DataStart(|nodes|) + BlocksBefore(r.value, |nodes|)
    ensures r.Ok? ==> forall i :: 0 <= i < |nodes| ==> starts[i] == StartBlock(r.value, i)
  {
    hide Payload, Blocks, DivCeil, BlocksBefore, DataStart, StartsOk;
    next, starts := DataStart(|nodes|), [];
    var payloads: seq<seq<byte>> := [];
    NoStarts(next);
    for index := 0 to |nodes|
      invariant |payloads| == |starts| == index
      invariant forall i :: 0 <= i < index ==> Payload(nodes[i]) == Ok(payloads[i])
      invariant StartsOk(payloads, starts, DataStart(|nodes|), next)
    {
      var built := BuildPayload(nodes[index]);
      if built.Err? {
        PayloadErrors(nodes[index]);
        return Err(built.error), starts, next;
      }
      var payload := built.value;
      var blocks := if payload == [] then 0 else Blocks(payload);
      EmptyBlocks(payload);
      var start := if blocks == 0 then 0 else next;
      StartsMore(payloads, starts, DataStart(|nodes|), next, payload);
      next := next + blocks;
      payloads := payloads + [payload];
      starts := starts + [start];
    }
    assert payloads == Payloads(nodes);
    StartsDone(payloads, starts, next);
    return Ok(payloads), starts, next;
  }

  /** Blocks handed out from `base` on, in order, up to `next`. */
  ghost predicate StartsOk(payloads: seq<seq<byte>>, starts: seq<nat>, base: nat, next: nat) {
    && |starts| == |payloads| && next == base + BlocksBefore(payloads, |payloads|)
    && forall i :: 0 <= i < |payloads| ==>
        starts[i] == if Blocks(payloads[i]) == 0 then 0 else base + BlocksBefore(payloads, i)
  }

  lemma NoStarts(base: nat)
    ensures StartsOk([], [], base, base)
  {
  }

  lemma StartsMore(payloads: seq<seq<byte>>, starts: seq<nat>, base: nat, next: nat, payload: seq<byte>)
    requires StartsOk(payloads, starts, base, next)
    ensures StartsOk(payloads + [payload], starts + [if Blocks(payload) == 0 then 0 else next], base,
            next + Blocks(payload))
  {
    hide Blocks, BlocksBefore;
    var payloads', starts' := payloads + [payload], starts + [if Blocks(payload) == 0 then 0 else next];
    BlocksNext(payloads, payload);
    forall i | 0 <= i < |payloads'|
      ensures starts'[i] == if Blocks(payloads'[i]) == 0 then 0 else base + BlocksBefore(payloads', i)
    {
      BlocksSame(payloads, payloads', i);
    }
  }

  lemma BlocksNext(payloads: seq<seq<byte>>, payload: seq<byte>)
    ensures BlocksBefore(payloads + [payload], |payloads| + 1) == BlocksBefore(payloads, |payloads|) + Blocks(payload)
  {
    hide Blocks;
    BlocksSame(payloads, payloads + [payload], |payloads|);
  }

  lemma StartsDone(payloads: seq<seq<byte>>, starts: seq<nat>, next: nat)
    requires StartsOk(payloads, starts, DataStart(|payloads|), next)
    ensures |starts| == |payloads| && next == DataStart(|payloads|) + BlocksBefore(payloads, |payloads|)
    ensures forall i :: 0 <= i < |payloads| ==> starts[i] == StartBlock(payloads, i)
  {
    hide Blocks, BlocksBefore, DataStart;
  }

  lemma PayloadErrors(node: Node)
    ensures Payload(node).Err? ==> Payload(node).error == TryFromInt
  {
  }

  lemma EmptyBlocks(payload: seq<byte>)
    ensures payload == [] ==> Blocks(payload) == 0
  {
  }

  lemma {:induction false} BlocksSame(a: seq<seq<byte>>, b: seq<seq<byte>>, i: nat)
    requires i <= |a| && a <= b
    ensures BlocksBefore(a, i) == BlocksBefore(b, i)
  {
    if i > 0 { BlocksSame(a, b, i - 1); }
  }

  // ----- writing ----------------------------------------------------------------------------------------

  /** `write_data_blocks`: the payload, padded with zeros to whole blocks. */
  method WriteDataBlocks(dev: Device, startBlock: nat, payload: seq<byte>) returns (r: Result<(), PackError>)
    requires startBlock * BLOCK_SIZE + |Padded(payload)| <= |dev.data|
    modifies dev
    ensures r.Ok? && dev.data == Put(old(dev.data), startBlock * BLOCK_SIZE, Padded(payload))
  {
    hide Put;
    ghost var was, padded := dev.data, Padded(payload);
    ghost var at := startBlock * BLOCK_SIZE;
    var blocks := Blocks(payload);
    assert padded[..0] == [];
    PutNothing(was, at);
    for blockIdx := 0 to blocks
      invariant |dev.data| == |was| && dev.data == Put(was, at, padded[..blockIdx * BLOCK_SIZE])
    {
      var start := blockIdx * BLOCK_SIZE;
      var end := Min(|payload|, start + BLOCK_SIZE);
      var block := payload[start..end] + ZeroBytes(BLOCK_SIZE - (end - start));
      BlockOf(payload, blockIdx);
      PutAppend(was, at, padded[..start], block);
      var written := dev.WriteAt((startBlock + blockIdx) * BLOCK_SIZE, block);
    }
    assert padded[..blocks * BLOCK_SIZE] == padded;
    return Ok(());
  }

  lemma BlockOf(payload: seq<byte>, k: nat)
    requires k < Blocks(payload)
    ensures var start, end := k * BLOCK_SIZE, Min(|payload|, k * BLOCK_SIZE + BLOCK_SIZE);
            && start <= end <= |payload| && start + BLOCK_SIZE <= |Padded(payload)|
            && Padded(payload)[..start] + (payload[start..end] + ZeroBytes(BLOCK_SIZE - (end - start)))
                == Padded(payload)[..start + BLOCK_SIZE]
  {
  }

  /** `write_inode_record`. */
  method WriteInodeRecord(
      dev: Device, index: nat, node: Node, payload: seq<byte>, startBlock: nat, uuid: seq<byte>)
    returns (r: Result<(), PackError>)
    requires INODE_TABLE + index * INODE_SIZE + INODE_SIZE <= |dev.data|
    modifies dev
    ensures r.Ok?
    ensures dev.data
            == Put(old(dev.data), INODE_TABLE + index * INODE_SIZE, InodeRecord(node, index, payload, startBlock, uuid))
  {
    hide SerializeInode, SerializeExtent, InodeFor, Sealed, Verifies;
    var raw := SerializeInode(InodeFor(node, index, payload, uuid), ZeroBytes(INODE_SIZE));
    if FormatFor(payload) == Local {
      raw := Put(raw, XFS_DINODE_SIZE_V3, payload);
    } else {
      raw := Put(raw, XFS_DINODE_SIZE_V3, SerializeExtent(0, startBlock, Blocks(payload)));
    }
    SealedVerifies(raw, XFS_DINODE_CRC_OFF);
    raw := Sealed(raw, XFS_DINODE_CRC_OFF);
    r := dev.WriteAt(BLOCK_SIZE * INODE_TABLE_START_BLOCK + (Ino(index) - ROOT_INO) * INODE_SIZE, raw);
  }

  /** `mkfs` for one group: the superblock, three headers and four tree roots, none over another. */
  method Mkfs(dev: Device, totalBlocks: nat, sectorSize: nat, uuid: seq<byte>, h: GroupHeaders, rootInode: seq<byte>)
    requires GeometryOk(totalBlocks, sectorSize, uuid) && HeadersOk(h, sectorSize) && |rootInode| == INODE_SIZE
    requires |dev.data| >= totalBlocks * BLOCK_SIZE
    modifies dev
    ensures |dev.data| == |old(dev.data)|
    ensures MetadataHolds(dev.data, MkfsSuperblock(totalBlocks, sectorSize, uuid), sectorSize, h)
  {
    hide Holds, Put, SuperSector, HeadersOk;
    HeaderSizes(h, sectorSize);
    var sb := MkfsSuperblock(totalBlocks, sectorSize, uuid);
    var super := SuperSector(sb, sectorSize);
    var written := dev.WriteAt(0, super);
    ghost var d0 := dev.data;
    HoldsPut(old(dev.data), 0, super);
    written := dev.WriteAt(sectorSize, h.agf);
    ghost var d1 := dev.data;
    HoldsPut(d0, sectorSize, h.agf);
    HoldsKept(d0, 0, super, sectorSize, h.agf);
    written := dev.WriteAt(2 * sectorSize, h.agi);
    ghost var d2 := dev.data;
    HoldsPut(d1, 2 * sectorSize, h.agi);
    HoldsKept(d1, 0, super, 2 * sectorSize, h.agi);
    HoldsKept(d1, sectorSize, h.agf, 2 * sectorSize, h.agi);
    written := dev.WriteAt(3 * sectorSize, h.agfl);
    HoldsPut(d2, 3 * sectorSize, h.agfl);
    HoldsKept(d2, 0, super, 3 * sectorSize, h.agfl);
    HoldsKept(d2, sectorSize, h.agf, 3 * sectorSize, h.agfl);
    HoldsKept(d2, 2 * sectorSize, h.agi, 3 * sectorSize, h.agfl);
    WriteRoots(dev, sb, sectorSize, h);
    ghost var d3 := dev.data;
    MetadataKept(d3, sb, sectorSize, h, INODE_TABLE, rootInode);
    written := dev.WriteAt(8 * BLOCK_SIZE, rootInode);
  }

  lemma HeaderSizes(h: GroupHeaders, sectorSize: nat)
    requires HeadersOk(h, sectorSize)
    ensures |h.agf| == |h.agi| == |h.agfl| == sectorSize && |h.roots| == 4
  {
  }

  /** The four tree roots, in blocks 4 to 7, above every header sector. */
  method WriteRoots(dev: Device, sb: Superblock, sectorSize: nat, h: GroupHeaders)
    requires XFS_DSB_SIZE <= sectorSize <= 4096 && HeadersOk(h, sectorSize) && |dev.data| >= 8 * BLOCK_SIZE
    requires Holds(dev.data, 0, SuperSector(sb, sectorSize)) && Holds(dev.data, sectorSize, h.agf)
    requires Holds(dev.data, 2 * sectorSize, h.agi) && Holds(dev.data, 3 * sectorSize, h.agfl)
    modifies dev
    ensures |dev.data| == |old(dev.data)| && MetadataHolds(dev.data, sb, sectorSize, h)
  {
    hide Holds, Put, SuperSector;
    var super := SuperSector(sb, sectorSize);
    for k := 0 to 4
      invariant |dev.data| == |old(dev.data)|
      invariant Holds(dev.data, 0, super) && Holds(dev.data, sectorSize, h.agf)
      invariant Holds(dev.data, 2 * sectorSize, h.agi) && Holds(dev.data, 3 * sectorSize, h.agfl)
      invariant forall j :: 0 <= j < k ==> Holds(dev.data, (4 + j) * BLOCK_SIZE, h.roots[j])
    {
      var off, root := (4 + k) * BLOCK_SIZE, h.roots[k];
      ghost var d := dev.data;
      HoldsPut(d, off, root);
      HoldsKept(d, 0, super, off, root);
      HoldsKept(d, sectorSize, h.agf, off, root);
      HoldsKept(d, 2 * sectorSize, h.agi, off, root);
      HoldsKept(d, 3 * sectorSize, h.agfl, off, root);
      forall j | 0 <= j < k ensures Holds(Put(d, off, root), (4 + j) * BLOCK_SIZE, h.roots[j]) {
        HoldsKept(d, (4 + j) * BLOCK_SIZE, h.roots[j], off, root);
      }
      var written := dev.WriteAt(off, root);
    }
  }

  /** Step one of writing the tree: every payload in its blocks. */
  method WritePayloads(
      dev: Device, payloads: seq<seq<byte>>, starts: seq<nat>, totalBlocks: nat, ghost sb: Superblock,
      ghost sectorSize: nat, ghost h: GroupHeaders)
    requires |starts| == |payloads| && forall i :: 0 <= i < |payloads| ==> starts[i] == StartBlock(payloads, i)
    requires Fits(payloads, totalBlocks) && |dev.data| >= totalBlocks * BLOCK_SIZE
    requires XFS_DSB_SIZE <= sectorSize <= 4096 && HeadersOk(h, sectorSize)
    requires MetadataHolds(dev.data, sb, sectorSize, h)
    modifies dev
    ensures |dev.data| == |old(dev.data)| && MetadataHolds(dev.data, sb, sectorSize, h)
    ensures DataHolds(dev.data, payloads, |payloads|)
  {
    hide Holds, Put, Blocks, DivCeil, HeadersOk, MetadataHolds, DataHolds, BlocksBefore, Padded, DataStart;
    NoData(dev.data, payloads);
    for i := 0 to |payloads|
      invariant |dev.data| == |old(dev.data)| && MetadataHolds(dev.data, sb, sectorSize, h)
      invariant DataHolds(dev.data, payloads, i)
    {
      if Blocks(payloads[i]) == 0 {
        DataSkip(dev.data, payloads, i);
      } else {
        BlockRoom(payloads, totalBlocks, i);
        PaddedLength(payloads[i]);
        MetadataKept(dev.data, sb, sectorSize, h, starts[i] * BLOCK_SIZE, Padded(payloads[i]));
        DataMore(dev.data, payloads, i);
        var written := WriteDataBlocks(dev, starts[i], payloads[i]);
      }
    }
  }

  lemma NoData(image: seq<byte>, payloads: seq<seq<byte>>)
    ensures DataHolds(image, payloads, 0)
  {
  }

  lemma DataSkip(image: seq<byte>, payloads: seq<seq<byte>>, n: nat)
    requires n < |payloads| && DataHolds(image, payloads, n) && Blocks(payloads[n]) == 0
    ensures DataHolds(image, payloads, n + 1)
  {
    hide Holds, Blocks, StartBlock, Padded;
  }

  lemma PaddedLength(payload: seq<byte>)
    ensures |Padded(payload)| == Blocks(payload) * BLOCK_SIZE
  {
  }

  lemma BlockRoom(payloads: seq<seq<byte>>, totalBlocks: nat, i: nat)
    requires i < |payloads| && Fits(payloads, totalBlocks) && Blocks(payloads[i]) > 0
    ensures INODE_TABLE_START_BLOCK <= StartBlock(payloads, i)
    ensures StartBlock(payloads, i) + Blocks(payloads[i]) <= totalBlocks
  {
    hide Blocks, DivCeil;
    BlocksOrder(payloads, i, |payloads|);
  }

  /** Step two: every inode record in the table. */
  method WriteInodes(
      dev: Device, nodes: seq<Node>, payloads: seq<seq<byte>>, starts: seq<nat>, uuid: seq<byte>,
      ghost totalBlocks: nat, ghost sb: Superblock, ghost sectorSize: nat, ghost h: GroupHeaders)
    requires |starts| == |payloads| == |nodes| && forall i :: 0 <= i < |payloads| ==>
             starts[i] == StartBlock(payloads, i)
    requires Fits(payloads, totalBlocks) && |dev.data| >= totalBlocks * BLOCK_SIZE
    requires XFS_DSB_SIZE <= sectorSize <= 4096 && HeadersOk(h, sectorSize)
    requires MetadataHolds(dev.data, sb, sectorSize, h)
    requires DataHolds(dev.data, payloads, |payloads|)
    modifies dev
    ensures |dev.data| == |old(dev.data)| && MetadataHolds(dev.data, sb, sectorSize, h)
    ensures DataHolds(dev.data, payloads, |payloads|) && InodesHold(dev.data, nodes, payloads, uuid, |payloads|)
  {
    hide Holds, Put, HeadersOk, MetadataHolds, DataHolds, InodesHold, BlocksBefore, InodeRecord, DataStart, StartBlock;
    NoInodes(dev.data, nodes, payloads, uuid);
    for i := 0 to |nodes|
      invariant |dev.data| == |old(dev.data)| && MetadataHolds(dev.data, sb, sectorSize, h)
      invariant DataHolds(dev.data, payloads, |payloads|) && InodesHold(dev.data, nodes, payloads, uuid, i)
    {
      TableBelowData(|payloads|, i);
      ghost var record := InodeRecord(nodes[i], i, payloads[i], starts[i], uuid);
      MetadataKept(dev.data, sb, sectorSize, h, INODE_TABLE + i * INODE_SIZE, record);
      InodeMore(dev.data, nodes, payloads, uuid, i);
      var written := WriteInodeRecord(dev, i, nodes[i], payloads[i], starts[i], uuid);
    }
  }

  lemma NoInodes(image: seq<byte>, nodes: seq<Node>, payloads: seq<seq<byte>>, uuid: seq<byte>)
    requires |payloads| == |nodes|
    ensures InodesHold(image, nodes, payloads, uuid, 0)
  {
  }

  /** The tree that is packed: an empty one gets a root. */
  function Rooted(nodes: seq<Node>): seq<Node> {
    if nodes == [] then [Node(0, 0x41ED, 0, 0, Directory([]))] else nodes
  }

  /**
   * `pack_from_directory`, from the collected nodes on: it succeeds exactly when every payload can
   * be encoded and everything fits, and the device then holds the packed tree.
   */
  method Pack(
      dev: Device, tree: seq<Node>, totalBlocks: nat, sectorSize: nat, uuid: seq<byte>, h: GroupHeaders,
      rootInode: seq<byte>)
    returns (r: Result<nat, PackError>)
    requires 10 <= totalBlocks && XFS_DSB_SIZE <= sectorSize <= 4096 && |uuid| == 16
    requires HeadersOk(h, sectorSize) && |rootInode| == INODE_SIZE && |dev.data| >= totalBlocks * BLOCK_SIZE
    modifies dev
    ensures r.Ok? <==> totalBlocks < 0x1_0000_0000 && AllPack(Rooted(tree)) && Fits(Payloads(Rooted(tree)), totalBlocks)
    ensures r.Err? ==>
            r.error == if totalBlocks < 0x1_0000_0000 && AllPack(Rooted(tree)) then OutOfRange else TryFromInt
    ensures r.Ok? ==> r.value == |Rooted(tree)|
    ensures r.Ok? ==>
            PackedImage(Packing(dev.data, Rooted(tree), Payloads(Rooted(tree)), totalBlocks, sectorSize, uuid, h))
  {
    hide HeadersOk, MetadataHolds, DataHolds, InodesHold, DataStart, BlocksBefore, StartBlock, MkfsSuperblock, Payload;
    if totalBlocks >= 0x1_0000_0000 {
      return Err(TryFromInt);
    }
    Mkfs(dev, totalBlocks, sectorSize, uuid, h, rootInode);
    ghost var sb := MkfsSuperblock(totalBlocks, sectorSize, uuid);
    var nodes := Rooted(tree);
    var laid, starts, next := LayOut(nodes);
    if laid.Err? {
      return Err(laid.error);
    }
    var payloads := laid.value;
    if next > totalBlocks {
      return Err(OutOfRange);
    }
    WritePayloads(dev, payloads, starts, totalBlocks, sb, sectorSize, h);
    WriteInodes(dev, nodes, payloads, starts, uuid, totalBlocks, sb, sectorSize, h);
    return Ok(|nodes|);
  }

  // ----- a tree that the packer accepts and the reader misreads ------------------------------------------

  lemma {:induction false} EmptyPayloads(payloads: seq<seq<byte>>, i: nat)
    requires 1 <= i <= |payloads| && forall k :: 1 <= k < |payloads| ==> payloads[k] == []
    ensures BlocksBefore(payloads, i) == Blocks(payloads[0])
  {
    if i > 1 {
      EmptyPayloads(payloads, i - 1);
    } else {
      assert BlocksBefore(payloads, 0) == 0;
    }
  }

  /** The example tree needs twelve blocks. */
  lemma ExamplePacks(totalBlocks: nat)
    ensures AllPack(ExampleTree())
    ensures Fits(Payloads(ExampleTree()), totalBlocks) <==> totalBlocks >= 12
  {
    hide BlocksBefore, ExampleEntries;
    ExampleInBetween();
    var tree := ExampleTree();
    assert forall k :: 1 <= k < |tree| ==> Payload(tree[k]) == Ok([]);
    EmptyPayloads(Payloads(tree), |tree|);
  }

  /** Packing it on a device of at least twelve blocks succeeds, and the root then lists wrongly. */
  method PackExample(
      dev: Device, totalBlocks: nat, sectorSize: nat, uuid: seq<byte>, h: GroupHeaders, rootInode: seq<byte>)
    returns (r: Result<nat, PackError>)
    requires 12 <= totalBlocks < 0x1_0000_0000 && XFS_DSB_SIZE <= sectorSize <= 4096 && |uuid| == 16
    requires HeadersOk(h, sectorSize) && |rootInode| == INODE_SIZE && |dev.data| >= totalBlocks * BLOCK_SIZE
    modifies dev
    ensures r == Ok(22) && TreeOk(ExampleTree())
    ensures var sb := MkfsSuperblock(totalBlocks, sectorSize, uuid);
            ListDir(dev.data, sb, Ino(0)) != Ok(Expected(ExampleTree()[0], 0))
  {
    hide HeadersOk, PackedImage, ListDir, Expected, ExampleEntries, AllPack, Fits, MkfsSuperblock, TreeOk;
    ExamplePacks(totalBlocks);
    ExampleTreeOk();
    r := Pack(dev, ExampleTree(), totalBlocks, sectorSize, uuid, h, rootInode);
    ExampleMisreads(Packing(dev.data, ExampleTree(), Payloads(ExampleTree()), totalBlocks, sectorSize, uuid, h));
  }
}
