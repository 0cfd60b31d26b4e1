/** Reading a crabfs image: what each call returns as a function of the bytes, and the loops that compute it. */
module CrabfsReader {
  import opened Common
  import opened Bits
  import opened Endian
  import opened XfsChecksum
  import opened DiskInode
  import opened DiskSuperblock
  import opened CrabfsDir

  datatype ReadError = Parse(error: ParseError) | DeviceOutOfRange

  const XFS_MAX_SECTOR_SIZE: nat := 4096

  /** `read_at`. */
  function ReadAt(image: seq<byte>, offset: nat, n: nat): (r: Result<seq<byte>, ReadError>)
    ensures r.Ok? ==> |r.value| == n
  {
    if offset + n <= |image| then Ok(image[offset..offset + n]) else Err(DeviceOutOfRange)
  }

  function Times(a: nat, b: nat): nat {
    a * b
  }

  function SaturatingMul(a: nat, b: nat): nat {
    Min(a * b, U64_MAX)
  }

  function AgStart(sb: Superblock, agno: nat): Result<nat, ReadError> {
    if agno >= sb.agCount then Err(DeviceOutOfRange)
    else Ok(SaturatingMul(SaturatingMul(agno, sb.agBlocks), sb.blockSize))
  }

  /** `inode_offset`: group, block within the group, and slot within the block. */
  function InodeOffset(sb: Superblock, ino: nat): Result<nat, ReadError> {
    var agno := Low(Shr(ino, sb.agblklog + sb.inopblog), 32);
    var agbno := Low(Shr(ino, sb.inopblog), sb.agblklog);
    var offset := Times(Low(ino, sb.inopblog), sb.inodeSize);
    var start := AgStart(sb, agno);
    if start.Err? then start else Ok(start.value + Times(agbno, sb.blockSize) + offset)
  }

  /** `read_superblock`. */
  function ReadSuperblock(image: seq<byte>): Result<Superblock, ReadError> {
    var raw := ReadAt(image, 0, XFS_DSB_SIZE);
    if raw.Err? then Err(raw.error)
    else
      var sb := ParseSb(raw.value);
      if sb.Err? then Err(Parse(sb.error))
      else if sb.value.version != XFS_SB_VERSION_5 then Ok(sb.value)
      else if sb.value.sectorSize > XFS_MAX_SECTOR_SIZE then Err(Parse(InvalidField))
      else
        var sector := ReadAt(image, 0, sb.value.sectorSize);
        if sector.Err? then Err(sector.error)
        else if Verifies(sector.value, XFS_SB_CRC_OFF) then Ok(sb.value)
        else Err(Parse(CrcMismatch))
  }

  /** `read_inode`, with the raw record. */
  function ReadInode(image: seq<byte>, sb: Superblock, ino: nat): (r: Result<(Inode, seq<byte>), ReadError>)
    ensures r.Ok? ==> |r.value.1| >= XFS_DINODE_SIZE_V3
  {
    var offset := InodeOffset(sb, ino);
    if offset.Err? then Err(offset.error)
    else
      var raw := ReadAt(image, offset.value, sb.inodeSize);
      if raw.Err? then Err(raw.error)
      else if sb.version == XFS_SB_VERSION_5 && !Verifies(raw.value, XFS_DINODE_CRC_OFF) then Err(Parse(CrcMismatch))
      else
        var inode := ParseInode(raw.value);
        if inode.Err? then Err(Parse(inode.error)) else Ok((inode.value, raw.value))
  }

  // ----- extents ----------------------------------------------------------------------------------------

  /** `extent_to_physical_offset`. */
  function PhysicalOffset(sb: Superblock, ext: BmapExtent): nat {
    Times(Times(Shr(ext.startblock, sb.agblklog), sb.agBlocks) + Low(ext.startblock, sb.agblklog), sb.blockSize)
  }

  /** Extent records i and up of a fork; a fork too short for one of them is an error. */
  function ParseExtents(fork: seq<byte>, i: nat, n: nat): Result<seq<BmapExtent>, ParseError>
    requires i <= n
    decreases n - i
  {
    if i == n then Ok([])
    else
      var ext := if 16 * i <= |fork| then ParseExtent(fork[16 * i..]) else Err(BufferTooSmall);
      if ext.Err? then Err(ext.error)
      else
        var rest := ParseExtents(fork, i + 1, n);
        if rest.Err? then rest else Ok([ext.value] + rest.value)
  }

  predicate Covers(sb: Superblock, ext: BmapExtent, offset: nat) {
    Times(ext.startoff, sb.blockSize) <= offset < Times(ext.startoff, sb.blockSize)
        + Times(ext.blockcount, sb.blockSize)
  }

  function Take(sb: Superblock, ext: BmapExtent, offset: nat, remaining: nat): (n: nat)
    requires Covers(sb, ext, offset)
    ensures n <= remaining
  {
    Min(Times(ext.blockcount, sb.blockSize) - (offset - Times(ext.startoff, sb.blockSize)), remaining)
  }

  /** What one pass over the extents collects. */
  function Gather(
      image: seq<byte>, sb: Superblock, exts: seq<BmapExtent>, offset: nat, remaining: nat)
    : Result<seq<byte>, ReadError>
    decreases |exts|
  {
    if exts == [] then Ok([])
    else if !Covers(sb, exts[0], offset) then Gather(image, sb, exts[1..], offset, remaining)
    else
      var n := Take(sb, exts[0], offset, remaining);
      var buf := ReadAt(image, PhysicalOffset(sb, exts[0]) + (offset - Times(exts[0].startoff, sb.blockSize)), n);
      if buf.Err? || remaining == n then buf
      else
        var rest := Gather(image, sb, exts[1..], offset + n, remaining - n);
        if rest.Err? then rest else Ok(buf.value + rest.value)
  }

  /** `inode.size as u64`. */
  function FileSize(inode: Inode): nat {
    if inode.size < 0 then Max(Unsigned64(inode.size), 0) else inode.size
  }

  /** `read_extent_range`. */
  function ReadRange(
      image: seq<byte>, sb: Superblock, inode: Inode, raw: seq<byte>, offset: nat, size: nat)
    : Result<seq<byte>, ReadError>
    requires |raw| >= XFS_DINODE_SIZE_V3
  {
    var exts := ParseExtents(raw[XFS_DINODE_SIZE_V3..], 0, inode.nextents);
    if exts.Err? then Err(Parse(exts.error))
    else if offset >= FileSize(inode) then Ok([])
    else Gather(image, sb, exts.value, offset, Min(size, FileSize(inode) - offset))
  }

  // ----- files and directories ------------------------------------------------------------------------------

  /** `mode & 0xf000`. */
  function ModeType(mode: nat): nat {
    Low(mode, 16) / 0x1000
  }

  predicate HasFtype(sb: Superblock) {
    sb.v5.Some? && sb.v5.value.featuresIncompat % 2 == 1
  }

  /** `read_file_data`. */
  function ReadFile(image: seq<byte>, sb: Superblock, ino: nat, offset: nat, size: nat): Result<seq<byte>, ReadError> {
    var r := ReadInode(image, sb, ino);
    if r.Err? then Err(r.error)
    else
      var inode, raw := r.value.0, r.value.1;
      if ModeType(inode.mode) != 8 && ModeType(inode.mode) != 10 then Ok([])
      else match inode.format
        case Local =>
          var end := Min(offset + size, FileSize(inode));
          if offset >= FileSize(inode) then Ok([])
          else if end <= |raw| - XFS_DINODE_SIZE_V3 then Ok(raw[XFS_DINODE_SIZE_V3..][offset..end])
          else Err(DeviceOutOfRange)
        case Extents => ReadRange(image, sb, inode, raw, offset, size)
        case _ => Ok([])
  }

  function LiftList(r: Result<seq<DirEntry>, ParseError>): Result<seq<DirEntry>, ReadError> {
    if r.Ok? then Ok(r.value) else Err(Parse(r.error))
  }

  function LiftFound(r: Result<Option<(nat, byte)>, ParseError>): Result<Option<(nat, byte)>, ReadError> {
    if r.Ok? then Ok(r.value) else Err(Parse(r.error))
  }

  /** `list_dir_entries`. */
  function ListDir(image: seq<byte>, sb: Superblock, ino: nat): Result<seq<DirEntry>, ReadError> {
    var r := ReadInode(image, sb, ino);
    if r.Err? then Err(r.error)
    else
      var inode, raw := r.value.0, r.value.1;
      if ModeType(inode.mode) != 4 then Err(Parse(InvalidField))
      else match inode.format
        case Local => LiftList(ListShortform(raw[XFS_DINODE_SIZE_V3..], ino, HasFtype(sb)))
        case Extents =>
          var data := ReadRange(image, sb, inode, raw, 0, FileSize(inode));
          if data.Err? then Err(data.error) else LiftList(ListExtentForm(data.value, ino))
        case _ => Ok([])
  }

  /** `find_dir_entry`. */
  function FindDir(
      image: seq<byte>, sb: Superblock, ino: nat, target: seq<byte>): Result<Option<(nat, byte)>, ReadError> {
    var r := ReadInode(image, sb, ino);
    if r.Err? then Err(r.error)
    else
      var inode, raw := r.value.0, r.value.1;
      if ModeType(inode.mode) != 4 then Err(Parse(InvalidField))
      else match inode.format
        case Local => LiftFound(FindShortform(raw[XFS_DINODE_SIZE_V3..], ino, HasFtype(sb), target))
        case Extents =>
          var data := ReadRange(image, sb, inode, raw, 0, FileSize(inode));
          if data.Err? then Err(data.error) else LiftFound(FindExtentForm(data.value, ino, target))
        case _ => Ok(None)
  }

  // ----- the loops --------------------------------------------------------------------------------------------

  /** The entry loop of `list_dir_entries` over a local fork. */
  method ScanShortform(
      data: seq<byte>, header: SfHeader, hasFtype: bool, start: seq<DirEntry>)
    returns (r: Result<seq<DirEntry>, ParseError>)
    requires header.consumed <= |data|
    ensures var scan := SfScan(data, header.consumed, header.count, header.i8count, hasFtype);
            r == if scan.Err? then scan else Ok(start + scan.value)
  {
    hide ParseSfEntry;
    var pos: nat := header.consumed;
    var entries := start;
    ghost var whole := SfScan(data, header.consumed, header.count, header.i8count, hasFtype);
    for k := 0 to header.count
      invariant pos <= |data|
      invariant var rest := SfScan(data, pos, header.count - k, header.i8count, hasFtype);
                rest.Ok? == whole.Ok?
                    && (if rest.Ok? then entries + rest.value == start + whole.value else rest == whole)
    {
      var e := ParseSfEntry(data, pos, header.i8count, hasFtype);
      if e.Err? {
        return Err(e.error);
      }
      entries := entries + [e.value.0];
      pos := e.value.1;
    }
    assert entries + [] == entries;
    return Ok(entries);
  }

  /** The search loop of `find_dir_entry` over a local fork. */
  method SearchShortform(
      data: seq<byte>, header: SfHeader, hasFtype: bool, target: seq<byte>)
    returns (r: Result<Option<(nat, byte)>, ParseError>)
    requires header.consumed <= |data|
    ensures r == SfFind(data, header.consumed, header.count, header.i8count, hasFtype, target)
  {
    hide ParseSfEntry;
    var pos: nat := header.consumed;
    for k := 0 to header.count
      invariant pos <= |data|
      invariant SfFind(data, pos, header.count - k, header.i8count, hasFtype, target)
                == SfFind(data, header.consumed, header.count, header.i8count, hasFtype, target)
    {
      var start := pos;
      var e := ParseSfEntry(data, pos, header.i8count, hasFtype);
      if e.Err? {
        return Err(e.error);
      }
      pos := e.value.1;
      var same := BytesEq(data[start + 3..start + 3 + data[start]], target);
      if same {
        return Ok(Some((e.value.0.ino, e.value.0.ftype)));
      }
    }
    return Ok(None);
  }

  method BytesEq(left: seq<byte>, right: seq<byte>) returns (same: bool)
    ensures same <==> left == right
  {
    if |left| != |right| {
      return false;
    }
    for i := 0 to |left|
      invariant left[..i] == right[..i]
    {
      if left[i] != right[i] {
        return false;
      }
    }
    assert left == left[..|left|] && right == right[..|left|];
    return true;
  }

  /** `parse_extent_dir_entries`, after the header. */
  method ScanExtentForm(
      data: seq<byte>, count: nat, start: seq<DirEntry>)
    returns (r: Result<seq<DirEntry>, ParseError>)
    ensures var scan := ExtScan(data, 20, count); r == if scan.Err? then scan else Ok(start + scan.value)
  {
    hide ParseExtEntry;
    var pos: nat := 20;
    var entries := start;
    ghost var whole := ExtScan(data, 20, count);
    for k := 0 to count
      invariant var rest := ExtScan(data, pos, count - k);
                rest.Ok? == whole.Ok?
                    && (if rest.Ok? then entries + rest.value == start + whole.value else rest == whole)
    {
      var e := ParseExtEntry(data, pos);
      if e.Err? {
        return Err(e.error);
      }
      entries := entries + [e.value.0];
      pos := e.value.1;
    }
    assert entries + [] == entries;
    return Ok(entries);
  }

  /** The extent loop of `read_extent_range`. */
  method GatherExtents(
      image: seq<byte>, sb: Superblock, exts: seq<BmapExtent>, offset: nat, size: nat)
    returns (r: Result<seq<byte>, ReadError>)
    ensures r == Gather(image, sb, exts, offset, size)
  {
    hide Covers, Take, PhysicalOffset, Times;
    var result: seq<byte> := [];
    var remaining: nat, current: nat := size, offset;
    ghost var whole := Gather(image, sb, exts, offset, size);
    var i := 0;
    assert exts[0..] == exts;
    while i < |exts|
      invariant 0 <= i <= |exts|
      invariant var rest := Gather(image, sb, exts[i..], current, remaining);
                rest.Ok? == whole.Ok? && (if rest.Ok? then result + rest.value == whole.value else rest == whole)
    {
      var ext := exts[i];
      assert exts[i..][0] == ext && exts[i..][1..] == exts[i + 1..];
      if Covers(sb, ext, current) {
        CoversFrom(sb, ext, current);
        var toRead := Take(sb, ext, current, remaining);
        var buf := ReadAt(image, PhysicalOffset(sb, ext) + (current - Times(ext.startoff, sb.blockSize)), toRead);
        if buf.Err? {
          return Err(buf.error);
        }
        result := result + buf.value;
        if remaining == toRead {
          return Ok(result);
        }
        remaining, current := remaining - toRead, current + toRead;
      }
      i := i + 1;
    }
    assert result + [] == result;
    return Ok(result);
  }

  lemma CoversFrom(sb: Superblock, ext: BmapExtent, offset: nat)
    requires Covers(sb, ext, offset)
    ensures offset >= Times(ext.startoff, sb.blockSize)
  {
  }

  /** The extent records of a fork. */
  method CollectExtents(fork: seq<byte>, n: nat) returns (r: Result<seq<BmapExtent>, ParseError>)
    ensures r == ParseExtents(fork, 0, n)
  {
    hide ParseExtent;
    var exts: seq<BmapExtent> := [];
    ghost var whole := ParseExtents(fork, 0, n);
    for i := 0 to n
      invariant var rest := ParseExtents(fork, i, n);
                rest.Ok? == whole.Ok? && (if rest.Ok? then exts + rest.value == whole.value else rest == whole)
    {
      if 16 * i > |fork| {
        return Err(BufferTooSmall);
      }
      var ext := ParseExtent(fork[16 * i..]);
      if ext.Err? {
        return Err(ext.error);
      }
      exts := exts + [ext.value];
    }
    assert exts + [] == exts;
    return Ok(exts);
  }

  method ReadExtentRange(
      image: seq<byte>, sb: Superblock, inode: Inode, raw: seq<byte>, offset: nat, size: nat)
    returns (r: Result<seq<byte>, ReadError>)
    requires |raw| >= XFS_DINODE_SIZE_V3
    ensures r == ReadRange(image, sb, inode, raw, offset, size)
  {
    hide ParseExtents, Gather;
    var exts := CollectExtents(raw[XFS_DINODE_SIZE_V3..], inode.nextents);
    if exts.Err? {
      return Err(Parse(exts.error));
    }
    if offset >= FileSize(inode) {
      return Ok([]);
    }
    r := GatherExtents(image, sb, exts.value, offset, Min(size, FileSize(inode) - offset));
  }

  /** `list_dir_entries`. */
  method ListDirEntries(image: seq<byte>, sb: Superblock, ino: nat) returns (r: Result<seq<DirEntry>, ReadError>)
    ensures r == ListDir(image, sb, ino)
  {
    hide ReadInode, ReadRange, ParseSfHeader, SfScan, ExtScan, FromBe;
    var read := ReadInode(image, sb, ino);
    if read.Err? {
      return Err(read.error);
    }
    var inode, raw := read.value.0, read.value.1;
    if ModeType(inode.mode) != 4 {
      return Err(Parse(InvalidField));
    }
    match inode.format {
      case Local =>
        var data := raw[XFS_DINODE_SIZE_V3..];
        var header := ParseSfHeader(data);
        if header.Err? {
          return Err(Parse(header.error));
        }
        var listed := ScanShortform(data, header.value, HasFtype(sb), Dots(ino, header.value.parent));
        return LiftList(listed);
      case Extents =>
        var data := ReadExtentRange(image, sb, inode, raw, 0, FileSize(inode));
        if data.Err? {
          return Err(data.error);
        }
        if !HasMagic(data.value) {
          return Ok(Dots(ino, ino));
        }
        if |data.value| < 20 {
          return Err(Parse(BufferTooSmall));
        }
        var listed := ScanExtentForm(data.value, FromBe(data.value[8..12]), Dots(ino, FromBe(data.value[12..20])));
        return LiftList(listed);
      case _ =>
        return Ok([]);
    }
  }

  /** `find_extent_dir_entry`, after the header. */
  method SearchExtentForm(
      data: seq<byte>, count: nat, target: seq<byte>)
    returns (r: Result<Option<(nat, byte)>, ParseError>)
    ensures r == ExtFind(data, 20, count, target)
  {
    hide ParseExtEntry;
    var pos: nat := 20;
    for k := 0 to count
      invariant ExtFind(data, pos, count - k, target) == ExtFind(data, 20, count, target)
    {
      var e := ParseExtEntry(data, pos);
      if e.Err? {
        return Err(e.error);
      }
      var same := BytesEq(e.value.0.name, target);
      if same {
        return Ok(Some((e.value.0.ino, e.value.0.ftype)));
      }
      pos := e.value.1;
    }
    return Ok(None);
  }

  /** `find_dir_entry`. */
  method FindDirEntry(
      image: seq<byte>, sb: Superblock, ino: nat, target: seq<byte>)
    returns (r: Result<Option<(nat, byte)>, ReadError>)
    ensures r == FindDir(image, sb, ino, target)
  {
    hide ReadInode, ReadRange, ParseSfHeader, SfFind, ExtFind, FromBe;
    var read := ReadInode(image, sb, ino);
    if read.Err? {
      return Err(read.error);
    }
    var inode, raw := read.value.0, read.value.1;
    if ModeType(inode.mode) != 4 {
      return Err(Parse(InvalidField));
    }
    match inode.format {
      case Local =>
        var data := raw[XFS_DINODE_SIZE_V3..];
        var header := ParseSfHeader(data);
        if header.Err? {
          return Err(Parse(header.error));
        }
        if target == DOT {
          return Ok(Some((ino, 2)));
        }
        if target == DOT_DOT {
          return Ok(Some((header.value.parent, 2)));
        }
        var found := SearchShortform(data, header.value, HasFtype(sb), target);
        return LiftFound(found);
      case Extents =>
        var data := ReadExtentRange(image, sb, inode, raw, 0, FileSize(inode));
        if data.Err? {
          return Err(data.error);
        }
        if !HasMagic(data.value) {
          return Ok(if target == DOT || target == DOT_DOT then Some((ino, 2)) else None);
        }
        if |data.value| < 20 {
          return Err(Parse(BufferTooSmall));
        }
        if target == DOT {
          return Ok(Some((ino, 2)));
        }
        if target == DOT_DOT {
          return Ok(Some((FromBe(data.value[12..20]), 2)));
        }
        var found := SearchExtentForm(data.value, FromBe(data.value[8..12]), target);
        return LiftFound(found);
      case _ =>
        return Ok(None);
    }
  }
}
