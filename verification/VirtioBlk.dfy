/** The block device over 512-byte sectors: byte ranges of any alignment on one flat array. */
module VirtioBlk {
  import opened Common
  import opened Endian

  const SECTOR_SIZE: nat := 512

  datatype BlkError = OutOfRange | Io

  ghost predicate SectorsOk(sectors: seq<seq<byte>>) {
    forall s :: 0 <= s < |sectors| ==> |sectors[s]| == SECTOR_SIZE
  }

  /** The sectors end to end. */
  ghost function Flat(sectors: seq<seq<byte>>): (r: seq<byte>)
    requires SectorsOk(sectors)
    ensures |r| == SECTOR_SIZE * |sectors|
  {
    seq(SECTOR_SIZE * |sectors|, k requires 0 <= k < SECTOR_SIZE * |sectors| => ByteOf(sectors, k))
  }

  ghost function ByteOf(sectors: seq<seq<byte>>, k: nat): byte
    requires SectorsOk(sectors) && k < SECTOR_SIZE * |sectors|
  {
    sectors[k / SECTOR_SIZE][k % SECTOR_SIZE]
  }

  /** Part of one sector is the same part of the flat array. */
  lemma SectorPart(sectors: seq<seq<byte>>, s: nat, a: nat, b: nat)
    requires SectorsOk(sectors) && s < |sectors| && a <= b <= SECTOR_SIZE
    ensures Flat(sectors)[SECTOR_SIZE * s + a..SECTOR_SIZE * s + b] == sectors[s][a..b]
  {
    var x, y := Flat(sectors)[SECTOR_SIZE * s + a..SECTOR_SIZE * s + b], sectors[s][a..b];
    forall k | 0 <= k < b - a ensures x[k] == y[k] {
      assert x[k] == ByteOf(sectors, SECTOR_SIZE * s + a + k);
      assert (SECTOR_SIZE * s + (a + k)) / SECTOR_SIZE == s && (SECTOR_SIZE * s + (a + k)) % SECTOR_SIZE == a + k;
    }
  }

  /** Overwriting part of one sector overwrites that part of the flat array, and nothing else. */
  lemma SectorUpdate(sectors: seq<seq<byte>>, s: nat, a: nat, part: seq<byte>)
    requires SectorsOk(sectors) && s < |sectors| && a + |part| <= SECTOR_SIZE
    ensures SectorsOk(sectors[s := Put(sectors[s], a, part)])
    ensures Flat(sectors[s := Put(sectors[s], a, part)]) == Put(Flat(sectors), SECTOR_SIZE * s + a, part)
  {
    var sectors' := sectors[s := Put(sectors[s], a, part)];
    var x, y := Flat(sectors'), Put(Flat(sectors), SECTOR_SIZE * s + a, part);
    forall k | 0 <= k < |x| ensures x[k] == y[k] {
      assert x[k] == ByteOf(sectors', k);
      assert Flat(sectors)[k] == ByteOf(sectors, k);
      assert k == SECTOR_SIZE * (k / SECTOR_SIZE) + k % SECTOR_SIZE;
    }
  }

  /** Only part of the data reached the device, and that part is where it belongs. */
  ghost predicate PartlyWritten(before: seq<byte>, after: seq<byte>, offset: nat, buf: seq<byte>)
    requires offset + |buf| <= |before|
  {
    exists k :: 0 <= k <= |buf| && after == Put(before, offset, buf[..k])
  }

  /** The first `pos` bytes of the buffer have been read; the rest is as it was. */
  ghost predicate ReadSoFar(data: seq<byte>, was: seq<byte>, now: seq<byte>, offset: nat, pos: nat) {
    pos <= |was| && offset + pos <= |data| && now == data[offset..offset + pos] + was[pos..]
  }

  ghost predicate PartlyRead(data: seq<byte>, was: seq<byte>, now: seq<byte>, offset: nat) {
    exists k: nat :: ReadSoFar(data, was, now, offset, k)
  }

  class VirtioBlkDevice {
    const capacitySectors: nat
    /** The medium. */
    var sectors: seq<seq<byte>>
    /** Every sector number ever asked of the device. */
    ghost var requested: set<nat>

    ghost predicate Valid()
      reads this
    {
      && |sectors| == capacitySectors && SectorsOk(sectors) && capacitySectors * SECTOR_SIZE <= U64_MAX
      && forall s <- requested :: s < capacitySectors
    }

    ghost function Data(): seq<byte>
      requires SectorsOk(sectors)
      reads this
    {
      Flat(sectors)
    }

    /** `read_sector`: a request that may fail. */
    method ReadSector(sector: nat) returns (r: Result<seq<byte>, BlkError>)
      requires |sectors| == capacitySectors
      modifies `requested
      ensures requested == old(requested) + {sector}
      ensures sector >= capacitySectors ==> r == Err(OutOfRange)
      ensures sector < capacitySectors ==> r == Err(Io) || r == Ok(sectors[sector])
    {
      requested := requested + {sector};
      if sector >= capacitySectors {
        return Err(OutOfRange);
      }
      var served: bool := *;
      if !served {
        return Err(Io);
      }
      return Ok(sectors[sector]);
    }

    /** `write_sector`: a failed request may or may not have reached the medium. */
    method WriteSector(sector: nat, data: seq<byte>) returns (r: Result<(), BlkError>)
      requires |sectors| == capacitySectors && |data| == SECTOR_SIZE
      modifies `requested, `sectors
      ensures requested == old(requested) + {sector}
      ensures sector >= capacitySectors ==> r == Err(OutOfRange) && sectors == old(sectors)
      ensures sector < capacitySectors ==> r == Err(Io) || r == Ok(())
      ensures sector < capacitySectors && r.Ok? ==> sectors == old(sectors)[sector := data]
      ensures sector < capacitySectors && r.Err? ==> sectors == old(sectors) || sectors == old(sectors)[sector := data]
    {
      requested := requested + {sector};
      if sector >= capacitySectors {
        return Err(OutOfRange);
      }
      var reached: bool := *;
      var served: bool := *;
      if reached || served {
        sectors := sectors[sector := data];
      }
      return if served then Ok(()) else Err(Io);
    }

    /** One round of `read_at`: part of one sector into the buffer. */
    method ReadPiece(sector: nat, inSector: nat, take: nat, buf: array<byte>, outPos: nat) returns (ok: bool)
      requires Valid() && sector < capacitySectors && inSector + take <= SECTOR_SIZE && outPos + take <= buf.Length
      modifies `requested, buf
      ensures Valid()
      ensures !ok ==> buf[..] == old(buf[..])
      ensures ok ==> var at := SECTOR_SIZE * sector + inSector;
                     buf[..] == old(buf[..])[..outPos] + Data()[at..at + take] + old(buf[..])[outPos + take..]
    {
      hide Flat, ByteOf;
      var tmp := ReadSector(sector);
      if tmp.Err? {
        return false;
      }
      SectorPart(sectors, sector, inSector, inSector + take);
      CopyFromSlice(buf, outPos, tmp.value[inSector..inSector + take]);
      return true;
    }

    /** The loop of `read_at`, on a range inside the device. */
    method ReadInside(offset: nat, buf: array<byte>) returns (ok: bool)
      requires Valid() && offset + buf.Length <= SECTOR_SIZE * capacitySectors
      modifies `requested, buf
      ensures Valid()
      ensures ok ==> ReadSoFar(Data(), old(buf[..]), buf[..], offset, buf.Length)
      ensures !ok ==> PartlyRead(Data(), old(buf[..]), buf[..], offset)
    {
      hide Flat, ByteOf, ReadSoFar, PartlyRead;
      var remaining: nat, outPos: nat, curOff: nat := buf.Length, 0, offset;
      ghost var was := buf[..];
      NothingRead(Data(), was, offset);
      while remaining > 0
        invariant Valid() && remaining == buf.Length - outPos && curOff == offset + outPos
        invariant ReadSoFar(Data(), was, buf[..], offset, outPos)
      {
        var sector: nat := curOff / SECTOR_SIZE;
        var inSector: nat := curOff % SECTOR_SIZE;
        var take: nat := Min(remaining, SECTOR_SIZE - inSector);
        ghost var before := buf[..];
        StoppedAt(Data(), was, before, offset, outPos);
        InRange(curOff, capacitySectors);
        var ok := ReadPiece(sector, inSector, take, buf, outPos);
        if !ok {
          return false;
        }
        ReadGrows(Data(), was, before, buf[..], offset, outPos, take);
        curOff, outPos, remaining := curOff + take, outPos + take, remaining - take;
      }
      return true;
    }

    /** `read_at`: exactly the requested range, or an error; a failure leaves a prefix read. */
    method ReadAt(offset: nat, buf: array<byte>) returns (r: Result<(), BlkError>)
      requires Valid() && offset <= U64_MAX && buf.Length <= U64_MAX
      modifies `requested, buf
      ensures Valid()
      ensures r == Err(OutOfRange) <==> offset + buf.Length > capacitySectors * SECTOR_SIZE
      ensures r == Err(OutOfRange) ==> buf[..] == old(buf[..])
      ensures r.Ok? ==> buf[..] == Data()[offset..offset + buf.Length]
      ensures r == Err(Io) ==> PartlyRead(Data(), old(buf[..]), buf[..], offset)
    {
      hide Flat, ByteOf, PartlyRead;
      var end := SaturatingAdd(offset, buf.Length);
      if end > Min(capacitySectors * SECTOR_SIZE, U64_MAX) {
        return Err(OutOfRange);
      }
      if buf.Length == 0 {
        return Ok(());
      }
      var ok := ReadInside(offset, buf);
      return if ok then Ok(()) else Err(Io);
    }

    /** `write_at`: exactly the requested range changes; a failure leaves a prefix written. */
    method WriteAt(offset: nat, buf: seq<byte>) returns (r: Result<(), BlkError>)
      requires Valid() && offset <= U64_MAX && |buf| <= U64_MAX
      modifies `requested, `sectors
      ensures Valid()
      ensures r == Err(OutOfRange) <==> offset + |buf| > capacitySectors * SECTOR_SIZE
      ensures r == Err(OutOfRange) ==> sectors == old(sectors)
      ensures r.Ok? ==> Data() == Put(old(Data()), offset, buf)
      ensures r == Err(Io) ==> PartlyWritten(old(Data()), Data(), offset, buf)
    {
      hide Flat, ByteOf, Put;
      var end := SaturatingAdd(offset, |buf|);
      if end > Min(capacitySectors * SECTOR_SIZE, U64_MAX) {
        return Err(OutOfRange);
      }
      ghost var was := Data();
      PutNothing(was, offset);
      if buf == [] {
        return Ok(());
      }
      var remaining, inPos, curOff := |buf|, 0, offset;
      assert buf[..0] == [];
      while remaining > 0
        invariant Valid() && 0 <= inPos <= |buf| && remaining == |buf| - inPos && curOff == offset + inPos
        invariant Data() == Put(was, offset, buf[..inPos])
      {
        var sector := curOff / SECTOR_SIZE;
        var inSector := curOff % SECTOR_SIZE;
        var take := Min(remaining, SECTOR_SIZE - inSector);
        var tmp: seq<byte> := seq(SECTOR_SIZE, _ => 0);
        if take != SECTOR_SIZE {
          var current := ReadSector(sector);
          if current.Err? {
            return Err(Io);
          }
          tmp := current.value;
        }
        var part := buf[inPos..inPos + take];
        WholeSector(sectors[sector], tmp, inSector, part);
        tmp := Put(tmp, inSector, part);
        SectorUpdate(sectors, sector, inSector, part);
        PutAppend(was, offset, buf[..inPos], part);
        assert buf[..inPos] + part == buf[..inPos + take];
        var written := WriteSector(sector, tmp);
        if written.Err? {
          return Err(Io);
        }
        curOff, inPos, remaining := curOff + take, inPos + take, remaining - take;
      }
      assert buf[..inPos] == buf;
      return Ok(());
    }
  }

  /** A sector overwritten whole need not be read first. */
  lemma WholeSector(sector: seq<byte>, tmp: seq<byte>, a: nat, part: seq<byte>)
    requires |sector| == |tmp| == SECTOR_SIZE && a + |part| <= SECTOR_SIZE
    requires tmp == sector || |part| == SECTOR_SIZE
    ensures Put(tmp, a, part) == Put(sector, a, part)
  {
  }

  lemma NothingRead(data: seq<byte>, was: seq<byte>, offset: nat)
    requires offset <= |data|
    ensures ReadSoFar(data, was, was, offset, 0)
  {
  }

  lemma StoppedAt(data: seq<byte>, was: seq<byte>, now: seq<byte>, offset: nat, pos: nat)
    requires ReadSoFar(data, was, now, offset, pos)
    ensures PartlyRead(data, was, now, offset)
  {
  }

  /** Every byte below the capacity lies in a sector below the capacity. */
  lemma InRange(offset: nat, capacity: nat)
    requires offset < SECTOR_SIZE * capacity
    ensures offset / SECTOR_SIZE < capacity && offset == SECTOR_SIZE * (offset / SECTOR_SIZE) + offset % SECTOR_SIZE
  {
  }

  lemma ReadGrows(
      data: seq<byte>, was: seq<byte>, before: seq<byte>, after: seq<byte>, offset: nat, pos: nat, take: nat)
    requires pos + take <= |was| == |before| && offset + pos + take <= |data|
    requires ReadSoFar(data, was, before, offset, pos)
    requires after == before[..pos] + data[offset + pos..offset + pos + take] + before[pos + take..]
    ensures ReadSoFar(data, was, after, offset, pos + take)
  {
    assert before[pos + take..] == was[pos + take..];
    assert before[..pos] == data[offset..offset + pos];
    assert data[offset..offset + pos] + data[offset + pos..offset + pos + take] == data[offset..offset + pos + take];
  }
}
