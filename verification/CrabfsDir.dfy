/** The two encodings of a directory: short form in the inode, and extent form in data blocks. */
module CrabfsDir {
  import opened Common
  import opened Endian
  import opened DiskInode

  const LOCAL_FORK_BYTES: nat := 336

  datatype PackedEntry = PackedEntry(name: seq<byte>, inodeIndex: nat, ftype: byte)

  /** What a reader reports. Names are byte strings. */
  datatype DirEntry = DirEntry(ino: nat, name: seq<byte>, ftype: byte)

  /** `inode_number`. */
  function Ino(index: nat): nat {
    ROOT_INO + index
  }

  function Reported(e: PackedEntry): DirEntry {
    DirEntry(Ino(e.inodeIndex), e.name, e.ftype)
  }

  /** Inode numbers are 64-bit and names have the length their field can hold. */
  ghost predicate EntriesOk(entries: seq<PackedEntry>, parent: nat, nameLimit: nat) {
    && Ino(parent) < Pow256(8)
    && forall i :: 0 <= i < |entries| ==> Ino(entries[i].inodeIndex) < Pow256(8) && |entries[i].name| < nameLimit
  }

  // ----- writing ---------------------------------------------------------------------------------------

  function SfEntry(e: PackedEntry, slot: nat): seq<byte>
    requires |e.name| < 256
  {
    [|e.name|] + Be(slot + 1, 2) + e.name + [e.ftype] + Be(Ino(e.inodeIndex), 8)
  }

  predicate NamesBelow(entries: seq<PackedEntry>, limit: nat) {
    forall i :: 0 <= i < |entries| ==> |entries[i].name| < limit
  }

  function SfEntries(entries: seq<PackedEntry>): seq<byte>
    requires NamesBelow(entries, 256)
  {
    if entries == [] then []
    else SfEntries(entries[..|entries| - 1]) + SfEntry(entries[|entries| - 1], |entries| - 1)
  }

  function Shortform(entries: seq<PackedEntry>, parent: nat): seq<byte>
    requires NamesBelow(entries, 256) && |entries| < 256
  {
    [|entries|, 1] + Be(Ino(parent), 8) + SfEntries(entries)
  }

  const EXTENT_DIR_MAGIC: seq<byte> := [67, 68, 73, 82, 48, 48, 48, 49]

  function ExtEntry(e: PackedEntry): seq<byte> {
    Be(Ino(e.inodeIndex), 8) + [e.ftype] + Be(|e.name|, 2) + e.name
  }

  function ExtEntries(entries: seq<PackedEntry>): seq<byte> {
    if entries == [] then [] else ExtEntries(entries[..|entries| - 1]) + ExtEntry(entries[|entries| - 1])
  }

  function ExtentForm(entries: seq<PackedEntry>, parent: nat): seq<byte> {
    EXTENT_DIR_MAGIC + Be(|entries|, 4) + Be(Ino(parent), 8) + ExtEntries(entries)
  }

  // ----- reading -----------------------------------------------------------------------------------------

  datatype SfHeader = SfHeader(count: nat, i8count: nat, parent: nat, consumed: nat)

  /** `DirSfHeader::parse`. */
  function ParseSfHeader(data: seq<byte>): (r: Result<SfHeader, ParseError>)
    ensures r.Ok? ==> r.value.consumed <= |data|
  {
    if |data| < 3 then Err(BufferTooSmall)
    else if data[1] == 0 then
      if |data| < 6 then Err(BufferTooSmall) else Ok(SfHeader(data[0], data[1], FromBe(data[2..6]), 6))
    else if |data| < 10 then Err(BufferTooSmall)
    else Ok(SfHeader(data[0], data[1], FromBe(data[2..10]), 10))
  }

  /** `DirSfEntry::parse` at a position, with the position after the entry. */
  function ParseSfEntry(
      data: seq<byte>, pos: nat, i8count: nat, hasFtype: bool): (r: Result<(DirEntry, nat), ParseError>)
    requires pos <= |data|
    ensures r.Ok? ==> pos < r.value.1 <= |data| && pos + 3 + data[pos] <= |data|
    ensures r.Ok? ==> r.value.0.name == data[pos + 3..pos + 3 + data[pos]]
  {
    if pos + 3 > |data| || pos + 3 + data[pos] > |data| then Err(BufferTooSmall)
    else
      var name := data[pos + 3..pos + 3 + data[pos]];
      var p := pos + 3 + data[pos];
      if hasFtype && p + 1 > |data| then Err(BufferTooSmall)
      else
        var ftype: byte := if hasFtype then data[p] else 0;
        var q := if hasFtype then p + 1 else p;
        var width := if i8count == 0 then 4 else 8;
        if q + width > |data| then Err(BufferTooSmall)
        else Ok((DirEntry(FromBe(data[q..q + width]), name, ftype), q + width))
  }

  /** The next `count` short-form entries. */
  function SfScan(
      data: seq<byte>, pos: nat, count: nat, i8count: nat, hasFtype: bool): Result<seq<DirEntry>, ParseError>
    requires pos <= |data|
    decreases count
  {
    if count == 0 then Ok([])
    else
      var e := ParseSfEntry(data, pos, i8count, hasFtype);
      if e.Err? then Err(e.error)
      else
        var rest := SfScan(data, e.value.1, count - 1, i8count, hasFtype);
        if rest.Err? then rest else Ok([e.value.0] + rest.value)
  }

  /** The first entry with a name, looking no further. */
  function SfFind(
      data: seq<byte>, pos: nat, count: nat, i8count: nat, hasFtype: bool, target: seq<byte>)
    : Result<Option<(nat, byte)>, ParseError>
    requires pos <= |data|
    decreases count
  {
    if count == 0 then Ok(None)
    else
      var e := ParseSfEntry(data, pos, i8count, hasFtype);
      if e.Err? then Err(e.error)
      else if e.value.0.name == target then Ok(Some((e.value.0.ino, e.value.0.ftype)))
      else SfFind(data, e.value.1, count - 1, i8count, hasFtype, target)
  }

  /** One extent-form entry. */
  function ParseExtEntry(data: seq<byte>, pos: nat): (r: Result<(DirEntry, nat), ParseError>)
    ensures r.Ok? ==> pos < r.value.1 <= |data|
  {
    if |data| < pos + 11 then Err(BufferTooSmall)
    else
      var nameLen := FromBe(data[pos + 9..pos + 11]);
      if |data| < pos + 11 + nameLen then Err(BufferTooSmall)
      else
        var name := data[pos + 11..pos + 11 + nameLen];
        Ok((DirEntry(FromBe(data[pos..pos + 8]), name, data[pos + 8]), pos + 11 + nameLen))
  }

  function ExtScan(data: seq<byte>, pos: nat, count: nat): Result<seq<DirEntry>, ParseError>
    decreases count
  {
    if count == 0 then Ok([])
    else
      var e := ParseExtEntry(data, pos);
      if e.Err? then Err(e.error)
      else
        var rest := ExtScan(data, e.value.1, count - 1);
        if rest.Err? then rest else Ok([e.value.0] + rest.value)
  }

  function ExtFind(data: seq<byte>, pos: nat, count: nat, target: seq<byte>): Result<Option<(nat, byte)>, ParseError>
    decreases count
  {
    if count == 0 then Ok(None)
    else
      var e := ParseExtEntry(data, pos);
      if e.Err? then Err(e.error)
      else if e.value.0.name == target then Ok(Some((e.value.0.ino, e.value.0.ftype)))
      else ExtFind(data, e.value.1, count - 1, target)
  }

  const DOT: seq<byte> := [46]
  const DOT_DOT: seq<byte> := [46, 46]

  function Dots(ino: nat, parent: nat): seq<DirEntry> {
    [DirEntry(ino, DOT, 2), DirEntry(parent, DOT_DOT, 2)]
  }

  /** Listing a local directory fork. */
  function ListShortform(data: seq<byte>, ino: nat, hasFtype: bool): Result<seq<DirEntry>, ParseError> {
    var h := ParseSfHeader(data);
    if h.Err? then Err(h.error)
    else
      var rest := SfScan(data, h.value.consumed, h.value.count, h.value.i8count, hasFtype);
      if rest.Err? then rest else Ok(Dots(ino, h.value.parent) + rest.value)
  }

  function FindShortform(
      data: seq<byte>, ino: nat, hasFtype: bool, target: seq<byte>): Result<Option<(nat, byte)>, ParseError> {
    var h := ParseSfHeader(data);
    if h.Err? then Err(h.error)
    else if target == DOT then Ok(Some((ino, 2)))
    else if target == DOT_DOT then Ok(Some((h.value.parent, 2)))
    else SfFind(data, h.value.consumed, h.value.count, h.value.i8count, hasFtype, target)
  }

  predicate HasMagic(data: seq<byte>) {
    |data| >= 8 && data[..8] == EXTENT_DIR_MAGIC
  }

  /** Listing the payload of an extent directory. */
  function ListExtentForm(data: seq<byte>, ino: nat): Result<seq<DirEntry>, ParseError> {
    if !HasMagic(data) then Ok(Dots(ino, ino))
    else if |data| < 20 then Err(BufferTooSmall)
    else
      var rest := ExtScan(data, 20, FromBe(data[8..12]));
      if rest.Err? then rest else Ok(Dots(ino, FromBe(data[12..20])) + rest.value)
  }

  function FindExtentForm(data: seq<byte>, ino: nat, target: seq<byte>): Result<Option<(nat, byte)>, ParseError> {
    if !HasMagic(data) then (if target == DOT || target == DOT_DOT then Ok(Some((ino, 2))) else Ok(None))
    else if |data| < 20 then Err(BufferTooSmall)
    else if target == DOT then Ok(Some((ino, 2)))
    else if target == DOT_DOT then Ok(Some((FromBe(data[12..20]), 2)))
    else ExtFind(data, 20, FromBe(data[8..12]), target)
  }

  // ----- reading what was written ---------------------------------------------------------------------

  /** What a listing of the directory should be. */
  function Listing(entries: seq<PackedEntry>): seq<DirEntry> {
    seq(|entries|, i requires 0 <= i < |entries| => Reported(entries[i]))
  }

  /** What a lookup should find: the first entry of that name. */
  function Lookup(entries: seq<PackedEntry>, target: seq<byte>): Option<(nat, byte)> {
    if entries == [] then None
    else if entries[0].name == target then Some((Ino(entries[0].inodeIndex), entries[0].ftype))
    else Lookup(entries[1..], target)
  }

  /** The bytes of one piece, found where the piece was placed. */
  lemma PieceAt(data: seq<byte>, pos: nat, before: seq<byte>, piece: seq<byte>, after: seq<byte>)
    requires pos + |before| + |piece| + |after| <= |data|
    requires data[pos..pos + |before| + |piece| + |after|] == before + piece + after
    ensures data[pos + |before|..pos + |before| + |piece|] == piece
  {
    var at := pos + |before|;
    forall k | 0 <= k < |piece| ensures data[at + k] == piece[k] {
      assert data[at + k] == data[pos..pos + |before| + |piece| + |after|][|before| + k];
    }
  }

  lemma SfEntryReads(data: seq<byte>, pos: nat, e: PackedEntry, slot: nat)
    requires |e.name| < 256 && Ino(e.inodeIndex) < Pow256(8)
    requires pos + |SfEntry(e, slot)| <= |data| && data[pos..pos + |SfEntry(e, slot)|] == SfEntry(e, slot)
    ensures ParseSfEntry(data, pos, 1, true) == Ok((Reported(e), pos + |SfEntry(e, slot)|))
  {
    hide Be, FromBe, Pow256;
    var head, tail := [|e.name|] + Be(slot + 1, 2), Be(Ino(e.inodeIndex), 8);
    var n := |e.name|;
    assert SfEntry(e, slot) == [] + [n] + (Be(slot + 1, 2) + e.name + [e.ftype] + tail);
    PieceAt(data, pos, [], [n], Be(slot + 1, 2) + e.name + [e.ftype] + tail);
    assert data[pos] == data[pos..pos + 1][0] == n;
    assert SfEntry(e, slot) == head + e.name + ([e.ftype] + tail);
    PieceAt(data, pos, head, e.name, [e.ftype] + tail);
    assert SfEntry(e, slot) == (head + e.name) + [e.ftype] + tail;
    PieceAt(data, pos, head + e.name, [e.ftype], tail);
    assert data[pos + 3 + n] == data[pos + 3 + n..pos + 3 + n + 1][0] == e.ftype;
    assert SfEntry(e, slot) == (head + e.name + [e.ftype]) + tail + [];
    PieceAt(data, pos, head + e.name + [e.ftype], tail, []);
    FromBeOfBe(Ino(e.inodeIndex), 8);
  }

  lemma ExtEntryReads(data: seq<byte>, pos: nat, e: PackedEntry)
    requires |e.name| < 0x1_0000 && Ino(e.inodeIndex) < Pow256(8)
    requires pos + |ExtEntry(e)| <= |data| && data[pos..pos + |ExtEntry(e)|] == ExtEntry(e)
    ensures ParseExtEntry(data, pos) == Ok((Reported(e), pos + |ExtEntry(e)|))
  {
    hide Be, FromBe, Pow256;
    Pow256Values();
    var ino, len := Be(Ino(e.inodeIndex), 8), Be(|e.name|, 2);
    FromBeOfBe(Ino(e.inodeIndex), 8);
    FromBeOfBe(|e.name|, 2);
    assert ExtEntry(e) == [] + ino + ([e.ftype] + len + e.name);
    PieceAt(data, pos, [], ino, [e.ftype] + len + e.name);
    assert ExtEntry(e) == ino + [e.ftype] + (len + e.name);
    PieceAt(data, pos, ino, [e.ftype], len + e.name);
    assert data[pos + 8] == data[pos + 8..pos + 9][0];
    assert ExtEntry(e) == (ino + [e.ftype]) + len + e.name;
    PieceAt(data, pos, ino + [e.ftype], len, e.name);
    assert ExtEntry(e) == (ino + [e.ftype] + len) + e.name + [];
    PieceAt(data, pos, ino + [e.ftype] + len, e.name, []);
  }

  /** The bytes of the first i entries begin the bytes of all of them. */
  lemma {:induction false} SfPrefix(entries: seq<PackedEntry>, i: nat)
    requires i <= |entries| && NamesBelow(entries, 256)
    ensures SfEntries(entries[..i]) <= SfEntries(entries)
    decreases |entries| - i
  {
    hide SfEntry;
    if i < |entries| {
      SfNext(entries, i);
      SfPrefix(entries, i + 1);
    } else {
      assert entries[..i] == entries;
    }
  }

  lemma SfNext(entries: seq<PackedEntry>, i: nat)
    requires i < |entries| && NamesBelow(entries, 256)
    ensures SfEntries(entries[..i + 1]) == SfEntries(entries[..i]) + SfEntry(entries[i], i)
  {
    hide SfEntry;
    assert entries[..i + 1][..i] == entries[..i];
  }

  /** Where entry i of a directory lies. */
  lemma SfPlace(data: seq<byte>, at: nat, entries: seq<PackedEntry>, i: nat)
    requires i < |entries| && NamesBelow(entries, 256)
    requires at + |SfEntries(entries)| <= |data| && data[at..at + |SfEntries(entries)|] == SfEntries(entries)
    ensures var pos := at + |SfEntries(entries[..i])|;
            && pos + |SfEntry(entries[i], i)| <= |data|
            && data[pos..pos + |SfEntry(entries[i], i)|] == SfEntry(entries[i], i)
            && at + |SfEntries(entries[..i + 1])| == pos + |SfEntry(entries[i], i)|
  {
    hide SfEntry, SfEntries;
    SfNext(entries, i);
    SfPrefix(entries, i + 1);
    var all, before, piece := SfEntries(entries), SfEntries(entries[..i]), SfEntry(entries[i], i);
    var after := all[|before| + |piece|..];
    assert all == before + piece + after;
    PieceAt(data, at, before, piece, after);
  }

  /** The scan reads back entries i and up. */
  lemma {:induction false} SfScanReads(data: seq<byte>, at: nat, entries: seq<PackedEntry>, parent: nat, i: nat)
    requires EntriesOk(entries, parent, 256) && i <= |entries|
    requires at + |SfEntries(entries)| <= |data| && data[at..at + |SfEntries(entries)|] == SfEntries(entries)
    ensures at + |SfEntries(entries[..i])| <= |data|
    ensures SfScan(data, at + |SfEntries(entries[..i])|, |entries| - i, 1, true) == Ok(Listing(entries)[i..])
    decreases |entries| - i
  {
    hide SfEntry, SfEntries, ParseSfEntry, Pow256;
    SfPrefix(entries, i);
    if i < |entries| {
      SfPlace(data, at, entries, i);
      SfEntryReads(data, at + |SfEntries(entries[..i])|, entries[i], i);
      SfScanReads(data, at, entries, parent, i + 1);
      assert Listing(entries)[i..] == [Reported(entries[i])] + Listing(entries)[i + 1..];
    } else {
      assert Listing(entries)[i..] == [];
    }
  }

  lemma {:induction false} SfFindReads(
      data: seq<byte>, at: nat, entries: seq<PackedEntry>, parent: nat, i: nat, target: seq<byte>)
    requires EntriesOk(entries, parent, 256) && i <= |entries|
    requires at + |SfEntries(entries)| <= |data| && data[at..at + |SfEntries(entries)|] == SfEntries(entries)
    ensures at + |SfEntries(entries[..i])| <= |data|
    ensures SfFind(data, at + |SfEntries(entries[..i])|, |entries| - i, 1, true, target)
            == Ok(Lookup(entries[i..], target))
    decreases |entries| - i
  {
    hide SfEntry, SfEntries, ParseSfEntry, Pow256;
    SfPrefix(entries, i);
    if i < |entries| {
      SfPlace(data, at, entries, i);
      SfEntryReads(data, at + |SfEntries(entries[..i])|, entries[i], i);
      SfFindReads(data, at, entries, parent, i + 1, target);
      assert entries[i..][1..] == entries[i + 1..];
    } else {
      assert entries[i..] == [];
    }
  }

  /** The bytes of the first i entries begin the bytes of all of them. */
  lemma {:induction false} ExtPrefix(entries: seq<PackedEntry>, i: nat)
    requires i <= |entries|
    ensures ExtEntries(entries[..i]) <= ExtEntries(entries)
    decreases |entries| - i
  {
    hide ExtEntry;
    if i < |entries| {
      ExtNext(entries, i);
      ExtPrefix(entries, i + 1);
    } else {
      assert entries[..i] == entries;
    }
  }

  lemma ExtNext(entries: seq<PackedEntry>, i: nat)
    requires i < |entries|
    ensures ExtEntries(entries[..i + 1]) == ExtEntries(entries[..i]) + ExtEntry(entries[i])
  {
    hide ExtEntry;
    assert entries[..i + 1][..i] == entries[..i];
  }

  /** Where entry i of a directory lies. */
  lemma ExtPlace(data: seq<byte>, at: nat, entries: seq<PackedEntry>, i: nat)
    requires i < |entries|
    requires at + |ExtEntries(entries)| <= |data| && data[at..at + |ExtEntries(entries)|] == ExtEntries(entries)
    ensures var pos := at + |ExtEntries(entries[..i])|;
            && pos + |ExtEntry(entries[i])| <= |data|
            && data[pos..pos + |ExtEntry(entries[i])|] == ExtEntry(entries[i])
            && at + |ExtEntries(entries[..i + 1])| == pos + |ExtEntry(entries[i])|
  {
    hide ExtEntry, ExtEntries;
    ExtNext(entries, i);
    ExtPrefix(entries, i + 1);
    var all, before, piece := ExtEntries(entries), ExtEntries(entries[..i]), ExtEntry(entries[i]);
    var after := all[|before| + |piece|..];
    assert all == before + piece + after;
    PieceAt(data, at, before, piece, after);
  }

  /** The scan reads back entries i and up. */
  lemma {:induction false} ExtScanReads(data: seq<byte>, at: nat, entries: seq<PackedEntry>, parent: nat, i: nat)
    requires EntriesOk(entries, parent, 0x1_0000) && i <= |entries|
    requires at + |ExtEntries(entries)| <= |data| && data[at..at + |ExtEntries(entries)|] == ExtEntries(entries)
    ensures at + |ExtEntries(entries[..i])| <= |data|
    ensures ExtScan(data, at + |ExtEntries(entries[..i])|, |entries| - i) == Ok(Listing(entries)[i..])
    decreases |entries| - i
  {
    hide ExtEntry, ExtEntries, ParseExtEntry, Pow256;
    ExtPrefix(entries, i);
    if i < |entries| {
      ExtPlace(data, at, entries, i);
      ExtEntryReads(data, at + |ExtEntries(entries[..i])|, entries[i]);
      ExtScanReads(data, at, entries, parent, i + 1);
      assert Listing(entries)[i..] == [Reported(entries[i])] + Listing(entries)[i + 1..];
    } else {
      assert Listing(entries)[i..] == [];
    }
  }

  lemma {:induction false} ExtFindReads(
      data: seq<byte>, at: nat, entries: seq<PackedEntry>, parent: nat, i: nat, target: seq<byte>)
    requires EntriesOk(entries, parent, 0x1_0000) && i <= |entries|
    requires at + |ExtEntries(entries)| <= |data| && data[at..at + |ExtEntries(entries)|] == ExtEntries(entries)
    ensures at + |ExtEntries(entries[..i])| <= |data|
    ensures ExtFind(data, at + |ExtEntries(entries[..i])|, |entries| - i, target) == Ok(Lookup(entries[i..], target))
    decreases |entries| - i
  {
    hide ExtEntry, ExtEntries, ParseExtEntry, Pow256;
    ExtPrefix(entries, i);
    if i < |entries| {
      ExtPlace(data, at, entries, i);
      ExtEntryReads(data, at + |ExtEntries(entries[..i])|, entries[i]);
      ExtFindReads(data, at, entries, parent, i + 1, target);
      assert entries[i..][1..] == entries[i + 1..];
    } else {
      assert entries[i..] == [];
    }
  }

  /** A directory in short form, with anything after it, lists and looks up as packed. */
  lemma ShortformReads(entries: seq<PackedEntry>, parent: nat, ino: nat, after: seq<byte>, target: seq<byte>)
    requires EntriesOk(entries, parent, 256) && |entries| < 256
    ensures var data := Shortform(entries, parent) + after;
            && ListShortform(data, ino, true) == Ok(Dots(ino, Ino(parent)) + Listing(entries))
            && FindShortform(data, ino, true, target)
               == Ok(if target == DOT then Some((ino, 2))
                     else if target == DOT_DOT then Some((Ino(parent), 2))
                     else Lookup(entries, target))
  {
    hide SfEntries, SfScan, SfFind, Be, FromBe, Pow256, Lookup;
    var data := Shortform(entries, parent) + after;
    assert data[2..10] == Be(Ino(parent), 8);
    FromBeOfBe(Ino(parent), 8);
    assert data[10..10 + |SfEntries(entries)|] == SfEntries(entries);
    assert entries[..0] == [] && entries[0..] == entries && Listing(entries)[0..] == Listing(entries);
    NoSfEntries();
    SfScanReads(data, 10, entries, parent, 0);
    SfFindReads(data, 10, entries, parent, 0, target);
  }

  lemma NoSfEntries()
    ensures SfEntries([]) == [] && ExtEntries([]) == []
  {
  }

  /** A directory in extent form lists and looks up as packed. */
  lemma ExtentFormReads(entries: seq<PackedEntry>, parent: nat, ino: nat, target: seq<byte>)
    requires EntriesOk(entries, parent, 0x1_0000) && |entries| < 0x1_0000_0000
    ensures var data := ExtentForm(entries, parent);
            && ListExtentForm(data, ino) == Ok(Dots(ino, Ino(parent)) + Listing(entries))
            && FindExtentForm(data, ino, target)
               == Ok(if target == DOT then Some((ino, 2))
                     else if target == DOT_DOT then Some((Ino(parent), 2))
                     else Lookup(entries, target))
  {
    hide ExtEntries, ExtScan, ExtFind, Be, FromBe, Pow256, Lookup;
    var data := ExtentForm(entries, parent);
    assert data[..8] == EXTENT_DIR_MAGIC;
    assert data[8..12] == Be(|entries|, 4) && data[12..20] == Be(Ino(parent), 8);
    Pow256Values();
    FromBeOfBe(|entries|, 4);
    FromBeOfBe(Ino(parent), 8);
    assert data[20..20 + |ExtEntries(entries)|] == ExtEntries(entries);
    assert entries[..0] == [] && entries[0..] == entries && Listing(entries)[0..] == Listing(entries);
    NoSfEntries();
    ExtScanReads(data, 20, entries, parent, 0);
    ExtFindReads(data, 20, entries, parent, 0, target);
  }

  // ----- lengths, and the directories in between --------------------------------------------------------

  function NameBytes(entries: seq<PackedEntry>): nat {
    if entries == [] then 0 else NameBytes(entries[..|entries| - 1]) + |entries[|entries| - 1].name|
  }

  lemma {:induction false} SfLength(entries: seq<PackedEntry>)
    requires NamesBelow(entries, 256)
    ensures |SfEntries(entries)| == 12 * |entries| + NameBytes(entries)
  {
    if entries != [] { SfLength(entries[..|entries| - 1]); }
  }

  lemma {:induction false} ExtLength(entries: seq<PackedEntry>)
    ensures |ExtEntries(entries)| == 11 * |entries| + NameBytes(entries)
  {
    if entries != [] { ExtLength(entries[..|entries| - 1]); }
  }

  lemma {:induction false} SfScanLength(data: seq<byte>, pos: nat, count: nat, i8count: nat, hasFtype: bool)
    requires pos <= |data|
    ensures SfScan(data, pos, count, i8count, hasFtype).Ok? ==>
            |SfScan(data, pos, count, i8count, hasFtype).value| == count
    decreases count
  {
    if count > 0 {
      var e := ParseSfEntry(data, pos, i8count, hasFtype);
      if e.Ok? { SfScanLength(data, e.value.1, count - 1, i8count, hasFtype); }
    }
  }

  /**
   * An extent form that was stored in the inode reads as 67 short-form entries, since 67 is the first
   * byte of the magic. No directory that small has 67 entries, so its listing is wrong.
   */
  lemma InBetweenMisreads(entries: seq<PackedEntry>, parent: nat, ino: nat, after: seq<byte>)
    requires |ExtentForm(entries, parent)| <= LOCAL_FORK_BYTES
    ensures ListShortform(ExtentForm(entries, parent) + after, ino, true)
            != Ok(Dots(ino, Ino(parent)) + Listing(entries))
  {
    hide ExtEntries, SfScan, Be, FromBe;
    ExtLength(entries);
    var data := ExtentForm(entries, parent) + after;
    assert data[0] == 67 && data[1] == 68;
    SfScanLength(data, 10, 67, 68, true);
    var listed := ListShortform(data, ino, true);
    assert listed.Ok? ==> |listed.value| == 69;
    assert |Dots(ino, Ino(parent)) + Listing(entries)| == |entries| + 2 < 69;
  }

  /** The bytes a list of extent-form entries takes. */
  function ListedBytes(listed: seq<DirEntry>): nat {
    if listed == [] then 0 else ListedBytes(listed[..|listed| - 1]) + 11 + |listed[|listed| - 1].name|
  }

  lemma {:induction false} ListedFirst(listed: seq<DirEntry>)
    requires listed != []
    ensures ListedBytes(listed) == 11 + |listed[0].name| + ListedBytes(listed[1..])
  {
    if |listed| > 1 {
      var init := listed[..|listed| - 1];
      ListedFirst(init);
      assert init[1..] == listed[1..][..|listed| - 2];
    } else {
      assert listed[..0] == [] && listed[1..] == [];
    }
  }

  /** A scan that succeeds has had room for everything it lists. */
  lemma {:induction false} ScanHasRoom(data: seq<byte>, pos: nat, count: nat)
    requires pos <= |data|
    ensures ExtScan(data, pos, count).Ok? ==> pos + ListedBytes(ExtScan(data, pos, count).value) <= |data|
    decreases count
  {
    hide FromBe, ListedBytes;
    if count > 0 {
      var e := ParseExtEntry(data, pos);
      if e.Ok? {
        var rest := ExtScan(data, e.value.1, count - 1);
        ScanHasRoom(data, e.value.1, count - 1);
        if rest.Ok? {
          var all := [e.value.0] + rest.value;
          ListedFirst(all);
          assert all[1..] == rest.value;
        }
      }
    } else {
      NothingListed();
    }
  }

  lemma NothingListed()
    ensures ListedBytes([]) == 0
  {
  }

  lemma {:induction false} ListingBytes(entries: seq<PackedEntry>)
    ensures ListedBytes(Listing(entries)) == |ExtEntries(entries)|
  {
    hide Be;
    if entries != [] {
      var init := entries[..|entries| - 1];
      ListingBytes(init);
      assert Listing(entries)[..|entries| - 1] == Listing(init);
    }
  }

  /** A directory read through fewer bytes than its extent form does not list as packed. */
  lemma CutMisreads(entries: seq<PackedEntry>, parent: nat, ino: nat, data: seq<byte>)
    requires entries != [] && |data| < |ExtentForm(entries, parent)|
    ensures ListExtentForm(data, ino) != Ok(Dots(ino, Ino(parent)) + Listing(entries))
  {
    hide ExtEntries, ExtScan, Be, FromBe, ListedBytes;
    ListingBytes(entries);
    if HasMagic(data) && |data| >= 20 {
      ScanHasRoom(data, 20, FromBe(data[8..12]));
      var rest := ExtScan(data, 20, FromBe(data[8..12]));
      if rest.Ok? {
        var dots := Dots(ino, FromBe(data[12..20]));
        assert (dots + rest.value)[2..] == rest.value;
        assert (Dots(ino, Ino(parent)) + Listing(entries))[2..] == Listing(entries);
      }
    } else {
      assert |Dots(ino, Ino(parent)) + Listing(entries)| > |Dots(ino, ino)|;
    }
  }
}
