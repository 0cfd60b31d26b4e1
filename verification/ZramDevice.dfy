/** The compressed page device: a map from page index to bytes, kept in slab slots. */
module ZramDevice {
  import opened Common
  import opened SlabAllocator

  datatype Encoding = Raw | Lz4

  datatype ZramEntry = ZramEntry(handle: Handle, originalLen: nat, storedLen: nat, encoding: Encoding)

  /** LZ4 as a pair of functions; `decompress` is given the original length. */
  datatype Codec = Codec(compress: seq<byte> -> seq<byte>, decompress: (seq<byte>, nat) -> Option<seq<byte>>)

  ghost predicate CodecOk(c: Codec) {
    forall p :: c.compress(p) != [] && c.decompress(c.compress(p), |p|) == Some(p)
  }

  /** The choice between the compressed and the plain form. */
  function Chosen(c: Codec, page: seq<byte>): Encoding {
    var z := c.compress(page);
    if |z| < |page| && |z| <= PAGE_SIZE then Lz4 else Raw
  }

  function Payload(c: Codec, page: seq<byte>): seq<byte> {
    if Chosen(c, page) == Lz4 then c.compress(page) else page
  }

  /** What is stored is the shorter form, is empty only for the empty page, and decodes to the page. */
  lemma PayloadDecodes(c: Codec, page: seq<byte>)
    requires CodecOk(c) && |page| <= PAGE_SIZE
    ensures |Payload(c, page)| == Min(|page|, |c.compress(page)|) && (Payload(c, page) == [] <==> page == [])
    ensures Chosen(c, page) == Lz4 <==> |c.compress(page)| < |page|
    ensures match Chosen(c, page)
            case Raw => Payload(c, page) == page
            case Lz4 => c.decompress(Payload(c, page), |page|) == Some(page)
  {
    assert c.compress(page) != [];
  }

  // ----- the invariant -----------------------------------------------------------------------------

  ghost predicate EntryOk(c: Codec, pools: seq<Pool>, e: ZramEntry, page: seq<byte>) {
    && |page| <= PAGE_SIZE
    && e.originalLen == |page| && e.encoding == Chosen(c, page) && e.storedLen == |Payload(c, page)|
    && Held(pools, e.handle)
    && Contents(pools, e.handle) == if page == [] then None else Some(Payload(c, page))
  }

  ghost predicate Mapped(c: Codec, pools: seq<Pool>, pages: map<nat, ZramEntry>, view: map<nat, seq<byte>>) {
    && pages.Keys == view.Keys
    && (forall i <- pages :: EntryOk(c, pools, pages[i], view[i]))
  }

  /** No slot is shared by two pages. */
  ghost predicate Unshared(pages: map<nat, ZramEntry>) {
    forall i, j :: i in pages && j in pages && pages[i].handle == pages[j].handle ==> i == j
  }

  ghost predicate Owned(pages: map<nat, ZramEntry>, h: Handle) {
    exists i :: i in pages && pages[i].handle == h
  }

  /** Every readable slot belongs to a page. */
  ghost predicate NoLeak(pools: seq<Pool>, pages: map<nat, ZramEntry>) {
    forall h :: Contents(pools, h).Some? ==> Owned(pages, h)
  }

  /** The sum of `stored_len` over the entries below `n`. */
  ghost function StoredBytes(pages: map<nat, ZramEntry>, n: nat): nat {
    if n == 0 then 0 else StoredBytes(pages, n - 1) + (if n - 1 in pages then pages[n - 1].storedLen else 0)
  }

  lemma {:induction false} StoredBytesKept(pages: map<nat, ZramEntry>, pages': map<nat, ZramEntry>, n: nat)
    requires forall i :: 0 <= i < n ==> (i in pages <==> i in pages') && (i in pages ==> pages[i] == pages'[i])
    ensures StoredBytes(pages, n) == StoredBytes(pages', n)
  {
    if n > 0 { StoredBytesKept(pages, pages', n - 1); }
  }

  lemma {:induction false} StoredBytesAdd(pages: map<nat, ZramEntry>, i: nat, e: ZramEntry, n: nat)
    requires i < n && i !in pages
    ensures StoredBytes(pages[i := e], n) == StoredBytes(pages, n) + e.storedLen
  {
    if i == n - 1 { StoredBytesKept(pages, pages[i := e], n - 1); } else { StoredBytesAdd(pages, i, e, n - 1); }
  }

  ghost predicate DeviceOk(
      c: Codec, maxPages: nat, pools: seq<Pool>, pages: map<nat, ZramEntry>, view: map<nat, seq<byte>>, leaked: nat) {
    && CodecOk(c) && PoolsOk(pools)
    && (forall i <- pages :: i < maxPages)
    && Mapped(c, pools, pages, view) && Unshared(pages) && NoLeak(pools, pages)
    && Total(pools, Slots) == |pages| + leaked
    && Total(pools, Bytes) == StoredBytes(pages, maxPages)
  }

  ghost function LeakOf(view: map<nat, seq<byte>>, i: nat): nat {
    if i in view && view[i] == [] then 1 else 0
  }

  /** The slot of a dropped page goes back, unless the page was empty. */
  ghost predicate Dropped(pools: seq<Pool>, pools': seq<Pool>, h: Handle, page: seq<byte>) {
    if page == [] then pools' == pools else Released(pools, pools', h)
  }

  lemma DropMapped(
      c: Codec, pools: seq<Pool>, pools': seq<Pool>, pages: map<nat, ZramEntry>, view: map<nat, seq<byte>>, i: nat)
    requires Mapped(c, pools, pages, view) && Unshared(pages) && i in pages
    requires Dropped(pools, pools', pages[i].handle, view[i])
    ensures Mapped(c, pools', pages - {i}, view - {i})
  {
    hide Contents, Held, Payload, Chosen;
    forall j | j in pages && j != i ensures EntryOk(c, pools', pages[j], view[j]) {
      assert EntryOk(c, pools, pages[j], view[j]);
      assert pages[j].handle != pages[i].handle;
    }
  }

  lemma DropNoLeak(
      c: Codec, pools: seq<Pool>, pools': seq<Pool>, pages: map<nat, ZramEntry>, view: map<nat, seq<byte>>, i: nat)
    requires Mapped(c, pools, pages, view) && NoLeak(pools, pages) && i in pages
    requires Dropped(pools, pools', pages[i].handle, view[i])
    ensures NoLeak(pools', pages - {i})
  {
    hide Contents, Held, Payload, Chosen, Owned;
    assert EntryOk(c, pools, pages[i], view[i]);
    forall h | Contents(pools', h).Some? ensures Owned(pages - {i}, h) {
      assert Owned(pages, h) && h != pages[i].handle;
      StillOwned(pages, pages - {i}, i, h);
    }
  }

  lemma StillOwned(pages: map<nat, ZramEntry>, pages': map<nat, ZramEntry>, i: nat, h: Handle)
    requires i in pages && Owned(pages, h) && h != pages[i].handle
    requires forall j :: j in pages && j != i ==> j in pages' && pages'[j] == pages[j]
    ensures Owned(pages', h)
  {
    var j :| j in pages && pages[j].handle == h;
    assert pages'[j].handle == h;
  }

  lemma DropSums(pages: map<nat, ZramEntry>, i: nat, n: nat)
    requires i in pages && i < n
    ensures |pages - {i}| == |pages| - 1
    ensures StoredBytes(pages - {i}, n) == StoredBytes(pages, n) - pages[i].storedLen
  {
    hide StoredBytes;
    assert (pages - {i}).Keys == pages.Keys - {i};
    assert (pages - {i})[i := pages[i]] == pages;
    StoredBytesAdd(pages - {i}, i, pages[i], n);
  }

  lemma DropOk(
      c: Codec, maxPages: nat, pools: seq<Pool>, pools': seq<Pool>, pages: map<nat, ZramEntry>,
      view: map<nat, seq<byte>>, leaked: nat, i: nat)
    requires DeviceOk(c, maxPages, pools, pages, view, leaked) && i in pages
    requires PoolsOk(pools') && Dropped(pools, pools', pages[i].handle, view[i])
    requires Total(pools', Slots) == Total(pools, Slots) - (1 - LeakOf(view, i))
    requires Total(pools', Bytes) == Total(pools, Bytes) - pages[i].storedLen
    ensures DeviceOk(c, maxPages, pools', pages - {i}, view - {i}, leaked + LeakOf(view, i))
  {
    hide Total, Mapped, NoLeak, PoolsOk, CodecOk, StoredBytes, Dropped, LeakOf;
    DropMapped(c, pools, pools', pages, view, i);
    DropNoLeak(c, pools, pools', pages, view, i);
    DropSums(pages, i, maxPages);
  }

  ghost predicate Describes(c: Codec, e: ZramEntry, page: seq<byte>) {
    e.originalLen == |page| <= PAGE_SIZE && e.storedLen == |Payload(c, page)| && e.encoding == Chosen(c, page)
  }

  lemma AddMapped(
      c: Codec, pools: seq<Pool>, pools': seq<Pool>, pages: map<nat, ZramEntry>, view: map<nat, seq<byte>>, i: nat,
      page: seq<byte>, e: ZramEntry)
    requires CodecOk(c) && Mapped(c, pools, pages, view) && Unshared(pages) && Describes(c, e, page)
    requires Stored(pools, pools', e.handle, Payload(c, page))
    ensures Mapped(c, pools', pages[i := e], view[i := page]) && Unshared(pages[i := e])
  {
    hide Contents, Held, Payload, Chosen, CodecOk;
    PayloadDecodes(c, page);
    assert EntryOk(c, pools', e, page);
    forall j <- pages ensures EntryOk(c, pools', pages[j], view[j]) && pages[j].handle != e.handle {
      assert EntryOk(c, pools, pages[j], view[j]);
    }
  }

  lemma AddNoLeak(
      pools: seq<Pool>, pools': seq<Pool>, pages: map<nat, ZramEntry>, i: nat, bytes: seq<byte>, e: ZramEntry)
    requires NoLeak(pools, pages) && i !in pages && Stored(pools, pools', e.handle, bytes)
    ensures NoLeak(pools', pages[i := e])
  {
    hide Contents, Held;
    var pages' := pages[i := e];
    assert Owned(pages', e.handle) by { assert pages'[i].handle == e.handle; }
    forall h | Contents(pools, h).Some? ensures Owned(pages', h) {
      assert Owned(pages, h);
      var j :| j in pages && pages[j].handle == h;
      assert pages'[j].handle == h;
    }
  }

  lemma AddOk(
      c: Codec, maxPages: nat, pools: seq<Pool>, pools': seq<Pool>, pages: map<nat, ZramEntry>,
      view: map<nat, seq<byte>>, leaked: nat, i: nat, page: seq<byte>, e: ZramEntry)
    requires DeviceOk(c, maxPages, pools, pages, view, leaked) && i !in pages && i < maxPages && Describes(c, e, page)
    requires PoolsOk(pools') && Stored(pools, pools', e.handle, Payload(c, page))
    requires Total(pools', Slots) == Total(pools, Slots) + 1
    requires Total(pools', Bytes) == Total(pools, Bytes) + e.storedLen
    ensures DeviceOk(c, maxPages, pools', pages[i := e], view[i := page], leaked)
  {
    hide Total, Mapped, NoLeak, PoolsOk, CodecOk, StoredBytes, Stored, Describes, Unshared;
    AddMapped(c, pools, pools', pages, view, i, page, e);
    AddNoLeak(pools, pools', pages, i, Payload(c, page), e);
    assert pages[i := e].Keys == pages.Keys + {i};
    StoredBytesAdd(pages, i, e, maxPages);
  }

  /** The new slot is fresh, so the page being replaced keeps its slot until it is freed. */
  lemma ReplaceMapped(
      c: Codec, pools: seq<Pool>, stored: seq<Pool>, pools': seq<Pool>, pages: map<nat, ZramEntry>,
      view: map<nat, seq<byte>>, i: nat, page: seq<byte>, e: ZramEntry)
    requires CodecOk(c) && Mapped(c, pools, pages, view) && Unshared(pages) && i in pages && Describes(c, e, page)
    requires Stored(pools, stored, e.handle, Payload(c, page)) && Dropped(stored, pools', pages[i].handle, view[i])
    ensures Mapped(c, pools', pages[i := e], view[i := page]) && Unshared(pages[i := e])
  {
    hide Contents, Held, Payload, Chosen, CodecOk;
    PayloadDecodes(c, page);
    assert EntryOk(c, pools, pages[i], view[i]);
    assert EntryOk(c, pools', e, page);
    forall j | j in pages && j != i ensures EntryOk(c, pools', pages[j], view[j]) && pages[j].handle != e.handle {
      assert EntryOk(c, pools, pages[j], view[j]);
      assert pages[j].handle != pages[i].handle;
    }
  }

  lemma ReplaceNoLeak(
      c: Codec, pools: seq<Pool>, stored: seq<Pool>, pools': seq<Pool>, pages: map<nat, ZramEntry>,
      view: map<nat, seq<byte>>, i: nat, page: seq<byte>, e: ZramEntry)
    requires Mapped(c, pools, pages, view) && NoLeak(pools, pages) && i in pages
    requires Stored(pools, stored, e.handle, Payload(c, page)) && Dropped(stored, pools', pages[i].handle, view[i])
    ensures NoLeak(pools', pages[i := e])
  {
    hide Contents, Held, Payload, Chosen, Owned;
    assert EntryOk(c, pools, pages[i], view[i]);
    var pages' := pages[i := e];
    assert Owned(pages', e.handle) by { OwnedAt(pages', i); }
    forall h | Contents(pools', h).Some? && h != e.handle ensures Owned(pages', h) {
      assert Contents(pools, h).Some? && h != pages[i].handle;
      StillOwned(pages, pages', i, h);
    }
  }

  lemma OwnedAt(pages: map<nat, ZramEntry>, i: nat)
    requires i in pages
    ensures Owned(pages, pages[i].handle)
  {
  }

  lemma ReplaceOk(
      c: Codec, maxPages: nat, pools: seq<Pool>, stored: seq<Pool>, pools': seq<Pool>, pages: map<nat, ZramEntry>,
      view: map<nat, seq<byte>>, leaked: nat, i: nat, page: seq<byte>, e: ZramEntry)
    requires DeviceOk(c, maxPages, pools, pages, view, leaked) && i in pages && Describes(c, e, page)
    requires Stored(pools, stored, e.handle, Payload(c, page)) && Dropped(stored, pools', pages[i].handle, view[i])
    requires PoolsOk(pools') && Total(pools', Slots) == Total(pools, Slots) + LeakOf(view, i)
    requires Total(pools', Bytes) == Total(pools, Bytes) + e.storedLen - pages[i].storedLen
    ensures DeviceOk(c, maxPages, pools', pages[i := e], view[i := page], leaked + LeakOf(view, i))
  {
    hide Total, Mapped, NoLeak, PoolsOk, CodecOk, StoredBytes, Stored, Describes, Unshared, Dropped, LeakOf;
    ReplaceMapped(c, pools, stored, pools', pages, view, i, page, e);
    ReplaceNoLeak(c, pools, stored, pools', pages, view, i, page, e);
    assert pages[i := e].Keys == pages.Keys;
    DropSums(pages, i, maxPages);
    assert (pages - {i})[i := e] == pages[i := e];
    StoredBytesAdd(pages - {i}, i, e, maxPages);
  }

  lemma NewDeviceOk(c: Codec, maxPages: nat, pools: seq<Pool>)
    requires CodecOk(c) && PoolsOk(pools) && Total(pools, Slots) == 0 && Total(pools, Bytes) == 0
    requires forall h :: Contents(pools, h) == None
    ensures DeviceOk(c, maxPages, pools, map[], map[], 0)
  {
    hide CodecOk, PoolsOk, Total, Contents, StoredBytes;
    NoBytes(maxPages);
  }

  // ----- the device -----------------------------------------------------------------------------------

  class ZramDevice {
    const codec: Codec
    const maxPages: nat
    const allocator: ZsAllocator
    var pages: map<nat, ZramEntry>
    var stores: nat
    var loads: nat
    var invalidations: nat
    /** What each page last had stored in it. */
    ghost var view: map<nat, seq<byte>>
    /** Slots lost by dropping an empty page, which `free` refuses. */
    ghost var leaked: nat

    ghost predicate Valid()
      reads this, allocator
    {
      DeviceOk(codec, maxPages, allocator.pools, pages, view, leaked)
    }

    constructor (codec: Codec, maxPages: nat)
      requires CodecOk(codec)
      ensures Valid() && fresh(allocator)
      ensures this.codec == codec && this.maxPages == maxPages && view == map[] && leaked == 0
    {
      this.codec, this.maxPages := codec, maxPages;
      allocator := new ZsAllocator();
      pages, view, leaked, stores, loads, invalidations := map[], map[], 0, 0, 0, 0;
      new;
      hide DeviceOk, CodecOk, PoolsOk, Total, Contents;
      NewDeviceOk(codec, maxPages, allocator.pools);
    }

    /** `store_page`: the page is replaced; nothing else in the map changes. */
    method StorePage(pageIndex: nat, page: seq<byte>) returns (r: Result<(), ZramError>)
      requires Valid()
      modifies this, allocator
      ensures Valid()
      ensures r.Ok? <==> pageIndex < maxPages && |page| <= PAGE_SIZE
      ensures r.Err? ==> r.error == if pageIndex >= maxPages then PageIndexOutOfRange else PageTooLarge
      ensures r.Err? ==> view == old(view) && leaked == old(leaked) && stores == old(stores) && pages == old(pages)
      ensures r.Err? ==> allocator.pools == old(allocator.pools)
      ensures r.Ok? ==> view == old(view)[pageIndex := page] && leaked == old(leaked) + LeakOf(old(view), pageIndex)
      ensures r.Ok? ==> stores == SaturatingAdd(old(stores), 1)
      ensures loads == old(loads) && invalidations == old(invalidations)
    {
      hide Contents, Held, Total, PoolsOk, StoredBytes, EntryOk, Mapped, Unshared, NoLeak, CodecOk, Released, Stored;
      MappedKeys(codec, allocator.pools, pages, view);
      if pageIndex >= maxPages {
        return Err(PageIndexOutOfRange);
      }
      if |page| > PAGE_SIZE {
        return Err(PageTooLarge);
      }
      PayloadDecodes(codec, page);
      var compressed := codec.compress(page);
      var encoding, payload := Raw, page;
      if |compressed| < |page| && |compressed| <= PAGE_SIZE {
        encoding, payload := Lz4, compressed;
      }
      assert encoding == Chosen(codec, page) && payload == Payload(codec, page);
      ghost var pools := allocator.pools;
      var storing := allocator.Store(payload);
      var handle := storing.value;
      ghost var stored := allocator.pools;
      var e := ZramEntry(handle, |page|, |payload|, encoding);
      ghost var before := pages;
      if pageIndex in pages {
        var replaced := pages[pageIndex];
        pages := pages[pageIndex := e];
        ReplacedReads(codec, pools, stored, before, view, pageIndex, handle, payload);
        var freed := allocator.Free(replaced.handle);
        ReplaceOk(codec, maxPages, pools, stored, allocator.pools, before, view, leaked, pageIndex, page, e);
      } else {
        pages := pages[pageIndex := e];
        AddOk(codec, maxPages, pools, stored, before, view, leaked, pageIndex, page, e);
      }
      leaked := leaked + LeakOf(view, pageIndex);
      view := view[pageIndex := page];
      stores := SaturatingAdd(stores, 1);
      return Ok(());
    }

    /** `load_page`: the last page stored there. */
    method LoadPage(pageIndex: nat) returns (r: Result<seq<byte>, ZramError>)
      requires Valid()
      modifies `loads
      ensures Valid()
      ensures r.Ok? <==> pageIndex in view && view[pageIndex] != []
      ensures r.Ok? ==> r.value == view[pageIndex]
      ensures r.Err? ==> r.error == if pageIndex in view then InvalidHandle else MissingPage
      ensures loads == if r.Ok? then SaturatingAdd(old(loads), 1) else old(loads)
    {
      hide Contents, Held, Total, PoolsOk, StoredBytes, Unshared, NoLeak, CodecOk, Payload, Chosen;
      if pageIndex !in pages {
        return Err(MissingPage);
      }
      var entry := pages[pageIndex];
      assert EntryOk(codec, allocator.pools, entry, view[pageIndex]);
      PayloadDecodes(codec, view[pageIndex]);
      var loaded := allocator.Load(entry.handle);
      if loaded.Err? {
        return Err(loaded.error);
      }
      loads := SaturatingAdd(loads, 1);
      match entry.encoding
      case Raw =>
        return Ok(loaded.value);
      case Lz4 =>
        var page := codec.decompress(loaded.value, entry.originalLen);
        return if page.Some? then Ok(page.value) else Err(DecompressionFailed);
    }

    /** `invalidate_page`: the page is gone; the call fails exactly when it was empty. */
    method InvalidatePage(pageIndex: nat) returns (r: Result<(), ZramError>)
      requires Valid()
      modifies this, allocator
      ensures Valid()
      ensures view == old(view) - {pageIndex} && leaked == old(leaked) + LeakOf(old(view), pageIndex)
      ensures r.Ok? <==> LeakOf(old(view), pageIndex) == 0
      ensures r.Err? ==> r.error == InvalidHandle
      ensures invalidations ==
              if pageIndex in old(view) then SaturatingAdd(old(invalidations), 1) else old(invalidations)
      ensures stores == old(stores) && loads == old(loads)
    {
      hide DeviceOk, EntryOk, Contents, Held, Total, PoolsOk, StoredBytes, Mapped, Unshared, NoLeak, CodecOk, Payload;
      hide Chosen;
      hide Released;
      DeviceParts(codec, maxPages, allocator.pools, pages, view, leaked);
      MappedKeys(codec, allocator.pools, pages, view);
      if pageIndex !in pages {
        assert view - {pageIndex} == view;
        return Ok(());
      }
      var entry := pages[pageIndex];
      ghost var before, pools := pages, allocator.pools;
      EntryOf(codec, pools, pages, view, pageIndex);
      pages := pages - {pageIndex};
      invalidations := SaturatingAdd(invalidations, 1);
      r := allocator.Free(entry.handle);
      DropOk(codec, maxPages, pools, allocator.pools, before, view, leaked, pageIndex);
      leaked := leaked + LeakOf(view, pageIndex);
      view := view - {pageIndex};
    }

    /**
     `stats`: what the device adds up over its entries is what the stored pages make it, and agrees with what
     the allocator adds up over its slots.
     */
    method Stats() returns (stats: ZramStats)
      requires Valid()
      ensures stats.stores == stores && stats.loads == loads && stats.invalidations == invalidations
      ensures stats.allocator == StatsOf(allocator.pools)
      ensures stats.compressedPages + stats.rawPages == |view|
      ensures stats.compressedPages == |set i | i in view && Chosen(codec, view[i]) == Lz4|
      ensures stats.logicalBytes == LogicalBytes(view, maxPages)
      ensures stats.storedBytes == stats.allocator.storedBytes <= Min(stats.logicalBytes, stats.allocator.capacityBytes)
      ensures stats.allocator.usedSlots == |view| + leaked
    {
      hide PoolsOk, CodecOk, Total, EntryOk, Unshared, NoLeak;
      var slabs := allocator.Stats();
      var tally := Tally(0, 0, 0, 0);
      for i := 0 to maxPages
        invariant tally == TallyOf(pages, i)
      {
        if i in pages {
          tally := Count(tally, pages[i]);
        }
      }
      TallyIs(codec, allocator.pools, pages, view, maxPages);
      AllBelow(codec, pages, view, maxPages);
      assert |pages| == |pages.Keys| == |view.Keys| == |view|;
      stats := ZramStats(stores, loads, invalidations, tally.compressed, tally.raw, tally.logical, tally.stored, slabs);
    }
  }

  /** WITNESS: storing an empty page and invalidating it fails, and loses a slot for good. */
  method EmptyPageLost(device: ZramDevice, pageIndex: nat) returns (r: Result<(), ZramError>)
    requires device.Valid() && pageIndex < device.maxPages && pageIndex !in device.view
    modifies device, device.allocator
    ensures device.Valid() && device.view == old(device.view) && device.leaked == old(device.leaked) + 1
    ensures r == Err(InvalidHandle)
    ensures Total(device.allocator.pools, Slots) == old(Total(device.allocator.pools, Slots)) + 1
  {
    hide DeviceOk, Total;
    SlotsInUse(device);
    var stored := device.StorePage(pageIndex, []);
    r := device.InvalidatePage(pageIndex);
    assert device.view == old(device.view);
    SlotsInUse(device);
  }

  lemma SlotsInUse(device: ZramDevice)
    requires device.Valid()
    ensures Total(device.allocator.pools, Slots) == |device.view| + device.leaked
  {
    hide PoolsOk, CodecOk, Total, EntryOk, Unshared, NoLeak;
    assert |device.pages| == |device.pages.Keys| == |device.view.Keys| == |device.view|;
  }

  datatype ZramStats = ZramStats(
    stores: nat, loads: nat, invalidations: nat, compressedPages: nat, rawPages: nat,
    logicalBytes: nat, storedBytes: nat, allocator: ZsStats)

  datatype Tally = Tally(logical: nat, stored: nat, raw: nat, compressed: nat)

  /** One turn of the loop of `stats`. */
  function Count(t: Tally, e: ZramEntry): Tally {
    Tally(t.logical + e.originalLen, t.stored + e.storedLen,
          t.raw + (if e.encoding == Raw then 1 else 0), t.compressed + (if e.encoding == Lz4 then 1 else 0))
  }

  function TallyOf(pages: map<nat, ZramEntry>, n: nat): Tally {
    if n == 0 then Tally(0, 0, 0, 0)
    else if n - 1 in pages then Count(TallyOf(pages, n - 1), pages[n - 1])
    else TallyOf(pages, n - 1)
  }

  /** The lengths of the pages below `n`. */
  ghost function LogicalBytes(view: map<nat, seq<byte>>, n: nat): nat {
    if n == 0 then 0 else LogicalBytes(view, n - 1) + (if n - 1 in view then |view[n - 1]| else 0)
  }

  ghost function PagesBelow(c: Codec, view: map<nat, seq<byte>>, n: nat, form: Encoding): set<nat> {
    set i | i in view && i < n && Chosen(c, view[i]) == form
  }

  lemma PagesStep(c: Codec, view: map<nat, seq<byte>>, n: nat, form: Encoding)
    ensures PagesBelow(c, view, n + 1, form) ==
            PagesBelow(c, view, n, form) + (if n in view && Chosen(c, view[n]) == form then {n} else {})
    ensures n !in PagesBelow(c, view, n, form)
  {
    hide Chosen;
  }

  lemma {:induction false} TallyIs(
      c: Codec, pools: seq<Pool>, pages: map<nat, ZramEntry>, view: map<nat, seq<byte>>, n: nat)
    requires CodecOk(c) && Mapped(c, pools, pages, view)
    ensures var t := TallyOf(pages, n);
            && t.logical == LogicalBytes(view, n) && t.stored == StoredBytes(pages, n) <= t.logical
            && t.raw == |PagesBelow(c, view, n, Raw)| && t.compressed == |PagesBelow(c, view, n, Lz4)|
  {
    hide CodecOk, Chosen, Payload, EntryOk, PagesBelow;
    if n > 0 {
      TallyIs(c, pools, pages, view, n - 1);
      PagesStep(c, view, n - 1, Raw);
      PagesStep(c, view, n - 1, Lz4);
      if n - 1 in pages { EntryCounts(c, pools, pages[n - 1], view[n - 1]); }
    } else {
      NonePages(c, view, Raw);
      NonePages(c, view, Lz4);
    }
  }

  lemma NonePages(c: Codec, view: map<nat, seq<byte>>, form: Encoding)
    ensures PagesBelow(c, view, 0, form) == {}
  {
  }

  lemma EntryCounts(c: Codec, pools: seq<Pool>, e: ZramEntry, page: seq<byte>)
    requires CodecOk(c) && EntryOk(c, pools, e, page)
    ensures e.originalLen == |page| && e.storedLen <= |page| && e.encoding == Chosen(c, page)
  {
    hide CodecOk, Chosen, Payload;
    PayloadDecodes(c, page);
  }

  lemma AllBelow(c: Codec, pages: map<nat, ZramEntry>, view: map<nat, seq<byte>>, n: nat)
    requires pages.Keys == view.Keys && forall i <- pages :: i < n
    ensures PagesBelow(c, view, n, Lz4) == set i | i in view && Chosen(c, view[i]) == Lz4
    ensures |PagesBelow(c, view, n, Raw)| + |PagesBelow(c, view, n, Lz4)| == |view|
  {
    hide Chosen;
    var raw, packed := PagesBelow(c, view, n, Raw), PagesBelow(c, view, n, Lz4);
    assert raw + packed == view.Keys && raw !! packed;
    assert |raw + packed| == |raw| + |packed| && |view| == |view.Keys|;
  }

  lemma DeviceParts(
      c: Codec, maxPages: nat, pools: seq<Pool>, pages: map<nat, ZramEntry>, view: map<nat, seq<byte>>, leaked: nat)
    requires DeviceOk(c, maxPages, pools, pages, view, leaked)
    ensures PoolsOk(pools) && Mapped(c, pools, pages, view)
  {
  }

  lemma MappedKeys(c: Codec, pools: seq<Pool>, pages: map<nat, ZramEntry>, view: map<nat, seq<byte>>)
    requires Mapped(c, pools, pages, view)
    ensures pages.Keys == view.Keys
  {
  }

  lemma EntryOf(c: Codec, pools: seq<Pool>, pages: map<nat, ZramEntry>, view: map<nat, seq<byte>>, i: nat)
    requires Mapped(c, pools, pages, view) && i in pages
    ensures i in view && EntryOk(c, pools, pages[i], view[i])
    ensures Contents(pools, pages[i].handle) == if view[i] == [] then None else Some(Payload(c, view[i]))
    ensures pages[i].storedLen == |Payload(c, view[i])| && (view[i] == [] ==> pages[i].storedLen == 0)
  {
    assert EntryOk(c, pools, pages[i], view[i]);
  }

  lemma ReplacedReads(
      c: Codec, pools: seq<Pool>, stored: seq<Pool>, pages: map<nat, ZramEntry>, view: map<nat, seq<byte>>, i: nat,
      h: Handle, payload: seq<byte>)
    requires Mapped(c, pools, pages, view) && i in pages && Stored(pools, stored, h, payload)
    ensures i in view && Contents(stored, pages[i].handle) == if view[i] == [] then None else Some(Payload(c, view[i]))
    ensures pages[i].storedLen == |Payload(c, view[i])| && (view[i] == [] ==> pages[i].storedLen == 0)
  {
    hide Contents, Held, Payload, Chosen;
    EntryOf(c, pools, pages, view, i);
  }

  lemma {:induction false} NoBytes(n: nat)
    ensures StoredBytes(map[], n) == 0
  {
    if n > 0 { NoBytes(n - 1); }
  }
}
