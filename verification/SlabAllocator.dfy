/** The size-class slab allocator: a map from handles to byte strings. */
module SlabAllocator {
  import opened Common
  import opened Generations
  import opened SlabPage

  datatype ZramError =
    | PageIndexOutOfRange | PageTooLarge | ObjectTooLarge | InvalidHandle | MissingPage | DecompressionFailed

  datatype Handle = Handle(cls: nat, page: nat, slot: nat, generation: Generation)

  datatype Pool = Pool(slotSize: nat, pages: nat, zspages: seq<ZsPage>)

  const NUM_SIZES: nat := 14

  /** The table `SIZE_CLASSES`. */
  function ClassSize(i: nat): (n: nat)
    requires i < NUM_SIZES
    ensures 0 < n <= PAGE_SIZE
  {
    match i
    case 0 => 64 case 1 => 96 case 2 => 128 case 3 => 160 case 4 => 192 case 5 => 256 case 6 => 320
    case 7 => 512 case 8 => 768 case 9 => 1024 case 10 => 1536 case 11 => 2048 case 12 => 3072 case 13 => 4096
  }

  function ClassFrom(size: nat, i: nat): Option<nat>
    requires i <= NUM_SIZES
    decreases NUM_SIZES - i
  {
    if i == NUM_SIZES then None else if ClassSize(i) >= size then Some(i) else ClassFrom(size, i + 1)
  }

  /** `size_class_index`. */
  function SizeClassIndex(size: nat): Option<nat> {
    ClassFrom(size, 0)
  }

  lemma {:induction false} ClassFromIs(size: nat, i: nat)
    requires i <= NUM_SIZES
    ensures match ClassFrom(size, i)
            case None => forall j :: i <= j < NUM_SIZES ==> ClassSize(j) < size
            case Some(k) => i <= k < NUM_SIZES && ClassSize(k) >= size && forall j :: i <= j < k ==> ClassSize(j) < size
    decreases NUM_SIZES - i
  {
    if i < NUM_SIZES { ClassFromIs(size, i + 1); }
  }

  /** The smallest class that fits, and there is one for anything up to a page. */
  lemma SizeClassFits(size: nat)
    ensures SizeClassIndex(size).Some? <==> size <= PAGE_SIZE
    ensures SizeClassIndex(size).Some? ==>
              var k := SizeClassIndex(size).value;
              k < NUM_SIZES && ClassSize(k) >= size && forall j :: 0 <= j < k ==> ClassSize(j) < size
  {
    hide ClassFrom;
    ClassFromIs(size, 0);
    assert ClassSize(13) == PAGE_SIZE;
  }

  function PagesPerZspage(slotSize: nat): nat {
    if slotSize <= 512 then 1 else if slotSize <= 2048 then 2 else 4
  }

  // ----- the pools as a map ----------------------------------------------------------------------

  ghost predicate PoolOk(pool: Pool, i: nat)
    requires i < NUM_SIZES
  {
    && pool.slotSize == ClassSize(i) && pool.pages == PagesPerZspage(pool.slotSize)
    && forall k :: 0 <= k < |pool.zspages| ==> Valid(pool.zspages[k]) && pool.zspages[k].slotSize == pool.slotSize
  }

  ghost predicate PoolsOk(pools: seq<Pool>) {
    |pools| == NUM_SIZES && forall i :: 0 <= i < NUM_SIZES ==> PoolOk(pools[i], i)
  }

  /** What a handle holds; None for a handle that `load` and `free` reject. */
  ghost function Contents(pools: seq<Pool>, h: Handle): Option<seq<byte>> {
    if h.cls < |pools| && h.page < |pools[h.cls].zspages|
    then Read(pools[h.cls].zspages[h.page], h.slot, h.generation)
    else None
  }

  /** Handles whose slot is out of the free list: the readable ones, and those of empty payloads. */
  ghost predicate Held(pools: seq<Pool>, h: Handle) {
    h.cls < |pools| && h.page < |pools[h.cls].zspages| && Taken(pools[h.cls].zspages[h.page], h.slot, h.generation)
  }

  function SetPage(pools: seq<Pool>, cls: nat, page: nat, p: ZsPage): seq<Pool>
    requires cls < |pools| && page < |pools[cls].zspages|
  {
    pools[cls := pools[cls].(zspages := pools[cls].zspages[page := p])]
  }

  function AddPage(pools: seq<Pool>, cls: nat, p: ZsPage): seq<Pool>
    requires cls < |pools|
  {
    pools[cls := pools[cls].(zspages := pools[cls].zspages + [p])]
  }

  lemma SetPageOk(pools: seq<Pool>, cls: nat, page: nat, p: ZsPage)
    requires PoolsOk(pools) && cls < |pools| && page < |pools[cls].zspages|
    requires Valid(p) && p.slotSize == pools[cls].slotSize
    ensures PoolsOk(SetPage(pools, cls, page, p))
  {
    hide Valid, ClassSize;
    forall i | 0 <= i < NUM_SIZES ensures PoolOk(SetPage(pools, cls, page, p)[i], i) { assert PoolOk(pools[i], i); }
  }

  /** A fresh zspage holds nothing, so adding it changes no handle. */
  lemma AddPageOk(pools: seq<Pool>, cls: nat)
    requires PoolsOk(pools) && cls < |pools|
    ensures var pools' := AddPage(pools, cls, NewPage(pools[cls].slotSize, pools[cls].pages));
            && PoolsOk(pools')
            && (forall h :: Contents(pools', h) == Contents(pools, h))
            && (forall h :: Held(pools', h) <==> Held(pools, h))
  {
    hide Valid, NewPage, Read;
    assert PoolOk(pools[cls], cls);
    ClassFitsPages(cls);
    var p := NewPage(pools[cls].slotSize, pools[cls].pages);
    NewPageValid(pools[cls].slotSize, pools[cls].pages);
    var pools' := AddPage(pools, cls, p);
    NewPageSlot(pools[cls].slotSize, pools[cls].pages);
    forall i | 0 <= i < NUM_SIZES ensures PoolOk(pools'[i], i) { assert PoolOk(pools[i], i); }
    forall h ensures Contents(pools', h) == Contents(pools, h) {
      assert Read(p, h.slot, h.generation) == None;
    }
    forall h ensures Held(pools', h) <==> Held(pools, h) {
      NewPageSlots(pools[cls].slotSize, pools[cls].pages, h.slot, h.generation);
    }
  }

  lemma NewPageSlot(slotSize: nat, pages: nat)
    requires slotSize > 0
    ensures NewPage(slotSize, pages).slotSize == slotSize
  {
  }

  lemma NewPageSlots(slotSize: nat, pages: nat, slot: nat, g: Generation)
    requires slotSize > 0
    ensures !Taken(NewPage(slotSize, pages), slot, g)
  {
    var p := NewPage(slotSize, pages);
    if slot < |p.lengths| {
      assert p.freeList[|p.lengths| - 1 - slot] == slot;
    }
  }

  lemma ClassFitsPages(i: nat)
    requires i < NUM_SIZES
    ensures ClassSize(i) <= PAGE_SIZE * PagesPerZspage(ClassSize(i))
  {
  }

  // ----- totals --------------------------------------------------------------------------------------

  /** What `stats` adds up over the zspages. */
  datatype Counter = Zspages | Slots | Capacity | Bytes

  function Measure(p: ZsPage, what: Counter): nat {
    match what
    case Zspages => 1
    case Slots => p.used
    case Capacity => p.pages * PAGE_SIZE
    case Bytes => UsedBytes(p)
  }

  function SumPages(ps: seq<ZsPage>, what: Counter): nat {
    if ps == [] then 0 else SumPages(ps[..|ps| - 1], what) + Measure(ps[|ps| - 1], what)
  }

  function Total(pools: seq<Pool>, what: Counter): nat {
    if pools == [] then 0 else Total(pools[..|pools| - 1], what) + SumPages(pools[|pools| - 1].zspages, what)
  }

  lemma {:induction false} SumPagesUpdate(ps: seq<ZsPage>, i: nat, p: ZsPage, what: Counter)
    requires i < |ps|
    ensures SumPages(ps[i := p], what) == SumPages(ps, what) - Measure(ps[i], what) + Measure(p, what)
  {
    var n := |ps| - 1;
    if i == n {
      assert ps[i := p][..n] == ps[..n];
    } else {
      assert ps[i := p][..n] == ps[..n][i := p];
      SumPagesUpdate(ps[..n], i, p, what);
    }
  }

  lemma {:induction false} TotalUpdate(pools: seq<Pool>, i: nat, pool: Pool, what: Counter)
    requires i < |pools|
    ensures Total(pools[i := pool], what)
            == Total(pools, what) - SumPages(pools[i].zspages, what) + SumPages(pool.zspages, what)
  {
    var n := |pools| - 1;
    if i == n {
      assert pools[i := pool][..n] == pools[..n];
    } else {
      assert pools[i := pool][..n] == pools[..n][i := pool];
      TotalUpdate(pools[..n], i, pool, what);
    }
  }

  lemma SetPageTotal(pools: seq<Pool>, cls: nat, page: nat, p: ZsPage, what: Counter)
    requires cls < |pools| && page < |pools[cls].zspages|
    ensures Total(SetPage(pools, cls, page, p), what)
            == Total(pools, what) - Measure(pools[cls].zspages[page], what) + Measure(p, what)
  {
    hide Total, SumPages, Measure;
    SumPagesUpdate(pools[cls].zspages, page, p, what);
    TotalUpdate(pools, cls, pools[cls].(zspages := pools[cls].zspages[page := p]), what);
  }

  lemma AddPageTotal(pools: seq<Pool>, cls: nat, p: ZsPage, what: Counter)
    requires cls < |pools|
    ensures Total(AddPage(pools, cls, p), what) == Total(pools, what) + Measure(p, what)
  {
    hide Total, Measure;
    var ps := pools[cls].zspages;
    assert (ps + [p])[..|ps|] == ps;
    TotalUpdate(pools, cls, pools[cls].(zspages := ps + [p]), what);
  }

  lemma NewPageMeasure(slotSize: nat, pages: nat, what: Counter)
    requires slotSize > 0 && (what == Slots || what == Bytes)
    ensures Measure(NewPage(slotSize, pages), what) == 0
  {
    SumLengthsZero(NewPage(slotSize, pages).lengths);
  }

  lemma AllocatedMeasure(p: ZsPage, payload: seq<byte>)
    requires Valid(p) && |payload| <= p.slotSize && p.freeList != []
    ensures Measure(Allocated(p, payload), Slots) == Measure(p, Slots) + 1
    ensures Measure(Allocated(p, payload), Bytes) == Measure(p, Bytes) + |payload|
  {
    hide Next, Offset;
    SumLengthsUpdate(p.lengths, p.freeList[|p.freeList| - 1], |payload|);
  }

  lemma FreedMeasure(p: ZsPage, slot: nat, g: Generation)
    requires Valid(p) && Live(p, slot, g)
    ensures Read(p, slot, g).Some?
    ensures Measure(Freed(p, slot), Slots) == Measure(p, Slots) - 1
    ensures Measure(Freed(p, slot), Bytes) == Measure(p, Bytes) - |Read(p, slot, g).value|
  {
    SlotInside(p, slot);
    FreeListSmall(p, slot);
    SumLengthsUpdate(p.lengths, slot, 0);
  }

  // ----- one allocation, one free ------------------------------------------------------------------

  ghost predicate Stored(pools: seq<Pool>, pools': seq<Pool>, h: Handle, bytes: seq<byte>) {
    && Contents(pools, h) == None && !Held(pools, h)
    && (forall k :: Contents(pools', k) == if k == h && bytes != [] then Some(bytes) else Contents(pools, k))
    && (forall k :: Held(pools', k) <==> k == h || Held(pools, k))
  }

  ghost predicate Released(pools: seq<Pool>, pools': seq<Pool>, h: Handle) {
    && (forall k :: Contents(pools', k) == if k == h then None else Contents(pools, k))
    && (forall k :: Held(pools', k) <==> k != h && Held(pools, k))
  }

  lemma AllocateIn(pools: seq<Pool>, cls: nat, page: nat, bytes: seq<byte>)
    requires PoolsOk(pools) && cls < |pools| && page < |pools[cls].zspages|
    requires |bytes| <= pools[cls].slotSize && pools[cls].zspages[page].freeList != []
    ensures var p := pools[cls].zspages[page];
            && Valid(p) && |bytes| <= p.slotSize
            && var slot := p.freeList[|p.freeList| - 1];
               && slot < |p.generations|
               && var pools' := SetPage(pools, cls, page, Allocated(p, bytes));
                  && PoolsOk(pools') && Stored(pools, pools', Handle(cls, page, slot, Next(p.generations[slot])), bytes)
                  && Total(pools', Slots) == Total(pools, Slots) + 1
                  && Total(pools', Bytes) == Total(pools, Bytes) + |bytes|
  {
    hide Next, Read, Taken, Total, Measure, Offset;
    assert PoolOk(pools[cls], cls);
    var p := pools[cls].zspages[page];
    AllocatedValid(p, bytes);
    SetPageOk(pools, cls, page, Allocated(p, bytes));
    var slot := p.freeList[|p.freeList| - 1];
    var h := Handle(cls, page, slot, Next(p.generations[slot]));
    var pools' := SetPage(pools, cls, page, Allocated(p, bytes));
    forall k ensures Contents(pools', k) == if k == h && bytes != [] then Some(bytes) else Contents(pools, k) {
      AllocatedReads(p, bytes, k.slot, k.generation);
    }
    forall k ensures Held(pools', k) <==> k == h || Held(pools, k) {
      AllocatedTaken(p, bytes, k.slot, k.generation);
    }
    AllocatedReads(p, bytes, slot, h.generation);
    AllocatedTaken(p, bytes, slot, h.generation);
    AllocatedMeasure(p, bytes);
    SetPageTotal(pools, cls, page, Allocated(p, bytes), Slots);
    SetPageTotal(pools, cls, page, Allocated(p, bytes), Bytes);
  }

  lemma FreeIn(pools: seq<Pool>, h: Handle)
    requires PoolsOk(pools) && Contents(pools, h).Some?
    ensures h.cls < |pools| && h.page < |pools[h.cls].zspages|
    ensures var p := pools[h.cls].zspages[h.page];
            && Valid(p) && Live(p, h.slot, h.generation)
            && var pools' := SetPage(pools, h.cls, h.page, Freed(p, h.slot));
               && PoolsOk(pools')
               && Released(pools, pools', h)
               && Total(pools', Slots) == Total(pools, Slots) - 1
               && Total(pools', Bytes) == Total(pools, Bytes) - |Contents(pools, h).value|
  {
    hide Next, Taken, Total, Measure, Offset;
    assert PoolOk(pools[h.cls], h.cls);
    var p := pools[h.cls].zspages[h.page];
    FreedValid(p, h.slot, h.generation);
    SetPageOk(pools, h.cls, h.page, Freed(p, h.slot));
    FreedMeasure(p, h.slot, h.generation);
    SetPageTotal(pools, h.cls, h.page, Freed(p, h.slot), Slots);
    SetPageTotal(pools, h.cls, h.page, Freed(p, h.slot), Bytes);
    var pools' := SetPage(pools, h.cls, h.page, Freed(p, h.slot));
    forall k ensures Contents(pools', k) == if k == h then None else Contents(pools, k) {
      FreedReads(p, h.slot, h.generation, k.slot, k.generation);
    }
    forall k ensures Held(pools', k) <==> k != h && Held(pools, k) {
      FreedTaken(p, h.slot, h.generation, k.slot, k.generation);
    }
  }

  class ZsAllocator {
    var pools: seq<Pool>

    ghost predicate Valid()
      reads this
    {
      PoolsOk(pools)
    }

    constructor ()
      ensures Valid()
      ensures forall h :: Contents(pools, h) == None && !Held(pools, h)
      ensures Total(pools, Slots) == 0 && Total(pools, Bytes) == 0
    {
      pools := seq(NUM_SIZES, i requires 0 <= i < NUM_SIZES => Pool(ClassSize(i), PagesPerZspage(ClassSize(i)), []));
      new;
      EmptyTotal(pools, Slots);
      EmptyTotal(pools, Bytes);
    }

    /** `store`: the bytes become readable through a handle that held nothing before. */
    method Store(bytes: seq<byte>) returns (r: Result<Handle, ZramError>)
      requires Valid()
      modifies this
      ensures Valid()
      ensures r.Ok? <==> |bytes| <= PAGE_SIZE
      ensures r.Err? ==> r.error == ObjectTooLarge && pools == old(pools)
      ensures r.Ok? ==> Stored(old(pools), pools, r.value, bytes)
      ensures r.Ok? ==> Total(pools, Slots) == old(Total(pools, Slots)) + 1
      ensures r.Ok? ==> Total(pools, Bytes) == old(Total(pools, Bytes)) + |bytes|
    {
      hide SizeClassIndex, Contents, Held, Total, SlabPage.Valid, ClassSize, Allocated, Next, Offset;
      SizeClassFits(|bytes|);
      var found := SizeClassIndex(|bytes|);
      if found.None? {
        return Err(ObjectTooLarge);
      }
      var cls := found.value;
      assert PoolOk(pools[cls], cls);
      var pageIndex: nat := 0;
      while pageIndex < |pools[cls].zspages|
        invariant pools == old(pools)
      {
        var page := pools[cls].zspages[pageIndex];
        if page.freeList != [] {
          AllocateIn(pools, cls, pageIndex, bytes);
          var slot := page.freeList[|page.freeList| - 1];
          var generation := Next(page.generations[slot]);
          pools := SetPage(pools, cls, pageIndex, Allocated(page, bytes));
          return Ok(Handle(cls, pageIndex, slot, generation));
        }
        pageIndex := pageIndex + 1;
      }
      AddPageOk(pools, cls);
      ClassFitsPages(cls);
      NewPageValid(pools[cls].slotSize, pools[cls].pages);
      var fresh_ := NewPage(pools[cls].slotSize, pools[cls].pages);
      NewPageMeasure(pools[cls].slotSize, pools[cls].pages, Slots);
      NewPageMeasure(pools[cls].slotSize, pools[cls].pages, Bytes);
      AddPageTotal(pools, cls, fresh_, Slots);
      AddPageTotal(pools, cls, fresh_, Bytes);
      ghost var grown := AddPage(pools, cls, fresh_);
      AllocateIn(grown, cls, |pools[cls].zspages|, bytes);
      var slot := fresh_.freeList[|fresh_.freeList| - 1];
      var generation := Next(fresh_.generations[slot]);
      ghost var before := pools;
      pools := AddPage(pools, cls, Allocated(fresh_, bytes));
      AddThenSet(before, cls, fresh_, Allocated(fresh_, bytes));
      return Ok(Handle(cls, |pools[cls].zspages| - 1, slot, generation));
    }

    /** `load`. */
    method Load(h: Handle) returns (r: Result<seq<byte>, ZramError>)
      requires Valid()
      ensures r.Ok? <==> Contents(pools, h).Some?
      ensures r.Ok? ==> Some(r.value) == Contents(pools, h)
      ensures r.Err? ==> r.error == InvalidHandle
    {
      if h.cls >= |pools| || h.page >= |pools[h.cls].zspages| {
        return Err(InvalidHandle);
      }
      var page := pools[h.cls].zspages[h.page];
      assert PoolOk(pools[h.cls], h.cls);
      if h.slot >= |page.lengths| || page.generations[h.slot] != h.generation || page.lengths[h.slot] == 0 {
        return Err(InvalidHandle);
      }
      SlotInside(page, h.slot);
      var offset := Offset(page.slotSize, h.slot);
      return Ok(page.storage[offset..offset + page.lengths[h.slot]]);
    }

    /** `free`: fails exactly on handles that hold nothing, and otherwise empties just that one. */
    method Free(h: Handle) returns (r: Result<(), ZramError>)
      requires Valid()
      modifies this
      ensures Valid()
      ensures r.Ok? <==> old(Contents(pools, h)).Some?
      ensures r.Err? ==> r.error == InvalidHandle && pools == old(pools)
      ensures r.Ok? ==> Released(old(pools), pools, h)
      ensures r.Ok? ==> Total(pools, Slots) == old(Total(pools, Slots)) - 1
      ensures r.Ok? ==> Total(pools, Bytes) == old(Total(pools, Bytes)) - |old(Contents(pools, h)).value|
    {
      hide Total, Freed, Offset;
      var loaded := Load(h);
      if loaded.Err? {
        return Err(InvalidHandle);
      }
      FreeIn(pools, h);
      pools := SetPage(pools, h.cls, h.page, Freed(pools[h.cls].zspages[h.page], h.slot));
      return Ok(());
    }

    method Stats() returns (stats: ZsStats)
      requires Valid()
      ensures stats == StatsOf(pools) && stats.storedBytes <= stats.capacityBytes
    {
      hide Measure;
      stats := ZsStats(0, 0, 0, 0);
      for i := 0 to |pools|
        invariant stats == StatsOf(pools[..i])
      {
        assert pools[..i + 1][..i] == pools[..i];
        var ps := pools[i].zspages;
        for j := 0 to |ps|
          invariant stats == PlusPages(StatsOf(pools[..i]), ps[..j])
        {
          assert ps[..j + 1][..j] == ps[..j];
          stats := Plus(stats, ps[j]);
        }
        assert ps[..|ps|] == ps;
      }
      assert pools[..|pools|] == pools;
      StoredFits(pools, |pools|);
    }
  }

  datatype ZsStats = ZsStats(zspages: nat, usedSlots: nat, capacityBytes: nat, storedBytes: nat)

  function StatsOf(pools: seq<Pool>): ZsStats {
    ZsStats(Total(pools, Zspages), Total(pools, Slots), Total(pools, Capacity), Total(pools, Bytes))
  }

  function PlusPages(stats: ZsStats, ps: seq<ZsPage>): ZsStats {
    ZsStats(stats.zspages + SumPages(ps, Zspages), stats.usedSlots + SumPages(ps, Slots),
            stats.capacityBytes + SumPages(ps, Capacity), stats.storedBytes + SumPages(ps, Bytes))
  }

  /** One page of the inner loop. */
  function Plus(stats: ZsStats, p: ZsPage): ZsStats {
    ZsStats(stats.zspages + Measure(p, Zspages), stats.usedSlots + Measure(p, Slots),
            stats.capacityBytes + Measure(p, Capacity), stats.storedBytes + Measure(p, Bytes))
  }

  lemma {:induction false} LengthsBound(ls: seq<nat>, size: nat)
    requires forall i :: 0 <= i < |ls| ==> ls[i] <= size
    ensures SumLengths(ls) <= Offset(size, |ls|)
  {
    if ls != [] {
      LengthsBound(ls[..|ls| - 1], size);
      MulOrder(|ls| - 1, |ls|, size);
    }
  }

  lemma {:induction false} PagesFit(ps: seq<ZsPage>)
    requires forall k :: 0 <= k < |ps| ==> SlabPage.Valid(ps[k])
    ensures SumPages(ps, Bytes) <= SumPages(ps, Capacity)
  {
    hide Offset, SumLengths;
    if ps != [] {
      var p := ps[|ps| - 1];
      PagesFit(ps[..|ps| - 1]);
      LengthsBound(p.lengths, p.slotSize);
    }
  }

  /** The bytes stored never exceed the bytes of the zspages. */
  lemma {:induction false} StoredFits(pools: seq<Pool>, n: nat)
    requires PoolsOk(pools) && n <= |pools|
    ensures Total(pools[..n], Bytes) <= Total(pools[..n], Capacity)
    ensures n == |pools| ==> Total(pools, Bytes) <= Total(pools, Capacity)
  {
    hide SlabPage.Valid, Measure;
    if n > 0 {
      StoredFits(pools, n - 1);
      assert PoolOk(pools[n - 1], n - 1);
      PagesFit(pools[n - 1].zspages);
      assert pools[..n][..n - 1] == pools[..n - 1];
    }
    assert pools[..|pools|] == pools;
  }

  lemma {:induction false} EmptyTotal(pools: seq<Pool>, what: Counter)
    requires forall i :: 0 <= i < |pools| ==> pools[i].zspages == []
    ensures Total(pools, what) == 0
  {
    if pools != [] { EmptyTotal(pools[..|pools| - 1], what); }
  }

  lemma AddThenSet(pools: seq<Pool>, cls: nat, p: ZsPage, q: ZsPage)
    requires cls < |pools|
    ensures SetPage(AddPage(pools, cls, p), cls, |pools[cls].zspages|, q) == AddPage(pools, cls, q)
  {
    var ps := pools[cls].zspages;
    assert (ps + [p])[|ps| := q] == ps + [q];
  }
}
