/** The pager: moves pages between frames and the compressed backend under the program's feet. */
module ReclaimPager {
  import opened Common
  import opened PagerState
  import opened ZramDevice
  import opened FrameAllocator

  datatype ReclaimError = OutOfVirtualSpace | UntrackedPage | AlreadyReclaimed

  /** `VmError::FrameAllocationFailed`. */
  datatype VmError = FrameAllocationFailed

  function ZeroPage(): Bytes {
    seq(PAGE_SIZE, _ => 0)
  }

  /** The search of `reclaim_one`: rotate the queue until a resident page has gone by. */
  method RotateToResident(entries: Entries, queue: seq<nat>) returns (rotated: seq<nat>, found: Option<nat>)
    ensures found.None? ==> rotated == queue && forall p <- queue :: !IsResident(entries, p)
    ensures found.Some? ==> exists k :: 0 <= k < |queue| && FirstResident(entries, queue, k)
                                        && found.value == queue[k] && rotated == queue[k + 1..] + queue[..k + 1]
  {
    rotated := queue;
    for i := 0 to |queue|
      invariant rotated == queue[i..] + queue[..i]
      invariant forall j :: 0 <= j < i ==> !IsResident(entries, queue[j])
    {
      var pageStart := rotated[0];
      rotated := rotated[1..] + [pageStart];
      assert pageStart == queue[i] && rotated == queue[i + 1..] + queue[..i + 1];
      if pageStart in entries && entries[pageStart].state.Resident? {
        assert FirstResident(entries, queue, i);
        return rotated, Some(pageStart);
      }
    }
    return queue, None;
  }

  ghost predicate FirstResident(entries: Entries, queue: seq<nat>, k: nat) {
    k < |queue| && IsResident(entries, queue[k]) && forall j :: 0 <= j < k ==> !IsResident(entries, queue[j])
  }

  /** The first `n` pages after s are new and zero; the pages of s read as before. */
  ghost predicate Grew(s: Pager, s': Pager, n: nat) {
    && s'.next == s.next + n && s.entries.Keys <= s'.entries.Keys && s'.view == s.view
    && (forall p <- s.entries :: Reads(s', p) == Reads(s, p))
    && (forall k: nat :: s.next <= k < s'.next ==> PageAddr(k) in s'.entries && Reads(s', PageAddr(k)) == ZeroPage())
  }

  lemma NoGrowth(s: Pager)
    ensures Grew(s, s, 0)
  {
  }

  lemma GrewMore(s: Pager, s1: Pager, n: nat, f: nat)
    requires PagerOk(s1) && Grew(s, s1, n) && s1.next < RECLAIM_MAX_PAGES && f !in s1.held
    ensures Grew(s, Extended(s1, f, ZeroPage()), n + 1) && Extended(s1, f, ZeroPage()).held == s1.held + {f}
    ensures Extended(s1, f, ZeroPage()).next == s1.next + 1
  {
    hide PagerOk, Reads;
    ExtendOk(s1, f, ZeroPage());
  }

  /** Moving the front of the queue to the back and then removing it is dropping the front. */
  lemma RotateFront(entries: Entries, queue: seq<nat>)
    requires QueueOk(entries, queue) && queue != []
    ensures QueueOk(entries, queue[1..] + [queue[0]]) && RemoveFirst(queue[1..] + [queue[0]], queue[0]) == queue[1..]
  {
    var q := queue[1..] + [queue[0]];
    assert queue == [queue[0]] + queue[1..];
    assert forall p :: p in q <==> p in queue;
    RemoveFirstAt(q, queue[0], |queue| - 1);
    assert q[..|queue| - 1] + q[|queue|..] == queue[1..];
  }

  class ReclaimPager {
    const backend: ZramDevice
    const frames: BootInfoFrameAllocator
    var nextRegionPage: nat
    var nextBackendPage: nat
    var entries: Entries
    var residentQueue: seq<nat>
    var reclaims: nat
    var restoredFaults: nat
    /** The machine: the page table, and the bytes in each frame. */
    var table: map<nat, nat>
    var memory: map<nat, Bytes>

    ghost function State(): Pager
      reads this, frames, backend
    {
      Pager(entries, nextRegionPage, residentQueue, table, memory, frames.held, backend.view)
    }

    ghost predicate Valid()
      reads this, frames, backend, backend.allocator
    {
      && backend.Valid() && frames.Valid() && PagerOk(State())
      && backend.maxPages == RECLAIM_MAX_PAGES && backend.leaked == 0 && nextBackendPage == nextRegionPage
    }

    constructor (codec: Codec, frames: BootInfoFrameAllocator, table: map<nat, nat>, memory: map<nat, Bytes>)
      requires CodecOk(codec) && frames.Valid() && forall k: nat :: k < RECLAIM_MAX_PAGES ==> PageAddr(k) !in table
      ensures Valid() && fresh(backend) && fresh(backend.allocator)
      ensures this.frames == frames && entries == map[] && this.table == table && this.memory == memory
    {
      hide DeviceOk, Partition, PagerOk, RegionsOk;
      this.frames := frames;
      backend := new ZramDevice(codec, RECLAIM_MAX_PAGES);
      nextRegionPage, nextBackendPage, entries, residentQueue, reclaims, restoredFaults := 0, 0, map[], [], 0, 0;
      this.table, this.memory := table, memory;
      new;
      EmptyPager(State());
    }

    /** One round of `allocate_region`: map a zeroed frame and track the page. */
    method AddPage(page: nat) returns (frame: nat)
      requires Valid() && nextRegionPage < RECLAIM_MAX_PAGES && page == PageAddr(nextRegionPage) && frames.HasFree()
      modifies this, frames
      ensures Valid() && frame !in old(frames.held) && State() == Extended(old(State()), frame, ZeroPage())
    {
      hide PagerOk, Reads, Usable, Partition, RegionsOk, DeviceOk;
      ghost var before := State();
      var got := frames.AllocateFrame();
      frame := got.value;
      ExtendOk(before, frame, ZeroPage());
      table := table[page := frame];
      memory := memory[frame := ZeroPage()];
      entries := entries[page := ReclaimEntry(nextBackendPage, Resident(frame))];
      nextBackendPage := nextBackendPage + 1;
      residentQueue := residentQueue + [page];
      nextRegionPage := nextRegionPage + 1;
      assert State() == Extended(before, frame, ZeroPage());
    }

    /** `allocate_region`, with a frame to spare for each page: new zero pages, nothing else changed. */
    method AllocateRegion(pageCount: nat, ghost spare: set<nat>) returns (r: Result<nat, ReclaimError>)
      requires Valid()
      requires |spare| >= pageCount && forall a <- spare :: Usable(frames.regions, a) && a !in frames.held
      modifies this, frames
      ensures Valid()
      ensures r.Ok? <==> old(nextRegionPage) + pageCount <= RECLAIM_MAX_PAGES
      ensures r.Ok? ==> r.value == PageAddr(old(nextRegionPage)) && Grew(old(State()), State(), pageCount)
      ensures r.Err? ==> r.error == OutOfVirtualSpace && State() == old(State())
    {
      hide PagerOk, Reads, Usable, Partition, RegionsOk, DeviceOk, Grew, Extended;
      NoGrowth(State());
      if nextRegionPage + pageCount > RECLAIM_MAX_PAGES {
        return Err(OutOfVirtualSpace);
      }
      var base := PageAddr(nextRegionPage);
      for pageOffset := 0 to pageCount
        invariant Valid() && base == PageAddr(old(nextRegionPage))
        invariant nextRegionPage == old(nextRegionPage) + pageOffset && Grew(old(State()), State(), pageOffset)
        invariant |spare - frames.held| >= pageCount - pageOffset
      {
        ghost var before := State();
        ghost var left := spare - frames.held;
        SpareIsFree(frames, spare, left);
        var frame := AddPage(base + pageOffset * PAGE_SIZE);
        GrewMore(old(State()), before, pageOffset, frame);
        assert spare - frames.held == left - {frame};
      }
      return Ok(base);
    }

    /** `reclaim_page`: the page is compressed and its frame returned; every page reads the same. */
    method ReclaimPage(addr: nat) returns (r: Result<(), ReclaimError>)
      requires Valid()
      modifies this, frames, backend, backend.allocator
      ensures Valid()
      ensures r.Ok? <==> IsResident(old(entries), PageStart(addr))
      ensures r.Ok? ==> State() == Evicted(old(State()), PageStart(addr)) && SameMemory(old(State()), State())
      ensures r.Ok? ==> frames.recycled != [] && reclaims == SaturatingAdd(old(reclaims), 1)
      ensures r.Err? ==> r.error == if PageStart(addr) in old(entries) then AlreadyReclaimed else UntrackedPage
      ensures r.Err? ==> State() == old(State()) && reclaims == old(reclaims)
      ensures restoredFaults == old(restoredFaults)
    {
      hide PagerOk, Reads, Partition, RegionsOk, DeviceOk, SameMemory, RemoveFirst;
      var page := PageStart(addr);
      if page !in entries {
        return Err(UntrackedPage);
      }
      var entry := entries[page];
      if entry.state.Compressed? {
        return Err(AlreadyReclaimed);
      }
      ghost var before := State();
      ResidentPage(before, page);
      EvictOk(before, page);
      var frame := entry.state.frame;
      var bytes := memory[table[page]];
      var stored := backend.StorePage(entry.pageIndex, bytes);
      var unmapped := table[page];
      table := table - {page};
      if unmapped == frame {
        frames.DeallocateFrame(unmapped);
      }
      entries := entries[page := entry.(state := Compressed)];
      residentQueue := RemoveFirst(residentQueue, page);
      reclaims := SaturatingAdd(reclaims, 1);
      assert State() == Evicted(before, page);
      return Ok(());
    }

    /** `reclaim_one`: evicts the page at the front of the queue, and says false only when none is resident. */
    method ReclaimOne() returns (r: bool)
      requires Valid()
      modifies this, frames, backend, backend.allocator
      ensures Valid() && SameMemory(old(State()), State())
      ensures r <==> old(residentQueue) != []
      ensures r ==>
              IsCompressed(entries, old(residentQueue)[0]) && residentQueue == old(residentQueue)[1..]
                  && frames.recycled != []
      ensures r ==> var p := old(residentQueue)[0];
                    entries == old(entries)[p := old(entries)[p].(state := Compressed)]
      ensures !r ==> State() == old(State()) && forall p :: !IsResident(entries, p)
    {
      hide Reads, Partition, RegionsOk, DeviceOk, RemoveFirst, FramesOk, BackendOk, UnmappedOk, Numbered;
      ghost var before := State();
      var rotated, found := RotateToResident(entries, residentQueue);
      if found.None? {
        FrontIsResident(entries, residentQueue);
        return false;
      }
      FrontIsResident(entries, residentQueue);
      ghost var k :| 0 <= k < |before.queue| && FirstResident(entries, before.queue, k)
                     && found.value == before.queue[k] && rotated == before.queue[k + 1..] + before.queue[..k + 1];
      assert k == 0 && rotated == before.queue[1..] + [before.queue[0]];
      RotateFront(entries, before.queue);
      residentQueue := rotated;
      ghost var turned := State();
      assert PagerOk(turned) && SameMemory(before, turned) by { Rotated(before, turned); }
      InRegion(turned, found.value);
      var reclaimed := ReclaimPage(found.value);
      SameMemoryTransitive(before, turned, State());
      return true;
    }

    /** `handle_page_fault`: a compressed page is brought back; every page reads the same. */
    method HandlePageFault(addr: nat) returns (r: bool)
      requires Valid() && (IsCompressed(entries, PageStart(addr)) ==> frames.HasFree())
      modifies this, frames, backend, backend.allocator
      ensures Valid() && SameMemory(old(State()), State())
      ensures r <==> IsCompressed(old(entries), PageStart(addr))
      ensures r ==> IsResident(entries, PageStart(addr)) && residentQueue == old(residentQueue) + [PageStart(addr)]
      ensures r ==> entries[PageStart(addr)].state.frame !in old(frames.held)
      ensures r ==> State() == Restored(old(State()), PageStart(addr), entries[PageStart(addr)].state.frame)
      ensures !r ==> State() == old(State())
      ensures restoredFaults == if r then SaturatingAdd(old(restoredFaults), 1) else old(restoredFaults)
    {
      hide PagerOk, Reads, Partition, RegionsOk, DeviceOk, RemoveFirst, Usable;
      var page := PageStart(addr);
      if page !in entries {
        return false;
      }
      var entry := entries[page];
      if entry.state.Resident? {
        return false;
      }
      ghost var before := State();
      CompressedPage(before, page);
      var loaded := backend.LoadPage(entry.pageIndex);
      var bytes := loaded.value;
      var frame := frames.AllocateFrame();
      RestoreOk(before, page, frame.value);
      table := table[page := frame.value];
      memory := memory[frame.value := bytes + seq(PAGE_SIZE - |bytes|, _ => 0)];
      assert memory[frame.value] == bytes;
      var dropped := backend.InvalidatePage(entry.pageIndex);
      entries := entries[page := entry.(state := Resident(frame.value))];
      residentQueue := RemoveFirst(residentQueue, page) + [page];
      restoredFaults := SaturatingAdd(restoredFaults, 1);
      assert State() == Restored(before, page, frame.value);
      return true;
    }

    /** A store by the program: through the table, after a fault if the page is away. */
    method StoreByte(addr: nat, b: byte)
      requires Valid() && PageStart(addr) in entries
      requires IsCompressed(entries, PageStart(addr)) ==> frames.HasFree()
      modifies this, frames, backend, backend.allocator
      ensures Valid() && entries.Keys == old(entries).Keys
      ensures |Reads(old(State()), PageStart(addr))| == PAGE_SIZE
      ensures Reads(State(), PageStart(addr)) == SetByte(Reads(old(State()), PageStart(addr)), addr % PAGE_SIZE, b)
      ensures forall p <- entries :: p != PageStart(addr) ==> Reads(State(), p) == Reads(old(State()), p)
    {
      hide PagerOk, Reads, Partition, RegionsOk, DeviceOk, RemoveFirst, Restored, FrameOk;
      var page := PageStart(addr);
      ReadsPage(State(), page);
      var faulted := HandlePageFault(addr);
      ghost var s := State();
      PokeOk(s, page, addr % PAGE_SIZE, b);
      MappedPage(s, page);
      memory := memory[table[page] := SetByte(memory[table[page]], addr % PAGE_SIZE, b)];
      assert State() == Poked(s, page, addr % PAGE_SIZE, b);
    }

    /** A load by the program: the byte last stored there. */
    method LoadByte(addr: nat) returns (b: byte)
      requires Valid() && PageStart(addr) in entries
      requires IsCompressed(entries, PageStart(addr)) ==> frames.HasFree()
      modifies this, frames, backend, backend.allocator
      ensures Valid() && SameMemory(old(State()), State())
      ensures |Reads(old(State()), PageStart(addr))| == PAGE_SIZE
      ensures b == Reads(old(State()), PageStart(addr))[addr % PAGE_SIZE]
    {
      hide PagerOk, Reads, Partition, RegionsOk, DeviceOk, RemoveFirst, Restored, FrameOk;
      var page := PageStart(addr);
      ReadsPage(State(), page);
      var faulted := HandlePageFault(addr);
      MappedPage(State(), page);
      b := memory[table[page]][addr % PAGE_SIZE];
    }

    /**
     * The loop of `allocate_frame`: terminates because each round evicts a resident page, and fails
     * only when no frame is free and nothing is resident.
     */
    method AllocateFrameReclaiming() returns (r: Result<nat, VmError>)
      requires Valid()
      modifies this, frames, backend, backend.allocator
      ensures Valid() && SameMemory(old(State()), State())
      ensures r.Err? <==> !old(frames.HasFree()) && old(residentQueue) == []
      ensures r.Ok? ==> Usable(frames.regions, r.value) && r.value in frames.held
      ensures r.Ok? ==> forall p :: IsResident(entries, p) ==> entries[p].state.frame != r.value
      ensures old(frames.HasFree()) ==> residentQueue == old(residentQueue)
      ensures !old(frames.HasFree()) && r.Ok? ==> residentQueue == old(residentQueue)[1..]
    {
      hide Reads, Usable, Partition, RegionsOk, DeviceOk, RemoveFirst, FramesOk, BackendOk, UnmappedOk, Numbered;
      hide QueueOk;
      ghost var start := State();
      ghost var free := frames.HasFree();
      ghost var rounds := 0;
      while true
        invariant Valid() && SameMemory(start, State())
        invariant rounds <= 1 && (rounds == 0 ==> residentQueue == old(residentQueue) && frames.HasFree() == free)
        invariant rounds == 1 ==>
                  !free && old(residentQueue) != [] && residentQueue == old(residentQueue)[1..] && frames.recycled != []
        decreases |residentQueue|
      {
        ghost var before := State();
        var frame := frames.AllocateFrame();
        if frame.Some? {
          FreshFrame(before, frame.value);
          assert PagerOk(State()) && SameMemory(before, State()) by { MoreHeld(before, State()); }
          SameMemoryTransitive(start, before, State());
          return Ok(frame.value);
        }
        assert State() == before;
        var reclaimed := ReclaimOne();
        if !reclaimed {
          return Err(FrameAllocationFailed);
        }
        SameMemoryTransitive(start, before, State());
        rounds := rounds + 1;
      }
    }
  }

  lemma SpareIsFree(frames: BootInfoFrameAllocator, spare: set<nat>, left: set<nat>)
    requires left == spare - frames.held && |left| > 0 && forall a <- spare :: Usable(frames.regions, a)
    ensures frames.HasFree()
  {
    var a :| a in left;
  }

  lemma EmptyPager(s: Pager)
    requires s.entries == map[] && s.next == 0 && s.queue == [] && s.view == map[]
    requires forall k: nat :: k < RECLAIM_MAX_PAGES ==> PageAddr(k) !in s.table
    ensures PagerOk(s)
  {
    assert forall p :: !IsResident(s.entries, p) && !IsCompressed(s.entries, p);
  }

  lemma ResidentPage(s: Pager, p: nat)
    requires PagerOk(s) && IsResident(s.entries, p)
    ensures p in s.table && s.table[p] == s.entries[p].state.frame && s.table[p] in s.held && s.table[p] in s.memory
    ensures Reads(s, p) == s.memory[s.table[p]] && |s.memory[s.table[p]]| == PAGE_SIZE
    ensures s.entries[p].pageIndex < RECLAIM_MAX_PAGES && LeakOf(s.view, s.entries[p].pageIndex) == 0
  {
    assert FrameOk(s, p);
  }

  lemma MappedPage(s: Pager, p: nat)
    requires PagerOk(s) && IsResident(s.entries, p)
    ensures p in s.table && s.table[p] in s.memory && |s.memory[s.table[p]]| == PAGE_SIZE
    ensures Reads(s, p) == s.memory[s.table[p]]
    ensures FrameOk(s, p)
  {
    assert FrameOk(s, p);
  }

  lemma CompressedPage(s: Pager, p: nat)
    requires PagerOk(s) && IsCompressed(s.entries, p)
    ensures s.entries[p].pageIndex in s.view && s.view[s.entries[p].pageIndex] == Reads(s, p)
    ensures |Reads(s, p)| == PAGE_SIZE
  {
    hide QueueOk, FramesOk, UnmappedOk;
  }

  lemma FrontIsResident(entries: Entries, queue: seq<nat>)
    requires QueueOk(entries, queue)
    ensures queue != [] ==> IsResident(entries, queue[0])
    ensures queue == [] ==> forall p :: !IsResident(entries, p)
  {
    if queue != [] { assert queue[0] in queue; }
  }

  lemma InRegion(s: Pager, p: nat)
    requires PagerOk(s) && p in s.entries
    ensures PageStart(p) == p
  {
    hide QueueOk, FramesOk, BackendOk, UnmappedOk;
    assert p == PageAddr(s.entries[p].pageIndex);
  }

  lemma SameFrames(s: Pager, s': Pager)
    requires FramesOk(s) && s'.entries == s.entries && s'.table == s.table && s'.memory == s.memory && s.held <= s'.held
    ensures FramesOk(s')
  {
    assert forall p :: IsResident(s.entries, p) ==> FrameOk(s, p) && FrameOk(s', p);
  }

  lemma Rotated(s: Pager, s': Pager)
    requires PagerOk(s) && QueueOk(s.entries, s'.queue) && s' == s.(queue := s'.queue)
    ensures PagerOk(s') && SameMemory(s, s')
  {
    hide QueueOk, Numbered, FramesOk, BackendOk, UnmappedOk;
    SameTables(s, s');
    SameFrames(s, s');
  }

  /** Frames handed to others do not concern the pager. */
  lemma MoreHeld(s: Pager, s': Pager)
    requires PagerOk(s) && s.held <= s'.held && s' == s.(held := s'.held)
    ensures PagerOk(s') && SameMemory(s, s')
  {
    hide QueueOk, Numbered, FramesOk, BackendOk, UnmappedOk;
    SameTables(s, s');
    SameFrames(s, s');
  }
}
