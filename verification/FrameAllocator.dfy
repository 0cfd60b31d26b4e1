/** The boot-time physical frame allocator: a cursor over memory regions and a stack of returned frames. */
module FrameAllocator {
  import opened Common

  datatype MemoryRegion = MemoryRegion(base: nat, length: nat)

  predicate Aligned(a: nat) {
    a % PAGE_SIZE == 0
  }

  /** The frame at address a lies inside the region. */
  predicate Inside(r: MemoryRegion, a: nat) {
    r.base <= a && a + PAGE_SIZE <= r.base + r.length
  }

  /** What the firmware's memory map gives: page-aligned, disjoint, in no particular order, below 2^52. */
  ghost predicate RegionsOk(regions: seq<MemoryRegion>) {
    && (forall i :: 0 <= i < |regions| ==> Aligned(regions[i].base) && Aligned(regions[i].length))
    && (forall i :: 0 <= i < |regions| ==> regions[i].base + regions[i].length <= 0x10_0000_0000_0000)
    && (forall i, j :: 0 <= i < j < |regions| ==> Apart(regions[i], regions[j]))
  }

  ghost predicate Apart(r: MemoryRegion, s: MemoryRegion) {
    r.base + r.length <= s.base || s.base + s.length <= r.base
  }

  /** Every frame of every region but frame 0. */
  ghost predicate Usable(regions: seq<MemoryRegion>, a: nat) {
    Aligned(a) && a >= PAGE_SIZE && exists i :: 0 <= i < |regions| && Inside(regions[i], a)
  }

  /** The cursor has not reached this frame yet. */
  ghost predicate Ahead(regions: seq<MemoryRegion>, entry: nat, addr: nat, a: nat) {
    exists i :: entry <= i < |regions| && Inside(regions[i], a) && (i == entry ==> a >= addr)
  }

  /** Every usable frame is in exactly one place: held by a caller, returned, or ahead of the cursor. */
  ghost predicate Partition(regions: seq<MemoryRegion>, recycled: seq<nat>, entry: nat, addr: nat, held: set<nat>) {
    && entry <= |regions| && Aligned(addr)
    && (forall a <- recycled :: Usable(regions, a) && !Ahead(regions, entry, addr, a) && a !in held)
    && (forall j, k :: 0 <= j < k < |recycled| ==> recycled[j] != recycled[k])
    && (forall a <- held :: Usable(regions, a) && !Ahead(regions, entry, addr, a))
    && (forall a :: Usable(regions, a) ==> a in held || a in recycled || Ahead(regions, entry, addr, a))
  }

  /** Raising the cursor to the start of its region, or past frame 0, skips no usable frame. */
  lemma RaiseCursor(regions: seq<MemoryRegion>, recycled: seq<nat>, entry: nat, addr: nat, held: set<nat>)
    requires RegionsOk(regions) && Partition(regions, recycled, entry, addr, held) && entry < |regions|
    ensures Partition(regions, recycled, entry, Max(Max(addr, regions[entry].base), PAGE_SIZE), held)
  {
    var addr' := Max(Max(addr, regions[entry].base), PAGE_SIZE);
    forall a: nat | Usable(regions, a) ensures Ahead(regions, entry, addr, a) <==> Ahead(regions, entry, addr', a) {
      if Ahead(regions, entry, addr, a) {
        var i :| entry <= i < |regions| && Inside(regions[i], a) && (i == entry ==> a >= addr);
        assert i == entry ==> a >= addr';
      }
      if Ahead(regions, entry, addr', a) {
        var i :| entry <= i < |regions| && Inside(regions[i], a) && (i == entry ==> a >= addr');
        assert i == entry ==> a >= addr;
      }
    }
  }

  /** A frame lies in one region only. */
  lemma OneRegion(regions: seq<MemoryRegion>, i: nat, j: nat, a: nat)
    requires RegionsOk(regions) && i < |regions| && j < |regions|
    ensures Inside(regions[i], a) && Inside(regions[j], a) ==> i == j
  {
  }

  /** Issuing the frame at the cursor moves exactly that frame from ahead to held. */
  lemma IssueAtCursor(regions: seq<MemoryRegion>, recycled: seq<nat>, entry: nat, addr: nat, held: set<nat>)
    requires RegionsOk(regions) && Partition(regions, recycled, entry, addr, held)
    requires entry < |regions| && addr >= PAGE_SIZE && Inside(regions[entry], addr)
    ensures Usable(regions, addr) && addr !in held
    ensures Partition(regions, recycled, entry, addr + PAGE_SIZE, held + {addr})
  {
    assert Ahead(regions, entry, addr, addr);
    forall a: nat | Usable(regions, a)
      ensures Ahead(regions, entry, addr + PAGE_SIZE, a) <==> a != addr && Ahead(regions, entry, addr, a)
    {
      AheadAfter(regions, entry, addr, a);
    }
  }

  lemma AheadAfter(regions: seq<MemoryRegion>, entry: nat, addr: nat, a: nat)
    requires RegionsOk(regions) && entry < |regions| && Inside(regions[entry], addr) && Aligned(addr) && Aligned(a)
    ensures Ahead(regions, entry, addr + PAGE_SIZE, a) <==> a != addr && Ahead(regions, entry, addr, a)
  {
    if Ahead(regions, entry, addr + PAGE_SIZE, a) {
      var i :| entry <= i < |regions| && Inside(regions[i], a) && (i == entry ==> a >= addr + PAGE_SIZE);
      assert i == entry ==> a >= addr;
      OneRegion(regions, i, entry, a);
    }
    if a != addr && Ahead(regions, entry, addr, a) {
      var i :| entry <= i < |regions| && Inside(regions[i], a) && (i == entry ==> a >= addr);
      assert i == entry ==> a >= addr + PAGE_SIZE;
    }
  }

  /** Leaving a region whose last frame has been issued. */
  lemma NextRegion(regions: seq<MemoryRegion>, recycled: seq<nat>, entry: nat, addr: nat, held: set<nat>)
    requires RegionsOk(regions) && Partition(regions, recycled, entry, addr, held) && entry < |regions|
    requires addr >= regions[entry].base && !Inside(regions[entry], addr)
    ensures Partition(regions, recycled, entry + 1, 0, held)
  {
    forall a: nat | Usable(regions, a) ensures Ahead(regions, entry + 1, 0, a) <==> Ahead(regions, entry, addr, a) {
      if Ahead(regions, entry, addr, a) {
        var i :| entry <= i < |regions| && Inside(regions[i], a) && (i == entry ==> a >= addr);
        assert i != entry;
      }
      if Ahead(regions, entry + 1, 0, a) {
        var i :| entry + 1 <= i < |regions| && Inside(regions[i], a);
        assert i != entry;
      }
    }
  }

  class BootInfoFrameAllocator {
    const regions: seq<MemoryRegion>
    var recycled: seq<nat>
    var currentEntry: nat
    var currentAddr: nat
    /** The frames callers hold. */
    ghost var held: set<nat>

    ghost predicate Valid()
      reads this
    {
      RegionsOk(regions) && Partition(regions, recycled, currentEntry, currentAddr, held)
    }

    /** Some usable frame is not held. */
    ghost predicate HasFree()
      reads this
    {
      exists a :: Usable(regions, a) && a !in held
    }

    constructor (regions: seq<MemoryRegion>)
      requires RegionsOk(regions)
      ensures Valid() && held == {} && this.regions == regions
    {
      this.regions := regions;
      recycled, currentEntry, currentAddr, held := [], 0, 0, {};
      new;
      forall a: nat | Usable(regions, a) ensures Ahead(regions, 0, 0, a) {
        var i :| 0 <= i < |regions| && Inside(regions[i], a);
        assert i == 0 ==> a >= 0;
      }
    }

    /** `allocate_frame`: a usable frame nobody holds, or None exactly when every usable frame is held. */
    method AllocateFrame() returns (r: Option<nat>)
      requires Valid()
      modifies this
      ensures Valid()
      ensures r.Some? <==> old(HasFree())
      ensures r.Some? ==> Usable(regions, r.value) && r.value !in old(held) && held == old(held) + {r.value}
      ensures r.None? ==> held == old(held)
      ensures old(recycled) != [] ==> r == Some(old(recycled)[|old(recycled)| - 1])
      ensures old(recycled) != [] ==> currentEntry == old(currentEntry) && currentAddr == old(currentAddr)
    {
      hide Usable, Ahead, RegionsOk;
      if recycled != [] {
        var frame := recycled[|recycled| - 1];
        assert frame in recycled;
        ghost var before := recycled;
        recycled := recycled[..|recycled| - 1];
        held := held + {frame};
        assert forall a <- before :: a == frame || a in recycled;
        assert frame !in recycled;
        return Some(frame);
      }
      while currentEntry < |regions|
        invariant Valid() && recycled == [] && held == old(held)
        decreases |regions| - currentEntry
      {
        var entry := regions[currentEntry];
        RaiseCursor(regions, recycled, currentEntry, currentAddr, held);
        if currentAddr < entry.base {
          currentAddr := entry.base;
        }
        if currentAddr < PAGE_SIZE {
          currentAddr := PAGE_SIZE;
        }
        var addr := currentAddr;
        if addr + PAGE_SIZE <= entry.base + entry.length {
          IssueAtCursor(regions, recycled, currentEntry, addr, held);
          currentAddr := currentAddr + PAGE_SIZE;
          held := held + {addr};
          return Some(addr);
        }
        NextRegion(regions, recycled, currentEntry, currentAddr, held);
        currentEntry := currentEntry + 1;
        currentAddr := 0;
      }
      assert forall a :: Usable(regions, a) ==> a in held by { NothingAhead(regions, currentEntry, currentAddr); }
      return None;
    }

    /** `deallocate_frame`, for a frame the caller holds. */
    method DeallocateFrame(frame: nat)
      requires Valid() && frame in held
      modifies this
      ensures Valid() && held == old(held) - {frame} && recycled == old(recycled) + [frame]
      ensures currentEntry == old(currentEntry) && currentAddr == old(currentAddr)
    {
      hide Usable, Ahead;
      ghost var before := recycled;
      recycled := recycled + [frame];
      held := held - {frame};
      assert forall a <- recycled :: a in before || a == frame;
      assert frame in recycled && forall a <- before :: a in recycled;
    }
  }

  lemma NothingAhead(regions: seq<MemoryRegion>, entry: nat, addr: nat)
    requires entry >= |regions|
    ensures forall a :: !Ahead(regions, entry, addr, a)
  {
  }

  /** Frame 0 is never usable, so it is never issued. */
  lemma FrameZeroNeverIssued(regions: seq<MemoryRegion>, recycled: seq<nat>, entry: nat, addr: nat, held: set<nat>)
    requires Partition(regions, recycled, entry, addr, held)
    ensures 0 !in held && 0 !in recycled
  {
    assert !Usable(regions, 0);
  }
}
