/** What the pager tracks, and the invariant that keeps the memory of every page readable. */
module PagerState {
  import opened Common

  const RECLAIM_START: nat := 0x5555_0000_0000
  const RECLAIM_MAX_PAGES: nat := 256

  datatype EntryState = Resident(frame: nat) | Compressed

  datatype ReclaimEntry = ReclaimEntry(pageIndex: nat, state: EntryState)

  /** The k-th page of the reclaimable region. */
  function PageAddr(k: nat): nat {
    RECLAIM_START + k * PAGE_SIZE
  }

  /** `Page::containing_address`. */
  function PageStart(addr: nat): nat {
    addr - addr % PAGE_SIZE
  }

  type Entries = map<nat, ReclaimEntry>
  type Bytes = seq<byte>

  function SetByte(bytes: Bytes, at: nat, b: byte): Bytes
    requires at < |bytes|
  {
    bytes[at := b]
  }

  /**
   * Pager and machine together: tracked pages, how many there are, the resident queue, the page
   * table, the bytes in each frame, the frames handed out, and the backend's pages.
   */
  datatype Pager = Pager(
    entries: map<nat, ReclaimEntry>,
    next: nat,
    queue: seq<nat>,
    table: map<nat, nat>,
    memory: map<nat, Bytes>,
    held: set<nat>,
    view: map<nat, Bytes>)

  predicate IsResident(entries: Entries, p: nat) {
    p in entries && entries[p].state.Resident?
  }

  predicate IsCompressed(entries: Entries, p: nat) {
    p in entries && entries[p].state.Compressed?
  }

  /** Tracked pages are the first `next` pages of the region, numbered in order. */
  ghost predicate Numbered(entries: Entries, next: nat) {
    && next <= RECLAIM_MAX_PAGES
    && (forall k: nat :: k < next ==> PageAddr(k) in entries)
    && (forall p <- entries :: entries[p].pageIndex < next && p == PageAddr(entries[p].pageIndex))
  }

  /** The queue holds exactly the resident pages, once each. */
  ghost predicate QueueOk(entries: Entries, queue: seq<nat>) {
    && (forall p :: p in queue <==> IsResident(entries, p))
    && (forall i, j :: 0 <= i < j < |queue| ==> queue[i] != queue[j])
  }

  /** A resident page is mapped to a held frame of its own; no two pages share a frame. */
  ghost predicate FramesOk(s: Pager) {
    && (forall p :: IsResident(s.entries, p) ==> FrameOk(s, p))
    && (forall p, q ::
          IsResident(s.entries, p) && IsResident(s.entries, q) ==>
            s.entries[p].state.frame == s.entries[q].state.frame ==> p == q)
  }

  ghost predicate FrameOk(s: Pager, p: nat)
    requires IsResident(s.entries, p)
  {
    var f := s.entries[p].state.frame;
    p in s.table && s.table[p] == f && f in s.held && f in s.memory && |s.memory[f]| == PAGE_SIZE
  }

  /** The backend holds exactly the compressed pages. */
  ghost predicate BackendOk(s: Pager) {
    && (forall k <- s.view :: IsCompressed(s.entries, PageAddr(k)))
    && (forall p :: IsCompressed(s.entries, p) ==>
        s.entries[p].pageIndex in s.view && |s.view[s.entries[p].pageIndex]| == PAGE_SIZE)
  }

  /** Compressed pages and the part of the region not yet given out are unmapped. */
  ghost predicate UnmappedOk(s: Pager) {
    && (forall p :: IsCompressed(s.entries, p) ==> p !in s.table)
    && (forall k: nat :: s.next <= k < RECLAIM_MAX_PAGES ==> PageAddr(k) !in s.table)
  }

  ghost predicate PagerOk(s: Pager) {
    Numbered(s.entries, s.next) && QueueOk(s.entries, s.queue) && FramesOk(s) && BackendOk(s) && UnmappedOk(s)
  }

  /** What a program reads in page p: its frame's bytes, or the bytes a fault would bring back. */
  ghost function Reads(s: Pager, p: nat): Bytes {
    if IsResident(s.entries, p) && s.entries[p].state.frame in s.memory then s.memory[s.entries[p].state.frame]
    else if IsCompressed(s.entries, p) && s.entries[p].pageIndex in s.view then s.view[s.entries[p].pageIndex]
    else []
  }

  lemma ReadsPage(s: Pager, p: nat)
    requires PagerOk(s) && p in s.entries
    ensures |Reads(s, p)| == PAGE_SIZE
  {
    assert IsResident(s.entries, p) ==> FrameOk(s, p);
    assert IsCompressed(s.entries, p) ==> s.entries[p].pageIndex in s.view;
  }

  /** Both states track the same pages and read the same bytes in each. */
  ghost predicate SameMemory(s: Pager, s': Pager) {
    s'.entries.Keys == s.entries.Keys && forall p <- s.entries :: Reads(s', p) == Reads(s, p)
  }

  // ----- the queue ---------------------------------------------------------------------------------

  /** `remove_from_resident_queue`. */
  function RemoveFirst(queue: seq<nat>, p: nat): seq<nat> {
    if queue == [] then [] else if queue[0] == p then queue[1..] else [queue[0]] + RemoveFirst(queue[1..], p)
  }

  lemma {:induction false} RemoveFirstAt(queue: seq<nat>, p: nat, i: nat)
    requires i < |queue| && queue[i] == p && forall j :: 0 <= j < i ==> queue[j] != p
    ensures RemoveFirst(queue, p) == queue[..i] + queue[i + 1..]
  {
    if i > 0 {
      RemoveFirstAt(queue[1..], p, i - 1);
      assert queue[..i] == [queue[0]] + queue[1..][..i - 1];
    }
  }

  lemma {:induction false} RemoveFirstMissing(queue: seq<nat>, p: nat)
    requires p !in queue
    ensures RemoveFirst(queue, p) == queue
  {
    if queue != [] { RemoveFirstMissing(queue[1..], p); }
  }

  lemma RemoveFirstKeeps(queue: seq<nat>, p: nat)
    requires p in queue && forall i, j :: 0 <= i < j < |queue| ==> queue[i] != queue[j]
    ensures var q := RemoveFirst(queue, p);
            && |q| == |queue| - 1
            && (forall x :: x in q <==> x in queue && x != p)
            && (forall i, j :: 0 <= i < j < |q| ==> q[i] != q[j])
  {
    hide RemoveFirst;
    var i :| 0 <= i < |queue| && queue[i] == p;
    RemoveFirstAt(queue, p, i);
    var q := queue[..i] + queue[i + 1..];
    forall x | x in queue && x != p ensures x in q {
      var j :| 0 <= j < |queue| && queue[j] == x;
      assert q[if j < i then j else j - 1] == x;
    }
  }

  // ----- the ways the state moves ---------------------------------------------------------------------

  /** A resident page goes to the backend and its frame is given up. */
  ghost function Evicted(s: Pager, p: nat): Pager
    requires IsResident(s.entries, p)
  {
    var e := s.entries[p];
    s.(entries := s.entries[p := e.(state := Compressed)], queue := RemoveFirst(s.queue, p), table := s.table - {p},
       held := s.held - {e.state.frame}, view := s.view[e.pageIndex := Reads(s, p)])
  }

  /** A compressed page comes back in frame f. */
  ghost function Restored(s: Pager, p: nat, f: nat): Pager
    requires IsCompressed(s.entries, p)
  {
    var e := s.entries[p];
    s.(entries := s.entries[p := e.(state := Resident(f))], queue := RemoveFirst(s.queue, p) + [p],
       table := s.table[p := f], memory := s.memory[f := Reads(s, p)], held := s.held + {f},
       view := s.view - {e.pageIndex})
  }

  /** The next page of the region is added, holding the given bytes in frame f. */
  ghost function Extended(s: Pager, f: nat, bytes: Bytes): Pager {
    var p := PageAddr(s.next);
    s.(entries := s.entries[p := ReclaimEntry(s.next, Resident(f))], next := s.next + 1, queue := s.queue + [p],
       table := s.table[p := f], memory := s.memory[f := bytes], held := s.held + {f})
  }

  /** The processor stores a byte into a resident page. */
  ghost function Poked(s: Pager, p: nat, at: nat, b: byte): Pager
    requires IsResident(s.entries, p) && FrameOk(s, p) && at < PAGE_SIZE
  {
    var f := s.table[p];
    s.(memory := s.memory[f := SetByte(s.memory[f], at, b)])
  }

  lemma QueueLess(entries: Entries, queue: seq<nat>, p: nat, e: ReclaimEntry)
    requires QueueOk(entries, queue) && IsResident(entries, p) && e.state.Compressed?
    ensures QueueOk(entries[p := e], RemoveFirst(queue, p))
  {
    hide RemoveFirst;
    RemoveFirstKeeps(queue, p);
    assert forall q :: IsResident(entries[p := e], q) <==> q != p && IsResident(entries, q);
  }

  lemma QueueMore(entries: Entries, queue: seq<nat>, p: nat, e: ReclaimEntry)
    requires QueueOk(entries, queue) && !IsResident(entries, p) && e.state.Resident?
    ensures QueueOk(entries[p := e], queue + [p]) && RemoveFirst(queue, p) == queue
  {
    hide RemoveFirst;
    RemoveFirstMissing(queue, p);
    assert forall q :: IsResident(entries[p := e], q) <==> q == p || IsResident(entries, q);
    assert forall q :: q in queue + [p] <==> q in queue || q == p;
  }

  lemma Renumber(entries: Entries, next: nat, p: nat, state: EntryState)
    requires Numbered(entries, next) && p in entries
    ensures Numbered(entries[p := entries[p].(state := state)], next)
  {
  }

  lemma OtherIndices(entries: Entries, next: nat, p: nat)
    requires Numbered(entries, next) && p in entries
    ensures forall q <- entries :: q != p ==> entries[q].pageIndex != entries[p].pageIndex
  {
  }

  lemma EvictedFrames(s: Pager, p: nat)
    requires FramesOk(s) && IsResident(s.entries, p)
    ensures FramesOk(Evicted(s, p))
  {
    hide RemoveFirst, Reads;
    var s' := Evicted(s, p);
    assert forall q :: IsResident(s'.entries, q) <==> q != p && IsResident(s.entries, q);
    forall q | IsResident(s'.entries, q) ensures FrameOk(s', q) { assert FrameOk(s, q) && FrameOk(s, p); }
  }

  lemma EvictedBackend(s: Pager, p: nat)
    requires PagerOk(s) && IsResident(s.entries, p)
    ensures BackendOk(Evicted(s, p))
  {
    hide RemoveFirst, QueueOk, UnmappedOk, FramesOk, Reads;
    var s' := Evicted(s, p);
    assert |Reads(s, p)| == PAGE_SIZE by { ReadsPage(s, p); }
    assert forall q :: IsCompressed(s'.entries, q) <==> q == p || IsCompressed(s.entries, q);
    OtherIndices(s.entries, s.next, p);
  }

  lemma EvictedUnmapped(s: Pager, p: nat)
    requires UnmappedOk(s) && IsResident(s.entries, p)
    ensures UnmappedOk(Evicted(s, p))
  {
    hide RemoveFirst, Reads;
    assert forall q :: IsCompressed(Evicted(s, p).entries, q) <==> q == p || IsCompressed(s.entries, q);
  }

  /** The bytes of the other pages stay where they were. */
  lemma EvictedReads(s: Pager, p: nat)
    requires FramesOk(s) && Numbered(s.entries, s.next) && IsResident(s.entries, p)
    ensures SameMemory(s, Evicted(s, p))
  {
    hide RemoveFirst, Numbered, FramesOk;
    OtherIndices(s.entries, s.next, p);
    assert Evicted(s, p).entries.Keys == s.entries.Keys;
  }

  /** Evicting a page keeps the invariant and every page's bytes. */
  lemma EvictOk(s: Pager, p: nat)
    requires PagerOk(s) && IsResident(s.entries, p)
    ensures PagerOk(Evicted(s, p)) && SameMemory(s, Evicted(s, p))
  {
    hide RemoveFirst, Reads, FramesOk, BackendOk, UnmappedOk, QueueOk, Numbered, SameMemory;
    QueueLess(s.entries, s.queue, p, s.entries[p].(state := Compressed));
    Renumber(s.entries, s.next, p, Compressed);
    EvictedFrames(s, p);
    EvictedBackend(s, p);
    EvictedUnmapped(s, p);
    EvictedReads(s, p);
  }

  /** A frame nobody held belongs to no page. */
  lemma FreshFrame(s: Pager, f: nat)
    requires FramesOk(s) && f !in s.held
    ensures forall q :: IsResident(s.entries, q) ==> s.entries[q].state.frame != f
  {
    forall q | IsResident(s.entries, q) ensures s.entries[q].state.frame != f { assert FrameOk(s, q); }
  }

  /** A page entering a fresh frame leaves the other pages' frames alone. */
  lemma ClaimFrame(s: Pager, s': Pager, p: nat, e: ReclaimEntry, bytes: Bytes)
    requires FramesOk(s) && !IsResident(s.entries, p) && e.state.Resident? && e.state.frame !in s.held
    requires |bytes| == PAGE_SIZE
    requires s'.entries == s.entries[p := e] && s'.table == s.table[p := e.state.frame]
    requires s'.memory == s.memory[e.state.frame := bytes] && s'.held == s.held + {e.state.frame}
    ensures FramesOk(s')
    ensures Reads(s', p) == bytes && forall q :: IsResident(s.entries, q) ==> Reads(s', q) == Reads(s, q)
  {
    FreshFrame(s, e.state.frame);
    assert forall q :: IsResident(s'.entries, q) <==> q == p || IsResident(s.entries, q);
    forall q | IsResident(s'.entries, q) ensures FrameOk(s', q) {
      assert q != p ==> IsResident(s.entries, q) && FrameOk(s, q);
    }
  }

  lemma RestoredBackend(s: Pager, p: nat, f: nat)
    requires PagerOk(s) && IsCompressed(s.entries, p)
    ensures BackendOk(Restored(s, p, f))
  {
    hide RemoveFirst, QueueOk, FramesOk, UnmappedOk, Reads;
    var s' := Restored(s, p, f);
    assert forall q :: IsCompressed(s'.entries, q) <==> q != p && IsCompressed(s.entries, q);
    OtherIndices(s.entries, s.next, p);
  }

  lemma RestoredUnmapped(s: Pager, p: nat, f: nat)
    requires UnmappedOk(s) && Numbered(s.entries, s.next) && IsCompressed(s.entries, p)
    ensures UnmappedOk(Restored(s, p, f))
  {
    hide RemoveFirst, Reads;
    assert s.entries[p].pageIndex < s.next && p == PageAddr(s.entries[p].pageIndex);
    assert forall q :: IsCompressed(Restored(s, p, f).entries, q) <==> q != p && IsCompressed(s.entries, q);
  }

  lemma CompressedReads(s: Pager, s': Pager, q: nat)
    requires IsCompressed(s.entries, q) && IsCompressed(s'.entries, q) && s'.entries[q] == s.entries[q]
    requires s.entries[q].pageIndex in s.view && s.entries[q].pageIndex in s'.view
    requires s'.view[s.entries[q].pageIndex] == s.view[s.entries[q].pageIndex]
    ensures Reads(s', q) == Reads(s, q)
  {
  }

  lemma RestoredReads(s: Pager, p: nat, f: nat)
    requires PagerOk(s) && IsCompressed(s.entries, p) && f !in s.held
    ensures FramesOk(Restored(s, p, f)) && SameMemory(s, Restored(s, p, f))
  {
    hide RemoveFirst, FramesOk, QueueOk, UnmappedOk, BackendOk, Numbered, Reads;
    var s' := Restored(s, p, f);
    assert |Reads(s, p)| == PAGE_SIZE by { ReadsPage(s, p); }
    ClaimFrame(s, s', p, s'.entries[p], Reads(s, p));
    OtherIndices(s.entries, s.next, p);
    forall q | IsCompressed(s.entries, q) && q != p ensures Reads(s', q) == Reads(s, q) {
      BackendPage(s, q);
      CompressedReads(s, s', q);
    }
    assert forall q <- s.entries :: IsResident(s.entries, q) || IsCompressed(s.entries, q);
    assert s'.entries.Keys == s.entries.Keys;
  }

  /** Bringing a page back into a frame nobody held keeps the invariant and every page's bytes. */
  lemma RestoreOk(s: Pager, p: nat, f: nat)
    requires PagerOk(s) && IsCompressed(s.entries, p) && f !in s.held
    ensures PagerOk(Restored(s, p, f)) && SameMemory(s, Restored(s, p, f)) && RemoveFirst(s.queue, p) == s.queue
  {
    hide RemoveFirst, Reads, FramesOk, BackendOk, UnmappedOk, QueueOk, Numbered, SameMemory;
    QueueMore(s.entries, s.queue, p, s.entries[p].(state := Resident(f)));
    Renumber(s.entries, s.next, p, Resident(f));
    RestoredReads(s, p, f);
    RestoredBackend(s, p, f);
    RestoredUnmapped(s, p, f);
  }

  lemma ExtendedTables(s: Pager, f: nat, bytes: Bytes)
    requires PagerOk(s) && s.next < RECLAIM_MAX_PAGES
    ensures PageAddr(s.next) !in s.entries && PageAddr(s.next) !in s.table
    ensures var s' := Extended(s, f, bytes); BackendOk(s') && UnmappedOk(s') && Numbered(s'.entries, s.next + 1)
  {
    hide QueueOk, FramesOk;
    assert PageAddr(s.next) !in s.entries;
    assert forall q :: IsCompressed(Extended(s, f, bytes).entries, q) <==> IsCompressed(s.entries, q);
  }

  /** Growing the region adds one page and changes no other. */
  lemma ExtendOk(s: Pager, f: nat, bytes: Bytes)
    requires PagerOk(s) && s.next < RECLAIM_MAX_PAGES && f !in s.held && |bytes| == PAGE_SIZE
    ensures PageAddr(s.next) !in s.entries && PageAddr(s.next) !in s.table
    ensures var s' := Extended(s, f, bytes);
            && PagerOk(s') && s'.entries.Keys == s.entries.Keys + {PageAddr(s.next)}
            && Reads(s', PageAddr(s.next)) == bytes && forall p <- s.entries :: Reads(s', p) == Reads(s, p)
  {
    hide Reads, FramesOk, BackendOk, UnmappedOk, QueueOk, Numbered;
    var p, s' := PageAddr(s.next), Extended(s, f, bytes);
    ExtendedTables(s, f, bytes);
    ClaimFrame(s, s', p, ReclaimEntry(s.next, Resident(f)), bytes);
    QueueMore(s.entries, s.queue, p, ReclaimEntry(s.next, Resident(f)));
    forall q | IsCompressed(s.entries, q) ensures Reads(s', q) == Reads(s, q) {
      BackendPage(s, q);
      CompressedReads(s, s', q);
    }
    assert forall q <- s.entries :: IsResident(s.entries, q) || IsCompressed(s.entries, q);
  }

  lemma BackendPage(s: Pager, p: nat)
    requires BackendOk(s) && IsCompressed(s.entries, p)
    ensures s.entries[p].pageIndex in s.view
  {
  }

  /** A store changes the one byte of the one page. */
  lemma PokeOk(s: Pager, p: nat, at: nat, b: byte)
    requires PagerOk(s) && IsResident(s.entries, p) && at < PAGE_SIZE
    ensures FrameOk(s, p) && |Reads(s, p)| == PAGE_SIZE
    ensures var s' := Poked(s, p, at, b);
            && PagerOk(s') && s'.entries == s.entries && Reads(s', p) == SetByte(Reads(s, p), at, b)
            && forall q <- s.entries :: q != p ==> Reads(s', q) == Reads(s, q)
  {
    hide QueueOk, Numbered, BackendOk, UnmappedOk;
    var s' := Poked(s, p, at, b);
    assert FrameOk(s, p);
    forall q | IsResident(s.entries, q) ensures FrameOk(s', q) { assert FrameOk(s, q); }
    assert BackendOk(s') && UnmappedOk(s') by { SameTables(s, s'); }
  }

  lemma SameTables(s: Pager, s': Pager)
    requires BackendOk(s) && UnmappedOk(s)
    requires s'.entries == s.entries && s'.next == s.next && s'.table == s.table && s'.view == s.view
    ensures BackendOk(s') && UnmappedOk(s')
  {
  }

  lemma SameMemoryTransitive(s: Pager, s1: Pager, s2: Pager)
    requires SameMemory(s, s1) && SameMemory(s1, s2)
    ensures SameMemory(s, s2)
  {
  }
}
