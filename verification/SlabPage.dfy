/** One zspage: a run of equal slots with lengths, generations and a free list. */
module SlabPage {
  import opened Common
  import opened Generations

  datatype ZsPage = ZsPage(
    slotSize: nat,
    pages: nat,
    storage: seq<byte>,
    lengths: seq<nat>,
    generations: seq<Generation>,
    freeList: seq<nat>,
    used: nat)

  ghost predicate Valid(p: ZsPage) {
    && p.slotSize > 0
    && |p.storage| == PAGE_SIZE * p.pages
    && |p.lengths| == |p.generations| > 0
    && Offset(p.slotSize, |p.lengths|) <= |p.storage|
    && (forall i :: 0 <= i < |p.lengths| ==> p.lengths[i] <= p.slotSize)
    && (forall k :: 0 <= k < |p.freeList| ==> p.freeList[k] < |p.lengths| && p.lengths[p.freeList[k]] == 0)
    && (forall j, k :: 0 <= j < k < |p.freeList| ==> p.freeList[j] != p.freeList[k])
    && p.used == |p.lengths| - |p.freeList|
  }

  /** Where a slot begins. */
  function Offset(slotSize: nat, slot: nat): nat {
    slot * slotSize
  }

  lemma {:induction false} MulOrder(a: nat, b: nat, c: nat)
    requires a < b
    ensures a * c + c <= b * c
    decreases b
  {
    assert b * c == (b - 1) * c + c;
    if a < b - 1 { MulOrder(a, b - 1, c); }
  }

  lemma SlotInside(p: ZsPage, slot: nat)
    requires Valid(p) && slot < |p.lengths|
    ensures Offset(p.slotSize, slot) + p.slotSize <= |p.storage|
  {
    MulOrder(slot, |p.lengths|, p.slotSize);
  }

  /** `ZsPage::new`: all slots free, lowest slot first to go. */
  function NewPage(slotSize: nat, pages: nat): ZsPage
    requires slotSize > 0
  {
    var bytes := PAGE_SIZE * pages;
    var slots := Max(bytes / slotSize, 1);
    ZsPage(slotSize, pages, seq(bytes, _ => 0), seq(slots, _ => 0), seq(slots, _ => 0),
        seq(slots, i requires 0 <= i < slots => slots - 1 - i), 0)
  }

  lemma NewPageValid(slotSize: nat, pages: nat)
    requires 0 < slotSize <= PAGE_SIZE * pages
    ensures Valid(NewPage(slotSize, pages)) && NewPage(slotSize, pages).freeList != []
    ensures forall s, g :: Read(NewPage(slotSize, pages), s, g) == None
  {
    var bytes := PAGE_SIZE * pages;
    var slots := bytes / slotSize;
    assert bytes == slotSize * slots + bytes % slotSize;
    assert slots * slotSize == slotSize * slots;
  }

  predicate Live(p: ZsPage, slot: nat, g: Generation)
    requires |p.lengths| == |p.generations|
  {
    slot < |p.lengths| && Accepts(Slot(p.generations[slot], p.lengths[slot]), g)
  }

  /** `ZsPage::read`; None stands for an invalid handle. */
  ghost function Read(p: ZsPage, slot: nat, g: Generation): Option<seq<byte>> {
    if |p.lengths| == |p.generations| && Live(p, slot, g) && Offset(p.slotSize, slot) + p.lengths[slot] <= |p.storage|
    then Some(p.storage[Offset(p.slotSize, slot)..Offset(p.slotSize, slot) + p.lengths[slot]])
    else None
  }

  /** A slot taken from the free list and not given back, whether or not it holds bytes. */
  ghost predicate Taken(p: ZsPage, slot: nat, g: Generation) {
    slot < |p.lengths| && slot < |p.generations| && p.generations[slot] == g && slot !in p.freeList
  }

  /** `ZsPage::allocate`, with a free slot at the end of the list. */
  function Allocated(p: ZsPage, bytes: seq<byte>): ZsPage
    requires Valid(p) && |bytes| <= p.slotSize && p.freeList != []
  {
    var slot := p.freeList[|p.freeList| - 1];
    SlotInside(p, slot);
    var at := Offset(p.slotSize, slot);
    p.(freeList := p.freeList[..|p.freeList| - 1],
       generations := p.generations[slot := Next(p.generations[slot])],
       lengths := p.lengths[slot := |bytes|],
       used := p.used + 1,
       storage := p.storage[..at] + bytes + p.storage[at + |bytes|..])
  }

  /** `ZsPage::free` of a live slot. */
  function Freed(p: ZsPage, slot: nat): ZsPage
    requires Valid(p) && slot < |p.lengths|
  {
    p.(lengths := p.lengths[slot := 0],
       generations := p.generations[slot := Next(p.generations[slot])],
       freeList := p.freeList + [slot],
       used := SaturatingSub(p.used, 1))
  }

  lemma AllocatedValid(p: ZsPage, bytes: seq<byte>)
    requires Valid(p) && |bytes| <= p.slotSize && p.freeList != []
    ensures Valid(Allocated(p, bytes))
  {
    hide Next, Offset;
    var slot := p.freeList[|p.freeList| - 1];
    SlotInside(p, slot);
    var p' := Allocated(p, bytes);
    assert |p'.storage| == |p.storage|;
    assert forall k :: 0 <= k < |p'.freeList| ==> p'.freeList[k] == p.freeList[k] != slot;
  }

  /** The byte ranges of two slots do not meet. */
  lemma SlotsDisjoint(p: ZsPage, a: nat, b: nat)
    requires Valid(p) && a < |p.lengths| && b < |p.lengths| && a != b
    ensures Offset(p.slotSize, a) + p.slotSize <= Offset(p.slotSize, b)
            || Offset(p.slotSize, b) + p.slotSize <= Offset(p.slotSize, a)
  {
    if a < b { MulOrder(a, b, p.slotSize); } else { MulOrder(b, a, p.slotSize); }
  }

  lemma AllocatedSame(p: ZsPage, bytes: seq<byte>, g: Generation)
    requires Valid(p) && |bytes| <= p.slotSize && p.freeList != []
    ensures var slot := p.freeList[|p.freeList| - 1];
            Read(Allocated(p, bytes), slot, g) ==
            if g == Next(p.generations[slot]) && bytes != [] then Some(bytes) else None
  {
    hide Next, Offset;
    var slot := p.freeList[|p.freeList| - 1];
    SlotInside(p, slot);
    var at := Offset(p.slotSize, slot);
    assert (p.storage[..at] + bytes + p.storage[at + |bytes|..])[at..at + |bytes|] == bytes;
  }

  lemma KeptRange(s: seq<byte>, at: nat, bytes: seq<byte>, from: nat, to: nat)
    requires at + |bytes| <= |s| && from <= to <= |s| && (to <= at || at + |bytes| <= from)
    ensures (s[..at] + bytes + s[at + |bytes|..])[from..to] == s[from..to]
  {
  }

  lemma AllocatedOther(p: ZsPage, bytes: seq<byte>, s: nat, g: Generation)
    requires Valid(p) && |bytes| <= p.slotSize && p.freeList != [] && s != p.freeList[|p.freeList| - 1]
    ensures Read(Allocated(p, bytes), s, g) == Read(p, s, g)
  {
    hide Next, Offset;
    var slot := p.freeList[|p.freeList| - 1];
    SlotInside(p, slot);
    if s < |p.lengths| {
      SlotInside(p, s);
      SlotsDisjoint(p, s, slot);
      KeptRange(p.storage, Offset(p.slotSize, slot), bytes, Offset(p.slotSize, s),
          Offset(p.slotSize, s) + p.lengths[s]);
    }
  }

  /** Allocation adds exactly one readable handle, and no other slot's bytes change. */
  lemma AllocatedReads(p: ZsPage, bytes: seq<byte>, s: nat, g: Generation)
    requires Valid(p) && |bytes| <= p.slotSize && p.freeList != []
    ensures var slot := p.freeList[|p.freeList| - 1];
            && Read(p, slot, g) == None
            && Read(Allocated(p, bytes), s, g) ==
               if s == slot then (if g == Next(p.generations[slot]) && bytes != [] then Some(bytes) else None)
               else Read(p, s, g)
  {
    hide Next, Allocated;
    var slot := p.freeList[|p.freeList| - 1];
    if s == slot { AllocatedSame(p, bytes, g); } else { AllocatedOther(p, bytes, s, g); }
  }

  lemma FreedValid(p: ZsPage, slot: nat, g: Generation)
    requires Valid(p) && Live(p, slot, g)
    ensures Valid(Freed(p, slot))
  {
    assert forall k :: 0 <= k < |p.freeList| ==> p.freeList[k] != slot;
    FreeListSmall(p, slot);
  }

  lemma {:induction false} Pigeonhole(q: seq<nat>, n: nat)
    requires forall k :: 0 <= k < |q| ==> q[k] < n
    requires forall j, k :: 0 <= j < k < |q| ==> q[j] != q[k]
    ensures |q| <= n
  {
    assert q == [] || q[0] < n;
    if n > 0 {
      if k :| 0 <= k < |q| && q[k] == n - 1 {
        Pigeonhole(q[..k] + q[k + 1..], n - 1);
      } else {
        Pigeonhole(q, n - 1);
      }
    }
  }

  /** A live slot is missing from the free list, so some slot is in use. */
  lemma FreeListSmall(p: ZsPage, slot: nat)
    requires Valid(p) && slot < |p.lengths| && p.lengths[slot] != 0
    ensures |p.freeList| < |p.lengths|
  {
    Pigeonhole(p.freeList + [slot], |p.lengths|);
  }

  /** Freeing removes exactly the one handle. */
  lemma FreedReads(p: ZsPage, slot: nat, g0: Generation, s: nat, g: Generation)
    requires Valid(p) && Live(p, slot, g0)
    ensures Read(Freed(p, slot), s, g) == if s == slot then None else Read(p, s, g)
  {
  }

  lemma AllocatedTaken(p: ZsPage, bytes: seq<byte>, s: nat, g: Generation)
    requires Valid(p) && |bytes| <= p.slotSize && p.freeList != []
    ensures var slot := p.freeList[|p.freeList| - 1];
            && !Taken(p, slot, g)
            && (Taken(Allocated(p, bytes), s, g) <==> (s == slot && g == Next(p.generations[slot])) || Taken(p, s, g))
  {
    hide Next, Offset;
    var slot := p.freeList[|p.freeList| - 1];
    SlotInside(p, slot);
    assert p.freeList == p.freeList[..|p.freeList| - 1] + [slot];
  }

  lemma FreedTaken(p: ZsPage, slot: nat, g0: Generation, s: nat, g: Generation)
    requires Valid(p) && Live(p, slot, g0)
    ensures Taken(Freed(p, slot), s, g) <==> (s != slot || g != g0) && Taken(p, s, g)
  {
    hide Next, Offset;
  }

  /** What the generation history of a slot sees of a page. */
  function SlotOf(p: ZsPage, s: nat): Slot
    requires s < |p.lengths| == |p.generations|
  {
    Slot(p.generations[s], p.lengths[s])
  }

  /** Storing a non-empty payload is one step in the history of its slot, and none in any other. */
  lemma AllocatedStep(p: ZsPage, bytes: seq<byte>, s: nat)
    requires Valid(p) && 0 < |bytes| <= p.slotSize && p.freeList != [] && s < |p.lengths|
    ensures var p' := Allocated(p, bytes);
            if s == p.freeList[|p.freeList| - 1] then SlotStep(SlotOf(p, s), SlotOf(p', s))
            else SlotOf(p', s) == SlotOf(p, s)
  {
    hide Next, Offset;
    SlotInside(p, p.freeList[|p.freeList| - 1]);
  }

  /** So is freeing it. */
  lemma FreedStep(p: ZsPage, slot: nat, g: Generation, s: nat)
    requires Valid(p) && Live(p, slot, g) && s < |p.lengths|
    ensures var p' := Freed(p, slot);
            if s == slot then SlotStep(SlotOf(p, s), SlotOf(p', s)) else SlotOf(p', s) == SlotOf(p, s)
  {
    hide Next, Offset;
  }

  // ----- stale handles over any run of a page ------------------------------------------------------

  datatype PageOp = Store(bytes: seq<byte>) | Release(slot: nat, g: Generation)

  ghost predicate PageStep(p: ZsPage, op: PageOp, p': ZsPage) {
    && Valid(p)
    && match op
       case Store(bytes) => |bytes| <= p.slotSize && p.freeList != [] && p' == Allocated(p, bytes)
       case Release(slot, g) => Live(p, slot, g) && p' == Freed(p, slot)
  }

  ghost predicate PageRun(ps: seq<ZsPage>, ops: seq<PageOp>) {
    && |ps| == |ops| + 1 && Valid(ps[0])
    && forall k :: 0 <= k < |ops| ==> PageStep(ps[k], ops[k], ps[k + 1])
  }

  /** The operation allocates or frees slot `s`. */
  predicate Touches(p: ZsPage, op: PageOp, s: nat) {
    match op
    case Store(_) => p.freeList != [] && p.freeList[|p.freeList| - 1] == s
    case Release(slot, _) => slot == s
  }

  /** How many of the first `n` operations touch slot `s`. */
  ghost function Steps(ps: seq<ZsPage>, ops: seq<PageOp>, n: nat, s: nat): nat
    requires n <= |ops| < |ps|
  {
    if n == 0 then 0 else Steps(ps, ops, n - 1, s) + (if Touches(ps[n - 1], ops[n - 1], s) then 1 else 0)
  }

  /** One of the first `n` operations stores nothing in slot `s`. */
  ghost predicate StoredEmpty(ps: seq<ZsPage>, ops: seq<PageOp>, n: nat, s: nat)
    requires n <= |ops| < |ps|
  {
    exists k :: 0 <= k < n && Touches(ps[k], ops[k], s) && ops[k] == Store([])
  }

  /** A slot that holds nothing but is not on the free list is never used again. */
  ghost predicate Lost(p: ZsPage, s: nat) {
    s < |p.lengths| && p.lengths[s] == 0 && s !in p.freeList
  }

  lemma StepValid(p: ZsPage, op: PageOp, p': ZsPage)
    requires PageStep(p, op, p')
    ensures Valid(p') && |p'.lengths| == |p'.generations| == |p.lengths|
  {
    match op
    case Store(bytes) => AllocatedValid(p, bytes);
    case Release(slot, g) => FreedValid(p, slot, g);
  }

  lemma StepLost(p: ZsPage, op: PageOp, p': ZsPage, s: nat)
    requires PageStep(p, op, p') && s < |p.lengths|
    requires Lost(p, s) || (Touches(p, op, s) && op == Store([]))
    ensures Lost(p', s)
  {
    hide Next, Offset;
    if op.Store? { SlotInside(p, p.freeList[|p.freeList| - 1]); }
  }

  lemma StepSlot(p: ZsPage, op: PageOp, p': ZsPage, s: nat)
    requires PageStep(p, op, p') && s < |p.lengths| && !(Touches(p, op, s) && op == Store([]))
    ensures |p'.lengths| == |p'.generations| == |p.lengths|
    ensures if Touches(p, op, s) then SlotStep(SlotOf(p, s), SlotOf(p', s)) else SlotOf(p', s) == SlotOf(p, s)
  {
    hide Next, Offset, Allocated, Freed;
    StepValid(p, op, p');
    match op
    case Store(bytes) => if bytes != [] { AllocatedStep(p, bytes, s); } else { AllocatedElsewhere(p, s); }
    case Release(slot, g) => FreedStep(p, slot, g, s);
  }

  lemma AllocatedElsewhere(p: ZsPage, s: nat)
    requires Valid(p) && p.freeList != [] && s < |p.lengths| && s != p.freeList[|p.freeList| - 1]
    ensures SlotOf(Allocated(p, []), s) == SlotOf(p, s)
  {
    hide Next, Offset;
    SlotInside(p, p.freeList[|p.freeList| - 1]);
  }

  lemma {:induction false} SlotAfter(ps: seq<ZsPage>, ops: seq<PageOp>, n: nat, s: nat, g: Generation)
    requires PageRun(ps, ops) && n <= |ops| && g != 0 && Live(ps[0], s, g)
    ensures Valid(ps[n]) && s < |ps[n].lengths| == |ps[n].generations|
    ensures StoredEmpty(ps, ops, n, s) ==> Lost(ps[n], s)
    ensures !StoredEmpty(ps, ops, n, s) ==> AtStep(SlotOf(ps[n], s), g, Steps(ps, ops, n, s))
  {
    hide Valid, PageStep, Touches, AtStep, Lost, SlotOf;
    if n == 0 {
      LiveSlot(ps[0], s, g);
      FirstStep(SlotOf(ps[0], s), g);
    } else {
      SlotAfter(ps, ops, n - 1, s, g);
      assert PageStep(ps[n - 1], ops[n - 1], ps[n - 1 + 1]);
      StepValid(ps[n - 1], ops[n - 1], ps[n]);
      if StoredEmpty(ps, ops, n, s) {
        StepLost(ps[n - 1], ops[n - 1], ps[n], s);
      } else {
        assert !StoredEmpty(ps, ops, n - 1, s);
        StepSlot(ps[n - 1], ops[n - 1], ps[n], s);
        if Touches(ps[n - 1], ops[n - 1], s) {
          NextStep(SlotOf(ps[n - 1], s), SlotOf(ps[n], s), g, Steps(ps, ops, n - 1, s));
        }
      }
    }
  }

  lemma LiveSlot(p: ZsPage, s: nat, g: Generation)
    requires Valid(p) && Live(p, s, g)
    ensures s < |p.lengths| == |p.generations| && Accepts(SlotOf(p, s), g)
  {
  }

  /**
   THE EXACT WINDOW: over any run of allocations and frees on a page, a handle issued before it is accepted
   after it if and only if its slot has been touched a multiple of 2 * (2^32 - 1) times, and never with an
   empty payload.  So a freed handle is rejected until its slot has made that many steps.
   */
  lemma StaleWindow(ps: seq<ZsPage>, ops: seq<PageOp>, s: nat, g: Generation)
    requires PageRun(ps, ops) && g != 0 && Live(ps[0], s, g)
    ensures Valid(ps[|ops|])
    ensures Live(ps[|ops|], s, g)
            <==> Steps(ps, ops, |ops|, s) % (2 * PERIOD) == 0 && !StoredEmpty(ps, ops, |ops|, s)
  {
    hide PageStep, Touches, AtStep;
    var n := |ops|;
    SlotAfter(ps, ops, n, s, g);
    if !StoredEmpty(ps, ops, n, s) { AcceptedAt(SlotOf(ps[n], s), g, Steps(ps, ops, n, s)); }
  }

  lemma {:induction false} StepsKept(
      ps: seq<ZsPage>, ops: seq<PageOp>, p: ZsPage, op: PageOp, n: nat, s: nat)
    requires |ps| == |ops| + 1 && n <= |ops|
    ensures Steps(ps + [p], ops + [op], n, s) == Steps(ps, ops, n, s)
    ensures StoredEmpty(ps + [p], ops + [op], n, s) <==> StoredEmpty(ps, ops, n, s)
  {
    hide Touches;
    if n > 0 { StepsKept(ps, ops, p, op, n - 1, s); }
    var ps', ops' := ps + [p], ops + [op];
    assert forall k :: 0 <= k < n ==> ps'[k] == ps[k] && ops'[k] == ops[k];
  }

  /** A run is extended by one operation. */
  lemma RunMore(ps: seq<ZsPage>, ops: seq<PageOp>, op: PageOp, p: ZsPage, s: nat)
    requires PageRun(ps, ops) && PageStep(ps[|ops|], op, p)
    ensures PageRun(ps + [p], ops + [op])
    ensures Steps(ps + [p], ops + [op], |ops| + 1, s)
            == Steps(ps, ops, |ops|, s) + (if Touches(ps[|ops|], op, s) then 1 else 0)
    ensures StoredEmpty(ps + [p], ops + [op], |ops| + 1, s)
            <==> StoredEmpty(ps, ops, |ops|, s) || (Touches(ps[|ops|], op, s) && op == Store([]))
  {
    hide PageStep, Touches, Valid;
    var n, ps', ops' := |ops|, ps + [p], ops + [op];
    forall k | 0 <= k < |ops'| ensures PageStep(ps'[k], ops'[k], ps'[k + 1]) {
      if k < n { assert ps'[k + 1] == ps[k + 1]; }
    }
    StepsKept(ps, ops, p, op, n, s);
    assert ps'[n] == ps[n] && ops'[n] == op;
    assert StoredEmpty(ps', ops', n, s) ==> StoredEmpty(ps', ops', n + 1, s);
  }

  /** Freeing a slot and storing again takes the same slot. */
  lemma FreeThenStore(p: ZsPage, s: nat, g: Generation, bytes: seq<byte>)
    requires Valid(p) && Live(p, s, g) && 0 < |bytes| <= p.slotSize
    ensures Valid(Freed(p, s)) && Freed(p, s).freeList != [] && Freed(p, s).slotSize == p.slotSize
    ensures var freed := Freed(p, s);
            && PageStep(p, Release(s, g), freed) && PageStep(freed, Store(bytes), Allocated(freed, bytes))
            && Touches(p, Release(s, g), s) && Touches(freed, Store(bytes), s)
    ensures var q := Allocated(Freed(p, s), bytes);
            && Valid(q) && s < |q.lengths| == |q.generations| && q.slotSize == p.slotSize
            && Live(q, s, q.generations[s]) && Read(q, s, q.generations[s]) == Some(bytes)
  {
    hide Next, Offset;
    FreedValid(p, s, g);
    var freed := Freed(p, s);
    AllocatedValid(freed, bytes);
    AllocatedSame(freed, bytes, Next(freed.generations[s]));
  }

  /** A slot freed and stored again `n` times. */
  lemma {:induction false} Recycled(p: ZsPage, s: nat, g: Generation, bytes: seq<byte>, n: nat)
    returns (ps: seq<ZsPage>, ops: seq<PageOp>)
    requires Valid(p) && Live(p, s, g) && 0 < |bytes| <= p.slotSize
    ensures PageRun(ps, ops) && ps[0] == p && |ops| == 2 * n && (n > 0 ==> ops[0] == Release(s, g))
    ensures Steps(ps, ops, 2 * n, s) == 2 * n && !StoredEmpty(ps, ops, 2 * n, s)
    ensures var q := ps[2 * n];
            && Valid(q) && s < |q.lengths| == |q.generations| && q.slotSize == p.slotSize
            && Live(q, s, q.generations[s]) && (n > 0 ==> Read(q, s, q.generations[s]) == Some(bytes))
  {
    hide Valid, PageStep, Touches, Read, Allocated, Freed;
    if n == 0 {
      ps, ops := [p], [];
      LiveSlot(p, s, g);
    } else {
      ps, ops := Recycled(p, s, g, bytes, n - 1);
      var q := ps[|ops|];
      var h := q.generations[s];
      FreeThenStore(q, s, h, bytes);
      LiveSlot(p, s, g);
      var free, store := Release(s, if n == 1 then g else h), Store(bytes);
      assert n == 1 ==> h == g;
      RunMore(ps, ops, free, Freed(q, s), s);
      ps, ops := ps + [Freed(q, s)], ops + [free];
      RunMore(ps, ops, store, Allocated(Freed(q, s), bytes), s);
      ps, ops := ps + [Allocated(Freed(q, s), bytes)], ops + [store];
    }
  }

  /** WITNESS: 2^32 - 1 rounds after it was freed, a handle is accepted again, and reads what others stored. */
  lemma StaleHandleAccepted(p: ZsPage, s: nat, g: Generation, bytes: seq<byte>)
    returns (ps: seq<ZsPage>, ops: seq<PageOp>)
    requires Valid(p) && Live(p, s, g) && g != 0 && 0 < |bytes| <= p.slotSize
    ensures PageRun(ps, ops) && ps[0] == p && |ops| == 2 * PERIOD && ops[0] == Release(s, g)
    ensures Valid(ps[|ops|]) && Live(ps[|ops|], s, g) && Read(ps[|ops|], s, g) == Some(bytes)
  {
    hide PageStep, Touches, Read, Valid, Steps, StoredEmpty;
    ps, ops := Recycled(p, s, g, bytes, PERIOD);
    StaleWindow(ps, ops, s, g);
    LiveSlot(ps[|ops|], s, g);
  }

  // ----- byte counts ---------------------------------------------------------------------------

  function SumLengths(ls: seq<nat>): nat {
    if ls == [] then 0 else SumLengths(ls[..|ls| - 1]) + ls[|ls| - 1]
  }

  lemma {:induction false} SumLengthsUpdate(ls: seq<nat>, i: nat, v: nat)
    requires i < |ls|
    ensures SumLengths(ls[i := v]) == SumLengths(ls) - ls[i] + v
  {
    var n := |ls| - 1;
    if i == n {
      assert ls[i := v][..n] == ls[..n];
    } else {
      assert ls[i := v][..n] == ls[..n][i := v];
      SumLengthsUpdate(ls[..n], i, v);
    }
  }

  lemma {:induction false} SumLengthsZero(ls: seq<nat>)
    requires forall i :: 0 <= i < |ls| ==> ls[i] == 0
    ensures SumLengths(ls) == 0
  {
    if ls != [] { SumLengthsZero(ls[..|ls| - 1]); }
  }

  /** `used_bytes`. */
  function UsedBytes(p: ZsPage): nat {
    SumLengths(p.lengths)
  }
}
