/** How long a class, and a task within its class, can be made to wait. */
module SchedulerFairness {
  import opened Common
  import opened SchedulerState
  import opened SchedulerInvariant
  import opened SchedulerSteps

  // ----- classes --------------------------------------------------------------------------------

  function OthersDeficit(rq: RunQueue, c: ClassId): int
    requires ShapedQueue(rq)
  {
    rq.deficits[0] + rq.deficits[1] + rq.deficits[2] + rq.deficits[3] - rq.deficits[c]
  }

  /** An upper bound on the picks of other classes before class `c` is picked. */
  function ClassWait(rq: RunQueue, c: ClassId): int
    requires ShapedQueue(rq)
  {
    if rq.deficits[c] > 0 then Distance(rq.cursor, c) else OthersDeficit(rq, c) + 3
  }

  lemma ClassWaitBound(rq: RunQueue, c: ClassId)
    requires QueueBasics(rq)
    ensures 0 <= ClassWait(rq, c) <= 16 - ClassQuantum(c)
  {
    assert 0 <= rq.deficits[0] <= ClassQuantum(0);
    assert 0 <= rq.deficits[1] <= ClassQuantum(1);
    assert 0 <= rq.deficits[2] <= ClassQuantum(2);
    assert 0 <= rq.deficits[3] <= ClassQuantum(3);
  }

  /** The class deficits and the cursor after class `d` is picked. */
  function AfterPick(rq: RunQueue, d: ClassId): RunQueue
    requires ShapedQueue(rq)
  {
    rq.(cursor := (d + 1) % NUM_CLASSES, deficits := rq.deficits[d := rq.deficits[d] - 1])
  }

  lemma WaitOnPick(rq: RunQueue, c: ClassId, d: ClassId)
    requires QueueBasics(rq) && c != d && rq.deficits[d] > 0
    requires rq.deficits[c] > 0 ==> Distance(rq.cursor, d) <= Distance(rq.cursor, c)
    ensures ClassWait(AfterPick(rq, d), c) < ClassWait(rq, c)
  {
  }

  /** Every pick of another class brings a waiting class strictly nearer. */
  lemma WaitDecreases(rq: RunQueue, c: ClassId, d: ClassId)
    requires QueueBasics(rq) && rq.queues[c] != [] && PickClass(rq) == Some(d) && c != d
    ensures ClassWait(AfterPick(PickQueue(rq), d), c) < ClassWait(rq, c)
  {
    hide FirstPickable;
    var rq' := PickQueue(rq);
    PickQueueBasics(rq);
    PickedClassIs(rq');
    PickedClassIs(rq);
    if rq'.deficits[c] > 0 { assert Pickable(rq', c); }
    WaitOnPick(rq', c, d);
    if FirstPickable(rq, 0).None? {
      ClassRefillExact(rq, c);
      ClassRefillExact(rq, d);
      assert rq'.deficits[c] > 0;
      NoNegativeOthers(rq, c);
    }
  }

  lemma NoNegativeOthers(rq: RunQueue, c: ClassId)
    requires QueueBasics(rq)
    ensures OthersDeficit(rq, c) >= 0
  {
    assert 0 <= rq.deficits[0] && 0 <= rq.deficits[1] && 0 <= rq.deficits[2] && 0 <= rq.deficits[3];
  }

  /** The class a step picks on `cpu`, if any. */
  ghost function PickedClass(s: Sched, op: Op, cpu: nat): Option<ClassId>
    requires Shaped(s) && Enabled(s, op)
  {
    match PickState(s, op, cpu)
    case None => None
    case Some(p) => if cpu < |p.cpus| && ShapedQueue(p.cpus[cpu]) then PickClass(p.cpus[cpu]) else None
  }

  ghost predicate SameSchedule(a: RunQueue, b: RunQueue) {
    a.cursor == b.cursor && a.deficits == b.deficits
  }

  /** `b` is `a` with perhaps another current task and tasks added at the back of queues. */
  ghost predicate Extends(a: RunQueue, b: RunQueue) {
    && SameSchedule(a, b) && |a.queues| == |b.queues| == NUM_CLASSES
    && forall c :: 0 <= c < NUM_CLASSES ==> a.queues[c] <= b.queues[c]
  }

  lemma AccountExtends(s: Sched, k: nat, cpu: nat)
    requires Inv(s) && Shaped(s) && k < |s.cpus| && s.cpus[k].current.Some? && cpu < |s.cpus|
    ensures |Account(s, k).cpus| == |s.cpus| && Extends(s.cpus[cpu], Account(s, k).cpus[cpu])
  {
    hide Inv, Charged, Enqueue;
    var id := s.cpus[k].current.value;
    CurrentState(s, k);
    NotFlagged(s, id);
    AccountIs(s, k);
    var s1 := SetTask(SetCpu(s, k, s.cpus[k].(current := None)), id, Charged(s.tasks[id]));
    EnqueueFrame(s1, id);
    assert OnlyGrows(s1.cpus[cpu], Enqueue(s1, id).cpus[cpu]);
    assert ShapedQueue(s.cpus[cpu]);
  }

  /** Up to the pick, a step only adds tasks at the back of a CPU's queues. */
  lemma PickStateExtends(s: Sched, op: Op, cpu: nat)
    requires Inv(s) && Shaped(s) && Enabled(s, op) && cpu < |s.cpus|
    ensures PickState(s, op, OpCpu(op)).Some? ==>
              var p := PickState(s, op, OpCpu(op)).value;
              |p.cpus| == |s.cpus| && Extends(s.cpus[cpu], p.cpus[cpu])
  {
    hide Inv, Charged, Account;
    assert ShapedQueue(s.cpus[cpu]);
    match op
    case Tick(k) =>
      var s1 := s.(tick := (s.tick + 1) % (U64_MAX + 1));
      SameButCounters(s, s1);
      InvShaped(s1, {});
      if s.cpus[k].current.Some? { AccountExtends(s1, k, cpu); }
    case Exit(k) =>
    case Start =>
    case _ =>
  }

  /** A pick on one CPU leaves the others alone. */
  lemma PickElsewhere(s: Sched, k: nat, previous: Option<TaskId>, cpu: nat)
    requires k < |s.cpus| && ShapedQueue(s.cpus[k]) && KnownQueues(s, k) && cpu < |s.cpus|
    ensures |PickNext(s, k, previous).cpus| == |s.cpus|
    ensures k != cpu ==> PickNext(s, k, previous).cpus[cpu] == s.cpus[cpu]
  {
    hide FirstPickable, PickIndex, PickTasks, PickQueue;
  }

  lemma QuietExtends(s: Sched, op: Op, s': Sched, cpu: nat)
    requires Inv(s) && Step(s, op, s') && cpu < |s.cpus| && (op.Topology? ==> s' == s)
    requires PickState(s, op, OpCpu(op)).None?
    ensures |s'.cpus| == |s.cpus| && Extends(s.cpus[cpu], s'.cpus[cpu])
  {
    hide Inv, AddTask, WakeTask, NewTask;
    assert ShapedQueue(s.cpus[cpu]);
    match op
    case Add(id, hint, nice, preferred, k) =>
      AddFrame(s, id, NewTask(hint, nice, preferred), k);
      assert OnlyGrows(s.cpus[cpu], s'.cpus[cpu]);
    case Wake(id) =>
      WakeFrame(s, id);
      assert OnlyGrows(s.cpus[cpu], s'.cpus[cpu]);
    case _ =>
  }

  /** Nothing but a pick on a CPU touches its class deficits and cursor, or empties a queue. */
  lemma OnlyPicksSchedule(s: Sched, op: Op, s': Sched, cpu: nat)
    requires Inv(s) && Step(s, op, s') && cpu < |s.cpus| && (op.Topology? ==> s' == s)
    ensures |s'.cpus| == |s.cpus|
    ensures PickState(s, op, cpu).None? ==> Extends(s.cpus[cpu], s'.cpus[cpu])
    ensures PickState(s, op, cpu).Some? ==>
              var p := PickState(s, op, cpu).value;
              |p.cpus| == |s.cpus| && Extends(s.cpus[cpu], p.cpus[cpu])
  {
    hide Inv, PickNext, BeforePick, Retire, Extends, AddTask, WakeTask, Configure;
    var k := OpCpu(op);
    if PickState(s, op, k).Some? {
      PickStateExtends(s, op, cpu);
      PickElsewhere(PickState(s, op, k).value, k, Previous(s, op), cpu);
    } else {
      QuietExtends(s, op, s', cpu);
    }
  }

  /** The pick itself: class deficits and cursor become those of `AfterPick`. */
  lemma PickSchedule(s: Sched, cpu: nat, previous: Option<TaskId>)
    requires Inv(s) && Finite(s) && cpu < |s.cpus|
    ensures ShapedQueue(s.cpus[cpu]) && KnownQueues(s, cpu)
    ensures var s' := PickNext(s, cpu, previous);
            match PickClass(s.cpus[cpu])
            case None => SameSchedule(s'.cpus[cpu], s.cpus[cpu])
            case Some(d) => SameSchedule(s'.cpus[cpu], AfterPick(PickQueue(s.cpus[cpu]), d))
  {
    hide Inv, Finite, FirstPickable, PickIndex, PickQueue, PickNext;
    PickNextIs(s, cpu, previous);
  }

  /** One step of the waiting argument. */
  lemma ClassStep(s: Sched, op: Op, s': Sched, cpu: nat, c: ClassId, bound: nat)
    requires Inv(s) && VruntimeAtMost(s, bound) && bound + Charge(op) < U64_MAX && Step(s, op, s')
    requires cpu < |s.cpus| && ShapedQueue(s.cpus[cpu]) && s.cpus[cpu].queues[c] != []
    requires PickedClass(s, op, cpu) != Some(c)
    ensures cpu < |s'.cpus| && ShapedQueue(s'.cpus[cpu])
    ensures ClassWait(s'.cpus[cpu], c) + (if PickedClass(s, op, cpu).Some? then 1 else 0) <= ClassWait(s.cpus[cpu], c)
  {
    hide Inv, Enabled, PickClass, PickNext, AfterPick, PickState;
    StepInv(s, op, s', bound);
    NoTopology(s, op, s', cpu, c);
    OnlyPicksSchedule(s, op, s', cpu);
    InvQueueBasics(s', cpu);
    var p := PickState(s, op, cpu);
    if p.Some? {
      StepPick(s, op, s', cpu);
      PickStateOk(s, op, bound);
      assert Finite(p.value);
      PickSchedule(p.value, cpu, Previous(s, op));
      InvQueueBasics(p.value, cpu);
      assert s.cpus[cpu].queues[c] <= p.value.cpus[cpu].queues[c];
      match PickClass(p.value.cpus[cpu])
      case None =>
      case Some(d) =>
        WaitDecreases(p.value.cpus[cpu], c, d);
        PickQueueBasics(p.value.cpus[cpu]);
        AfterPickShape(PickQueue(p.value.cpus[cpu]), d);
        SameWait(s'.cpus[cpu], AfterPick(PickQueue(p.value.cpus[cpu]), d), c);
        SameWait(p.value.cpus[cpu], s.cpus[cpu], c);
    }
  }

  lemma AfterPickShape(rq: RunQueue, d: ClassId)
    requires ShapedQueue(rq)
    ensures ShapedQueue(AfterPick(rq, d))
  {
  }

  lemma SameWait(a: RunQueue, b: RunQueue, c: ClassId)
    requires SameSchedule(a, b) && ShapedQueue(a) && |b.queues| == NUM_CLASSES
    ensures ShapedQueue(b) && ClassWait(a, c) == ClassWait(b, c)
  {
  }

  lemma NoTopology(s: Sched, op: Op, s': Sched, cpu: nat, c: ClassId)
    requires Inv(s) && Step(s, op, s') && cpu < |s.cpus| && ShapedQueue(s.cpus[cpu]) && s.cpus[cpu].queues[c] != []
    ensures op.Topology? ==> s' == s
  {
    assert QueueContents(s, cpu, c) && QueuedHere(s, cpu, c, s.cpus[cpu].queues[c][0]);
  }

  lemma StepPick(s: Sched, op: Op, s': Sched, cpu: nat)
    requires Step(s, op, s') && PickState(s, op, cpu).Some?
    ensures OpCpu(op) == cpu
    ensures var p := PickState(s, op, cpu).value;
            cpu < |p.cpus| && ShapedQueue(p.cpus[cpu]) && KnownQueues(p, cpu) && s' == PickNext(p, cpu, Previous(s, op))
  {
  }

  // ----- along a run ------------------------------------------------------------------------------

  lemma {:induction false} ChargePrefix(ops: seq<Op>, k: nat)
    requires k <= |ops|
    ensures TotalCharge(ops[..k]) <= TotalCharge(ops)
    ensures k < |ops| ==> TotalCharge(ops[..k]) + Charge(ops[k]) <= TotalCharge(ops)
    decreases |ops|
  {
    if k < |ops| {
      var init := ops[..|ops| - 1];
      ChargePrefix(init, k);
      assert init[..k] == ops[..k];
    } else {
      assert ops[..k] == ops;
    }
  }

  /** Any moment of a run is a state of the invariant from which the next step may be taken. */
  lemma RunAt(ss: seq<Sched>, ops: seq<Op>, k: nat)
    requires Run(ss, ops) && TotalCharge(ops) < U64_MAX && k < |ops|
    ensures Inv(ss[k]) && VruntimeAtMost(ss[k], TotalCharge(ops[..k]))
    ensures TotalCharge(ops[..k]) + Charge(ops[k]) < U64_MAX
    ensures Step(ss[k], ops[k], ss[k + 1])
  {
    hide Inv, Step;
    ChargePrefix(ops, k);
    var ss', ops' := ss[..k + 1], ops[..k];
    assert Run(ss', ops') by {
      forall j | 0 <= j < |ops'| ensures Step(ss'[j], ops'[j], ss'[j + 1]) { assert Step(ss[j], ops[j], ss[j + 1]); }
    }
    RunInv(ss', ops');
    assert ss'[k] == ss[k];
  }

  /** Class `c` has a Ready task queued on `cpu`. */
  ghost predicate Waiting(s: Sched, cpu: nat, c: ClassId) {
    cpu < |s.cpus| && ShapedQueue(s.cpus[cpu]) && s.cpus[cpu].queues[c] != []
  }

  ghost predicate Picks(s: Sched, op: Op, cpu: nat, c: ClassId) {
    Shaped(s) && Enabled(s, op) && PickedClass(s, op, cpu) == Some(c)
  }

  ghost predicate PicksAny(s: Sched, op: Op, cpu: nat) {
    Shaped(s) && Enabled(s, op) && PickedClass(s, op, cpu).Some?
  }

  /** The number of picks on `cpu` in steps `i` to `j`. */
  ghost function PickCount(ss: seq<Sched>, ops: seq<Op>, cpu: nat, i: nat, j: nat): nat
    requires i <= j <= |ops| < |ss|
  {
    if i == j then 0 else PickCount(ss, ops, cpu, i, j - 1) + (if PicksAny(ss[j - 1], ops[j - 1], cpu) then 1 else 0)
  }

  lemma StepEnabled(s: Sched, op: Op, s': Sched)
    requires Step(s, op, s')
    ensures Shaped(s) && Enabled(s, op)
  {
  }

  lemma {:induction false} WaitAlong(ss: seq<Sched>, ops: seq<Op>, cpu: nat, c: ClassId, i: nat, j: nat)
    requires Run(ss, ops) && TotalCharge(ops) < U64_MAX && i <= j <= |ops|
    requires Waiting(ss[i], cpu, c)
    requires forall k :: i <= k < j ==> Waiting(ss[k], cpu, c) && !Picks(ss[k], ops[k], cpu, c)
    ensures cpu < |ss[j].cpus| && ShapedQueue(ss[j].cpus[cpu])
    ensures PickCount(ss, ops, cpu, i, j) + ClassWait(ss[j].cpus[cpu], c) <= ClassWait(ss[i].cpus[cpu], c)
    decreases j
  {
    hide Inv, PickedClass, ClassWait, Step, Enabled;
    if i < j {
      WaitAlong(ss, ops, cpu, c, i, j - 1);
      RunAt(ss, ops, j - 1);
      assert Waiting(ss[j - 1], cpu, c) && !Picks(ss[j - 1], ops[j - 1], cpu, c);
      StepEnabled(ss[j - 1], ops[j - 1], ss[j]);
      ClassStep(ss[j - 1], ops[j - 1], ss[j], cpu, c, TotalCharge(ops[..j - 1]));
    }
  }

  /**
   BOUNDED WAITING FOR CLASSES: while class `c` always has a Ready task queued on a CPU, at most
   16 - quantum(c) picks on that CPU go to other classes before `c` is picked, whatever is added,
   woken, blocked or exits in between.
   */
  lemma ClassBoundedWaiting(ss: seq<Sched>, ops: seq<Op>, cpu: nat, c: ClassId, i: nat, j: nat)
    requires Run(ss, ops) && TotalCharge(ops) < U64_MAX && i <= j <= |ops|
    requires Waiting(ss[i], cpu, c)
    requires forall k :: i <= k < j ==> Waiting(ss[k], cpu, c) && !Picks(ss[k], ops[k], cpu, c)
    ensures PickCount(ss, ops, cpu, i, j) <= 16 - ClassQuantum(c)
  {
    hide Inv, PickedClass, ClassWait, Step, Enabled;
    WaitAlong(ss, ops, cpu, c, i, j);
    RunInv(ss, ops);
    InvQueueBasics(ss[i], cpu);
    InvQueueBasics(ss[j], cpu);
    ClassWaitBound(ss[i].cpus[cpu], c);
    ClassWaitBound(ss[j].cpus[cpu], c);
  }

  // ----- tasks within a class -----------------------------------------------------------------------

  /** The tasks of class `c` that `cpu` shares its picks among: the queued ones and the running one. */
  ghost function Members(s: Sched, cpu: nat, c: ClassId): set<TaskId>
    requires cpu < |s.cpus| && ShapedQueue(s.cpus[cpu])
  {
    set id | id in s.tasks && (id in s.cpus[cpu].queues[c] || RunsHere(s, cpu, c, id))
  }

  ghost predicate RunsHere(s: Sched, cpu: nat, c: ClassId, id: TaskId)
    requires cpu < |s.cpus|
  {
    id in s.tasks && s.cpus[cpu].current == Some(id) && s.tasks[id].state == Running && s.tasks[id].cls == c
  }

  /**
   How often task `u` can still be picked before task `t`: its deficit, and a quantum more if a refill is due
   to `t`.
   */
  ghost function Share(s: Sched, c: ClassId, t: TaskId, u: TaskId): int
    requires t in s.tasks && u in s.tasks
  {
    s.tasks[u].deficit + (if s.tasks[t].deficit == 0 then TaskQuantum(c, s.tasks[u].nice) else 0)
  }

  ghost function Shares(s: Sched, c: ClassId, t: TaskId): map<TaskId, int>
    requires t in s.tasks
  {
    map u | u in s.tasks :: Share(s, c, t, u)
  }

  ghost function Sum(w: map<TaskId, int>, x: set<TaskId>): int
    requires x <= w.Keys
  {
    if x == {} then 0 else var u :| u in x; w[u] + Sum(w, x - {u})
  }

  lemma {:induction false} SumRemove(w: map<TaskId, int>, x: set<TaskId>, u: TaskId)
    requires x <= w.Keys && u in x
    ensures Sum(w, x) == w[u] + Sum(w, x - {u})
    decreases |x|
  {
    var v :| v in x && Sum(w, x) == w[v] + Sum(w, x - {v});
    if v != u {
      SumRemove(w, x - {v}, u);
      SumRemove(w, x - {u}, v);
      assert x - {v} - {u} == x - {u} - {v};
    }
  }

  lemma {:induction false} SumMonotone(w: map<TaskId, int>, w': map<TaskId, int>, x: set<TaskId>, x': set<TaskId>)
    requires x <= w.Keys && x' <= w'.Keys && x' <= x
    requires forall u :: u in x ==> w[u] >= 0
    requires forall u :: u in x' ==> w'[u] <= w[u]
    ensures Sum(w', x') <= Sum(w, x)
    decreases |x|
  {
    if x != {} {
      var u :| u in x;
      SumRemove(w, x, u);
      if u in x' { SumRemove(w', x', u); }
      SumMonotone(w, w', x - {u}, x' - {u});
      if u !in x' { assert x' - {u} == x'; }
    }
  }

  lemma SumStrict(w: map<TaskId, int>, w': map<TaskId, int>, x: set<TaskId>, x': set<TaskId>, p: TaskId)
    requires x <= w.Keys && x' <= w'.Keys && x' <= x && p in x
    requires forall u :: u in x ==> w[u] >= 0
    requires forall u :: u in x' ==> w'[u] <= w[u]
    requires p in x' ==> w'[p] < w[p]
    requires p !in x' ==> w[p] > 0
    ensures Sum(w', x') < Sum(w, x)
  {
    SumRemove(w, x, p);
    SumMonotone(w, w', x - {p}, x' - {p});
    if p in x' { SumRemove(w', x', p); } else { assert x' - {p} == x'; }
  }

  /** An upper bound on the picks of class `c` on `cpu` that go to other tasks before `t`. */
  ghost function TaskWait(s: Sched, cpu: nat, c: ClassId, t: TaskId): int
    requires cpu < |s.cpus| && ShapedQueue(s.cpus[cpu]) && t in s.tasks
  {
    Sum(Shares(s, c, t), Members(s, cpu, c) - {t})
  }

  /** What never grows along quiet steps: each member's share. */
  ghost predicate SharesShrink(s: Sched, s': Sched, cpu: nat, c: ClassId, t: TaskId)
    requires cpu < |s.cpus| && ShapedQueue(s.cpus[cpu]) && cpu < |s'.cpus| && ShapedQueue(s'.cpus[cpu])
    requires t in s.tasks && t in s'.tasks
  {
    forall u :: u in Members(s', cpu, c) && u in Members(s, cpu, c) && u != t ==>
        Share(s', c, t, u) <= Share(s, c, t, u)
  }

  /** A pick of class `d` takes position `i` of its queue; nothing else moves. */
  lemma PickEffect(s: Sched, cpu: nat, previous: Option<TaskId>, d: ClassId)
    requires Inv(s) && Finite(s) && cpu < |s.cpus| && ShapedQueue(s.cpus[cpu]) && KnownQueues(s, cpu)
    requires PickClass(s.cpus[cpu]) == Some(d)
    ensures var q := s.cpus[cpu].queues[d];
            var r := PickIndex(s.tasks, q, d);
            var tasks := PickTasks(s.tasks, q, d);
            && r.Some? && r.value < |q| && IsBest(tasks, q, r.value)
            && var s', p := PickNext(s, cpu, previous), q[r.value];
               && |s'.cpus| == |s.cpus| && ShapedQueue(s'.cpus[cpu])
               && s'.cpus[cpu].queues == s.cpus[cpu].queues[d := RemoveAt(q, r.value)]
               && s'.cpus[cpu].current == Some(p)
               && s'.tasks == tasks[p := Dispatched(tasks[p], cpu, previous == Some(p))]
  {
    hide Inv, Finite, FirstPickable, Best, PickQueue, PickNext, Dispatched, PickTasks;
    PickNextIs(s, cpu, previous);
  }

  lemma {:induction false} ElementsAfterRemoval(q: seq<TaskId>, i: nat, x: TaskId)
    requires i < |q| && OnceEach(q)
    ensures x in RemoveAt(q, i) <==> x in q && x != q[i]
  {
    var r := RemoveAt(q, i);
    if x in q && x != q[i] {
      var j :| 0 <= j < |q| && q[j] == x;
      assert r[if j < i then j else j - 1] == x;
    }
  }

  /** The queued tasks of class `d` on `cpu` and their class. */
  lemma QueueFacts(s: Sched, cpu: nat, d: ClassId)
    requires Inv(s) && cpu < |s.cpus| && ShapedQueue(s.cpus[cpu])
    ensures OnceEach(s.cpus[cpu].queues[d])
    ensures forall x :: x in s.cpus[cpu].queues[d] ==> x in s.tasks && s.tasks[x].cls == d && s.tasks[x].lastCpu == cpu
                                                       && s.tasks[x].state == Ready && s.tasks[x].deficit >= 0
  {
    assert QueueContents(s, cpu, d);
    var q := s.cpus[cpu].queues[d];
    forall x | x in q
      ensures x in s.tasks && s.tasks[x].cls == d && s.tasks[x].lastCpu == cpu && s.tasks[x].state == Ready
      ensures s.tasks[x].deficit >= 0
    {
      var i :| 0 <= i < |q| && q[i] == x;
      assert QueuedHere(s, cpu, d, q[i]) && TaskBasics(s, s.tasks[x]);
    }
  }

  lemma PickMembers(s: Sched, cpu: nat, previous: Option<TaskId>, c: ClassId, d: ClassId)
    requires Inv(s) && Finite(s) && cpu < |s.cpus| && s.cpus[cpu].current.None? && ShapedQueue(s.cpus[cpu])
    requires KnownQueues(s, cpu)
    requires PickClass(s.cpus[cpu]) == Some(d)
    ensures var s' := PickNext(s, cpu, previous);
            cpu < |s'.cpus| && ShapedQueue(s'.cpus[cpu]) && Members(s', cpu, c) == Members(s, cpu, c)
  {
    hide Inv, Finite, PickClass, PickNext, PickTasks, PickIndex, IsBest;
    var q := s.cpus[cpu].queues[d];
    PickEffect(s, cpu, previous, d);
    QueueFacts(s, cpu, c);
    QueueFacts(s, cpu, d);
    QueueIsReady(s, cpu, d);
    InvDeficits(s);
    PickTasksSamePlace(s.tasks, q, d);
    var i, tasks, s' := PickIndex(s.tasks, q, d).value, PickTasks(s.tasks, q, d), PickNext(s, cpu, previous);
    var p := q[i];
    DispatchedPlace(tasks[p], cpu, previous == Some(p));
    forall x ensures x in Members(s', cpu, c) <==> x in Members(s, cpu, c) {
      ElementsAfterRemoval(q, i, x);
    }
  }

  lemma DispatchedPlace(t: Task, cpu: nat, resumed: bool)
    ensures Dispatched(t, cpu, resumed).state == Running && Dispatched(t, cpu, resumed).cls == t.cls
    ensures Dispatched(t, cpu, resumed).nice == t.nice
    ensures t.deficit > 0 ==> Dispatched(t, cpu, resumed).deficit == t.deficit - 1
  {
  }

  /** A pick of another class leaves the shares alone. */
  lemma PickOtherShares(s: Sched, cpu: nat, previous: Option<TaskId>, c: ClassId, d: ClassId, u: TaskId)
    requires Inv(s) && Finite(s) && cpu < |s.cpus| && ShapedQueue(s.cpus[cpu]) && KnownQueues(s, cpu)
    requires PickClass(s.cpus[cpu]) == Some(d) && c != d && u in s.cpus[cpu].queues[c]
    ensures u in s.tasks && u in PickNext(s, cpu, previous).tasks
    ensures PickNext(s, cpu, previous).tasks[u] == s.tasks[u]
  {
    hide Inv, Finite, PickClass, PickNext, PickTasks, PickIndex, IsBest;
    var q := s.cpus[cpu].queues[d];
    PickEffect(s, cpu, previous, d);
    QueueFacts(s, cpu, c);
    QueueFacts(s, cpu, d);
    QueueIsReady(s, cpu, d);
    InvDeficits(s);
    PickTasksSamePlace(s.tasks, q, d);
    assert u !in q;
  }

  /** A pick of class `c` lowers the picked task's share by one and raises no one's. */
  lemma PickOwnShares(s: Sched, cpu: nat, previous: Option<TaskId>, c: ClassId, t: TaskId, u: TaskId)
    requires Inv(s) && Finite(s) && cpu < |s.cpus| && ShapedQueue(s.cpus[cpu]) && KnownQueues(s, cpu)
    requires PickClass(s.cpus[cpu]) == Some(c) && t in s.cpus[cpu].queues[c] && u in s.cpus[cpu].queues[c]
    requires PickIndex(s.tasks, s.cpus[cpu].queues[c], c).Some?
    requires PickIndex(s.tasks, s.cpus[cpu].queues[c], c).value < |s.cpus[cpu].queues[c]|
    requires s.cpus[cpu].queues[c][PickIndex(s.tasks, s.cpus[cpu].queues[c], c).value] != t
    ensures var s' := PickNext(s, cpu, previous);
            && t in s.tasks && u in s.tasks && t in s'.tasks && u in s'.tasks
            && Share(s', c, t, u) == Share(s, c, t, u)
                 - (if u == s.cpus[cpu].queues[c][PickIndex(s.tasks, s.cpus[cpu].queues[c], c).value] then 1 else 0)
  {
    hide Inv, Finite, PickClass, PickNext, Best, Dispatched, TaskQuantum;
    var q := s.cpus[cpu].queues[c];
    PickEffect(s, cpu, previous, c);
    QueueFacts(s, cpu, c);
    QueueIsReady(s, cpu, c);
    var i, tasks := PickIndex(s.tasks, q, c).value, PickTasks(s.tasks, q, c);
    DispatchedPlace(tasks[q[i]], cpu, previous == Some(q[i]));
    if Best(s.tasks, q).None? {
      TaskRefillExact(s.tasks, q, c, t);
      TaskRefillExact(s.tasks, q, c, u);
      TaskRefillExact(s.tasks, q, c, q[i]);
    }
  }

  /** A picked member uses up one unit of its share. */
  lemma PickShares(s: Sched, cpu: nat, previous: Option<TaskId>, c: ClassId, t: TaskId)
    requires Inv(s) && Finite(s) && cpu < |s.cpus| && s.cpus[cpu].current.None? && ShapedQueue(s.cpus[cpu])
    requires KnownQueues(s, cpu)
    requires t in s.cpus[cpu].queues[c]
    requires var s' := PickNext(s, cpu, previous);
             cpu < |s'.cpus| && ShapedQueue(s'.cpus[cpu]) && t in s'.cpus[cpu].queues[c]
    ensures var s' := PickNext(s, cpu, previous);
            && t in s.tasks && t in s'.tasks
            && Members(s', cpu, c) == Members(s, cpu, c)
            && SharesShrink(s, s', cpu, c, t)
            && (PickClass(s.cpus[cpu]) == Some(c) ==>
                  exists p :: p in Members(s, cpu, c) && p != t && Share(s', c, t, p) < Share(s, c, t, p))
  {
    hide Inv, Finite, PickClass, PickNext, PickIndex, IsBest, Share;
    var s' := PickNext(s, cpu, previous);
    PickNextIs(s, cpu, previous);
    QueueFacts(s, cpu, c);
    match PickClass(s.cpus[cpu])
    case None =>
    case Some(d) =>
      PickMembers(s, cpu, previous, c, d);
      PickEffect(s, cpu, previous, d);
      if c == d {
        var q := s.cpus[cpu].queues[c];
        var i := PickIndex(s.tasks, q, c).value;
        ElementsAfterRemoval(q, i, t);
        forall u | u in Members(s, cpu, c) && u != t ensures Share(s', c, t, u) <= Share(s, c, t, u) {
          PickOwnShares(s, cpu, previous, c, t, u);
        }
        PickOwnShares(s, cpu, previous, c, t, q[i]);
        assert q[i] in Members(s, cpu, c);
      } else {
        PickOtherShares(s, cpu, previous, c, d, t);
        forall u | u in Members(s, cpu, c) ensures Share(s', c, t, u) == Share(s, c, t, u) {
          PickOtherShares(s, cpu, previous, c, d, u);
          SameShare(s, s', c, t, u);
        }
      }
  }

  lemma SameShare(s: Sched, s': Sched, c: ClassId, t: TaskId, u: TaskId)
    requires t in s.tasks && u in s.tasks && t in s'.tasks && u in s'.tasks
    requires s'.tasks[t] == s.tasks[t] && s'.tasks[u] == s.tasks[u]
    ensures Share(s', c, t, u) == Share(s, c, t, u)
  {
  }

  // ----- steps that are not picks of the class ---------------------------------------------------------

  /** No member of the class gains deficit, and `t` keeps its own. */
  ghost predicate Calm(s: Sched, m: Sched, cpu: nat, c: ClassId, t: TaskId)
    requires cpu < |s.cpus| && ShapedQueue(s.cpus[cpu])
  {
    && t in s.tasks && t in m.tasks && m.tasks[t].deficit == s.tasks[t].deficit
    && forall u :: u in Members(s, cpu, c) ==>
         u in m.tasks && m.tasks[u].nice == s.tasks[u].nice && m.tasks[u].deficit <= s.tasks[u].deficit
  }

  lemma CalmShrinks(s: Sched, m: Sched, cpu: nat, c: ClassId, t: TaskId)
    requires cpu < |s.cpus| && ShapedQueue(s.cpus[cpu]) && cpu < |m.cpus| && ShapedQueue(m.cpus[cpu])
    requires Calm(s, m, cpu, c, t)
    ensures SharesShrink(s, m, cpu, c, t)
  {
    hide TaskQuantum;
  }

  /** Two states whose tasks have the same deficits and nice values. */
  ghost predicate SameShares(s: Sched, m: Sched) {
    forall u :: u in s.tasks ==>
        u in m.tasks && m.tasks[u].nice == s.tasks[u].nice && m.tasks[u].deficit == s.tasks[u].deficit
  }

  lemma AccountSameShares(s: Sched, k: nat)
    requires Inv(s) && Shaped(s) && k < |s.cpus| && s.cpus[k].current.Some?
    ensures SameShares(s, Account(s, k))
  {
    hide Inv, Charged, Enqueue;
    var id := s.cpus[k].current.value;
    CurrentState(s, k);
    NotFlagged(s, id);
    ChargedPlace(s.tasks[id]);
    AccountIs(s, k);
    var s1 := SetTask(SetCpu(s, k, s.cpus[k].(current := None)), id, Charged(s.tasks[id]));
    EnqueueFrame(s1, id);
  }

  lemma PickStateSameShares(s: Sched, op: Op, k: nat)
    requires Inv(s) && Shaped(s) && Enabled(s, op) && PickState(s, op, k).Some? && k < |s.cpus|
    ensures SameShares(s, PickState(s, op, k).value)
  {
    hide Inv, Account;
    match op
    case Tick(_) =>
      var s1 := s.(tick := (s.tick + 1) % (U64_MAX + 1));
      SameButCounters(s, s1);
      InvShaped(s1, {});
      if s.cpus[k].current.Some? { AccountSameShares(s1, k); }
    case Exit(_) =>
    case Start =>
  }

  /** Members of a class on one CPU are in no queue of another CPU. */
  lemma MemberNotElsewhere(s: Sched, cpu: nat, c: ClassId, k: nat, d: ClassId, u: TaskId)
    requires Inv(s) && cpu < |s.cpus| && ShapedQueue(s.cpus[cpu]) && k < |s.cpus| && ShapedQueue(s.cpus[k]) && k != cpu
    requires u in Members(s, cpu, c)
    ensures u !in s.cpus[k].queues[d]
  {
    QueueFacts(s, cpu, c);
    QueueFacts(s, k, d);
    if s.cpus[cpu].current == Some(u) { CurrentState(s, cpu); }
  }

  /** A pick on another CPU touches no member. */
  lemma PickElsewhereCalm(s: Sched, k: nat, previous: Option<TaskId>, cpu: nat, c: ClassId, t: TaskId)
    requires Inv(s) && Finite(s) && cpu < |s.cpus| && ShapedQueue(s.cpus[cpu]) && k < |s.cpus| && k != cpu
    requires ShapedQueue(s.cpus[k]) && KnownQueues(s, k) && t in Members(s, cpu, c)
    ensures Calm(s, PickNext(s, k, previous), cpu, c, t)
  {
    hide Inv, Finite, PickClass, PickNext, PickIndex, IsBest, Members, Dispatched, PickTasks;
    PickNextIs(s, k, previous);
    MembersKnown(s, cpu, c);
    if PickClass(s.cpus[k]).Some? {
      var d := PickClass(s.cpus[k]).value;
      var q := s.cpus[k].queues[d];
      PickEffect(s, k, previous, d);
      QueueIsReady(s, k, d);
      InvDeficits(s);
      PickTasksSamePlace(s.tasks, q, d);
      forall u | u in Members(s, cpu, c)
        ensures u in PickNext(s, k, previous).tasks && PickNext(s, k, previous).tasks[u] == s.tasks[u]
      {
        MemberNotElsewhere(s, cpu, c, k, d, u);
      }
    }
  }

  lemma MembersKnown(s: Sched, cpu: nat, c: ClassId)
    requires cpu < |s.cpus| && ShapedQueue(s.cpus[cpu])
    ensures Members(s, cpu, c) <= s.tasks.Keys
  {
  }

  /** Members are Ready or Running. */
  lemma MemberState(s: Sched, cpu: nat, c: ClassId, u: TaskId)
    requires Inv(s) && cpu < |s.cpus| && ShapedQueue(s.cpus[cpu]) && u in Members(s, cpu, c)
    ensures s.tasks[u].state == Ready || s.tasks[u].state == Running
    ensures s.tasks[u].deficit >= 0
  {
    QueueFacts(s, cpu, c);
    InvDeficits(s);
  }

  lemma AddCalm(s: Sched, id: TaskId, f: Task, k: nat, cpu: nat, c: ClassId, t: TaskId)
    requires Inv(s) && Shaped(s) && cpu < |s.cpus| && k < |s.cpus| && id !in s.tasks && t in s.cpus[cpu].queues[c]
    ensures Calm(s, AddTask(s, id, f, k), cpu, c, t)
  {
    hide Inv, AddTask, Members, OnlyGrows;
    QueueFacts(s, cpu, c);
    MembersKnown(s, cpu, c);
    AddFrame(s, id, f, k);
  }

  lemma WakeCalm(s: Sched, id: TaskId, cpu: nat, c: ClassId, t: TaskId)
    requires Inv(s) && Shaped(s) && cpu < |s.cpus| && id in s.tasks && t in s.cpus[cpu].queues[c]
    ensures Calm(s, WakeTask(s, id), cpu, c, t)
  {
    hide Inv, Members, WakeTask, OnlyGrows;
    QueueFacts(s, cpu, c);
    MembersKnown(s, cpu, c);
    forall u | u in Members(s, cpu, c) ensures s.tasks[u].state != Blocked { MemberState(s, cpu, c, u); }
    WakeFrame(s, id);
  }

  lemma QuietCalm(s: Sched, op: Op, s': Sched, cpu: nat, c: ClassId, t: TaskId)
    requires Inv(s) && Step(s, op, s') && cpu < |s.cpus| && ShapedQueue(s.cpus[cpu])
    requires PickState(s, op, OpCpu(op)).None? && t in s.cpus[cpu].queues[c]
    ensures Calm(s, s', cpu, c, t)
  {
    hide Inv, AddTask, WakeTask, Members;
    QueueFacts(s, cpu, c);
    MembersKnown(s, cpu, c);
    InvDeficits(s);
    match op
    case Add(id, hint, nice, preferred, k) => AddCalm(s, id, NewTask(hint, nice, preferred), k, cpu, c, t);
    case Wake(id) => WakeCalm(s, id, cpu, c, t);
    case Yield(k) => if s.cpus[k].current.Some? { CurrentState(s, k); }
    case Block(k) => if s.cpus[k].current.Some? { CurrentState(s, k); }
    case _ =>
  }

  // ----- one step -------------------------------------------------------------------------------------------

  /** `t` is queued in class `c` on `cpu`. */
  ghost predicate Queues(s: Sched, cpu: nat, c: ClassId, t: TaskId) {
    cpu < |s.cpus| && ShapedQueue(s.cpus[cpu]) && t in s.tasks && t in s.cpus[cpu].queues[c]
  }

  lemma WaitShrinks(s: Sched, m: Sched, cpu: nat, c: ClassId, t: TaskId)
    requires Inv(s) && Queues(s, cpu, c, t) && Queues(m, cpu, c, t)
    requires Members(m, cpu, c) <= Members(s, cpu, c) && SharesShrink(s, m, cpu, c, t)
    ensures TaskWait(m, cpu, c, t) <= TaskWait(s, cpu, c, t)
  {
    hide Inv, TaskQuantum;
    forall u | u in Members(s, cpu, c) ensures s.tasks[u].deficit >= 0 { MemberState(s, cpu, c, u); }
    SumMonotone(Shares(s, c, t), Shares(m, c, t), Members(s, cpu, c) - {t}, Members(m, cpu, c) - {t});
  }

  lemma PickShrinks(s: Sched, s': Sched, cpu: nat, c: ClassId, t: TaskId, p: TaskId)
    requires Inv(s) && Queues(s, cpu, c, t) && Queues(s', cpu, c, t)
    requires Members(s', cpu, c) == Members(s, cpu, c) && SharesShrink(s, s', cpu, c, t)
    requires p in Members(s, cpu, c) && p != t && Share(s', c, t, p) < Share(s, c, t, p)
    ensures TaskWait(s', cpu, c, t) < TaskWait(s, cpu, c, t)
  {
    hide Inv, TaskQuantum;
    forall u | u in Members(s, cpu, c) ensures s.tasks[u].deficit >= 0 { MemberState(s, cpu, c, u); }
    SumStrict(Shares(s, c, t), Shares(s', c, t), Members(s, cpu, c) - {t}, Members(s', cpu, c) - {t}, p);
  }

  lemma SameSharesShrink(s: Sched, m: Sched, cpu: nat, c: ClassId, t: TaskId)
    requires Queues(s, cpu, c, t) && cpu < |m.cpus| && ShapedQueue(m.cpus[cpu]) && SameShares(s, m)
    ensures t in m.tasks && SharesShrink(s, m, cpu, c, t)
  {
    hide TaskQuantum;
  }

  /** A pick on the task's own CPU, seen from the step that makes it. */
  lemma PickStep(s: Sched, op: Op, s': Sched, cpu: nat, c: ClassId, t: TaskId, bound: nat)
    requires Inv(s) && VruntimeAtMost(s, bound) && bound + Charge(op) < U64_MAX && Step(s, op, s')
    requires Queues(s, cpu, c, t) && Queues(s', cpu, c, t) && PickState(s, op, cpu).Some?
    requires Members(s', cpu, c) <= Members(s, cpu, c)
    ensures TaskWait(s', cpu, c, t) + (if PickedClass(s, op, cpu) == Some(c) then 1 else 0) <= TaskWait(s, cpu, c, t)
  {
    hide Inv, Enabled, PickState, PickNext, PickClass, Members, TaskWait, SharesShrink, Share, SameShares;
    StepPick(s, op, s', cpu);
    PickStateOk(s, op, bound);
    PickStateExtends(s, op, cpu);
    PickStateSameShares(s, op, cpu);
    var p := PickState(s, op, cpu).value;
    assert Finite(p);
    assert t in p.cpus[cpu].queues[c];
    SameSharesShrink(s, p, cpu, c, t);
    PickShares(p, cpu, Previous(s, op), c, t);
    WaitShrinks(s, p, cpu, c, t);
    MembersKnown(p, cpu, c);
    MembersKnown(s', cpu, c);
    if PickClass(p.cpus[cpu]) == Some(c) {
      var u :| u in Members(p, cpu, c) && u != t && Share(s', c, t, u) < Share(p, c, t, u);
      PickShrinks(p, s', cpu, c, t, u);
    } else {
      WaitShrinks(p, s', cpu, c, t);
    }
  }

  /** Any other step. */
  lemma OtherStep(s: Sched, op: Op, s': Sched, cpu: nat, c: ClassId, t: TaskId, bound: nat)
    requires Inv(s) && VruntimeAtMost(s, bound) && bound + Charge(op) < U64_MAX && Step(s, op, s')
    requires Queues(s, cpu, c, t) && Queues(s', cpu, c, t) && PickState(s, op, cpu).None?
    requires Members(s', cpu, c) <= Members(s, cpu, c)
    ensures TaskWait(s', cpu, c, t) <= TaskWait(s, cpu, c, t)
  {
    hide Inv, Enabled, PickNext, PickClass, Members, TaskWait, SharesShrink, Share, SameShares, Calm, BeforePick;
    hide Retire;
    var k := OpCpu(op);
    if PickState(s, op, k).Some? {
      StepPick(s, op, s', k);
      PickStateOk(s, op, bound);
      PickStateExtends(s, op, cpu);
      PickStateSameShares(s, op, k);
      var p := PickState(s, op, k).value;
      assert Finite(p);
      SameSharesShrink(s, p, cpu, c, t);
      QueuedIsMember(p, cpu, c, t);
      PickElsewhereCalm(p, k, Previous(s, op), cpu, c, t);
      MembersKept(s, op, cpu, c);
      CalmChain(s, p, s', cpu, c, t);
    } else {
      QuietCalm(s, op, s', cpu, c, t);
    }
    CalmShrinks(s, s', cpu, c, t);
    WaitShrinks(s, s', cpu, c, t);
  }

  lemma QueuedIsMember(s: Sched, cpu: nat, c: ClassId, t: TaskId)
    requires cpu < |s.cpus| && ShapedQueue(s.cpus[cpu]) && t in s.cpus[cpu].queues[c] && t in s.tasks
    ensures t in Members(s, cpu, c)
  {
  }

  lemma AccountElsewhere(s: Sched, k: nat, cpu: nat)
    requires Inv(s) && Shaped(s) && k < |s.cpus| && s.cpus[k].current.Some? && cpu < |s.cpus| && cpu != k
    ensures |Account(s, k).cpus| == |s.cpus| && Account(s, k).cpus[cpu].current == s.cpus[cpu].current
    ensures forall u :: u in s.tasks && u != s.cpus[k].current.value ==>
              u in Account(s, k).tasks && Account(s, k).tasks[u].state == s.tasks[u].state
                  && Account(s, k).tasks[u].cls == s.tasks[u].cls
  {
    hide Inv, Charged, Enqueue;
    var id := s.cpus[k].current.value;
    CurrentState(s, k);
    NotFlagged(s, id);
    AccountIs(s, k);
    var s1 := SetTask(SetCpu(s, k, s.cpus[k].(current := None)), id, Charged(s.tasks[id]));
    EnqueueFrame(s1, id);
    assert OnlyGrows(s1.cpus[cpu], Enqueue(s1, id).cpus[cpu]);
  }

  /** A step on another CPU, up to its pick, keeps this CPU's members. */
  lemma MembersKept(s: Sched, op: Op, cpu: nat, c: ClassId)
    requires Inv(s) && Shaped(s) && Enabled(s, op) && cpu < |s.cpus| && OpCpu(op) != cpu && OpCpu(op) < |s.cpus|
    requires PickState(s, op, OpCpu(op)).Some?
    ensures var p := PickState(s, op, OpCpu(op)).value;
            |p.cpus| == |s.cpus| && ShapedQueue(p.cpus[cpu]) && Members(s, cpu, c) <= Members(p, cpu, c)
  {
    hide Inv, Account;
    var k := OpCpu(op);
    var p := PickState(s, op, k).value;
    PickStateExtends(s, op, cpu);
    PickStateSameShares(s, op, k);
    assert s.cpus[cpu].queues[c] <= p.cpus[cpu].queues[c];
    if s.cpus[k].current.Some? && s.cpus[cpu].current.Some? {
      CurrentState(s, k);
      CurrentState(s, cpu);
    }
    if op.Tick? && s.cpus[k].current.Some? {
      var s1 := s.(tick := (s.tick + 1) % (U64_MAX + 1));
      SameButCounters(s, s1);
      InvShaped(s1, {});
      AccountElsewhere(s1, k, cpu);
    }
  }

  lemma CalmChain(s: Sched, p: Sched, s': Sched, cpu: nat, c: ClassId, t: TaskId)
    requires cpu < |s.cpus| && ShapedQueue(s.cpus[cpu]) && cpu < |p.cpus| && ShapedQueue(p.cpus[cpu])
    requires t in s.tasks && SameShares(s, p) && Calm(p, s', cpu, c, t)
    requires Members(s, cpu, c) <= Members(p, cpu, c)
    ensures Calm(s, s', cpu, c, t)
  {
    hide Members;
    MembersKnown(s, cpu, c);
  }

  // ----- along a run ------------------------------------------------------------------------------------------

  /** The number of picks of class `c` on `cpu` in steps `i` to `j`. */
  ghost function ClassPickCount(ss: seq<Sched>, ops: seq<Op>, cpu: nat, c: ClassId, i: nat, j: nat): nat
    requires i <= j <= |ops| < |ss|
  {
    if i == j then 0
    else ClassPickCount(ss, ops, cpu, c, i, j - 1) + (if Picks(ss[j - 1], ops[j - 1], cpu, c) then 1 else 0)
  }

  /** `t` stays queued, and no task joins its class on this CPU: none is added, woken or moved into it. */
  ghost predicate WaitsOn(s: Sched, s': Sched, cpu: nat, c: ClassId, t: TaskId) {
    Queues(s, cpu, c, t) && Queues(s', cpu, c, t) && Members(s', cpu, c) <= Members(s, cpu, c)
  }

  lemma TaskStep(s: Sched, op: Op, s': Sched, cpu: nat, c: ClassId, t: TaskId, bound: nat)
    requires Inv(s) && VruntimeAtMost(s, bound) && bound + Charge(op) < U64_MAX && Step(s, op, s')
    requires WaitsOn(s, s', cpu, c, t)
    ensures TaskWait(s', cpu, c, t) + (if Picks(s, op, cpu, c) then 1 else 0) <= TaskWait(s, cpu, c, t)
  {
    hide Inv, Enabled, PickState, PickNext, PickClass, Members, TaskWait, Step;
    StepEnabled(s, op, s');
    if PickState(s, op, cpu).Some? {
      PickStep(s, op, s', cpu, c, t, bound);
    } else {
      OtherStep(s, op, s', cpu, c, t, bound);
    }
  }

  lemma {:induction false} TaskWaitAlong(ss: seq<Sched>, ops: seq<Op>, cpu: nat, c: ClassId, t: TaskId, i: nat, j: nat)
    requires Run(ss, ops) && TotalCharge(ops) < U64_MAX && i <= j <= |ops|
    requires Queues(ss[i], cpu, c, t) && Queues(ss[j], cpu, c, t)
    requires forall k :: i <= k < j ==> WaitsOn(ss[k], ss[k + 1], cpu, c, t)
    ensures ClassPickCount(ss, ops, cpu, c, i, j) + TaskWait(ss[j], cpu, c, t) <= TaskWait(ss[i], cpu, c, t)
    decreases j
  {
    hide Inv, Step, TaskWait, Picks, Members, ShapedQueue;
    if i < j {
      assert WaitsOn(ss[j - 1], ss[j - 1 + 1], cpu, c, t);
      TaskWaitAlong(ss, ops, cpu, c, t, i, j - 1);
      RunAt(ss, ops, j - 1);
      TaskStep(ss[j - 1], ops[j - 1], ss[j], cpu, c, t, TotalCharge(ops[..j - 1]));
    }
  }

  ghost function FullShares(s: Sched, c: ClassId): map<TaskId, int> {
    map u | u in s.tasks :: s.tasks[u].deficit + TaskQuantum(c, s.tasks[u].nice)
  }

  lemma TaskWaitBounds(s: Sched, cpu: nat, c: ClassId, t: TaskId)
    requires Inv(s) && Queues(s, cpu, c, t)
    ensures 0 <= TaskWait(s, cpu, c, t) <= Sum(FullShares(s, c), Members(s, cpu, c) - {t})
  {
    hide Inv, TaskQuantum;
    forall u | u in Members(s, cpu, c) ensures s.tasks[u].deficit >= 0 { MemberState(s, cpu, c, u); }
    SumMonotone(FullShares(s, c), Shares(s, c, t), Members(s, cpu, c) - {t}, Members(s, cpu, c) - {t});
    SumMonotone(Shares(s, c, t), Shares(s, c, t), Members(s, cpu, c) - {t}, {});
  }

  /**
   BOUNDED WAITING INSIDE A CLASS: while no task joins the class on its CPU, a queued task is passed
   over by at most the sum, over the other tasks of the class, of deficit plus quantum.
   */
  lemma TaskBoundedWaiting(ss: seq<Sched>, ops: seq<Op>, cpu: nat, c: ClassId, t: TaskId, i: nat, j: nat)
    requires Run(ss, ops) && TotalCharge(ops) < U64_MAX && i <= j <= |ops|
    requires Queues(ss[i], cpu, c, t) && Queues(ss[j], cpu, c, t)
    requires forall k :: i <= k < j ==> WaitsOn(ss[k], ss[k + 1], cpu, c, t)
    ensures ClassPickCount(ss, ops, cpu, c, i, j) <= Sum(FullShares(ss[i], c), Members(ss[i], cpu, c) - {t})
  {
    hide Inv, Step, TaskWait, WaitsOn, Members, FullShares;
    TaskWaitAlong(ss, ops, cpu, c, t, i, j);
    RunInv(ss, ops);
    TaskWaitBounds(ss[i], cpu, c, t);
    TaskWaitBounds(ss[j], cpu, c, t);
  }
}
