/**
 Every step of the scheduler keeps the invariant, picks are work-conserving, and refills land
 exactly on one quantum; and so for whole runs.
 */
module SchedulerSteps {
  import opened Common
  import opened SchedulerState
  import opened SchedulerInvariant

  // ----- which class a pick takes ---------------------------------------------------------------

  /** How far class `c` is from the cursor. */
  function Distance(cursor: nat, c: ClassId): (d: nat)
    requires cursor < NUM_CLASSES
    ensures d < NUM_CLASSES && (cursor + d) % NUM_CLASSES == c
  {
    if c >= cursor then c - cursor else c + NUM_CLASSES - cursor
  }

  lemma {:induction false} FirstPickableIs(rq: RunQueue, k: nat)
    requires ShapedQueue(rq) && k <= NUM_CLASSES
    ensures var r := FirstPickable(rq, k);
            match r
            case None => forall j :: k <= j < NUM_CLASSES ==> !Pickable(rq, Candidate(rq, j))
            case Some(c) =>
              Pickable(rq, c) &&
              exists j :: k <= j < NUM_CLASSES && Candidate(rq, j) == c
                          && forall i :: k <= i < j ==> !Pickable(rq, Candidate(rq, i))
    decreases NUM_CLASSES - k
  {
    if k < NUM_CLASSES { FirstPickableIs(rq, k + 1); }
  }

  lemma CandidateAt(rq: RunQueue, c: ClassId)
    requires ShapedQueue(rq)
    ensures Candidate(rq, Distance(rq.cursor, c)) == c
    ensures forall j :: 0 <= j < NUM_CLASSES && Candidate(rq, j) == c ==> j == Distance(rq.cursor, c)
  {
  }

  /** The pick takes the pickable class nearest the cursor, and finds one if there is one. */
  lemma PickedClassIs(rq: RunQueue)
    requires ShapedQueue(rq)
    ensures match FirstPickable(rq, 0)
            case None => forall c: ClassId :: !Pickable(rq, c)
            case Some(c) =>
              && Pickable(rq, c)
              && forall d: ClassId :: Pickable(rq, d) ==> Distance(rq.cursor, c) <= Distance(rq.cursor, d)
  {
    hide Pickable;
    FirstPickableIs(rq, 0);
    match FirstPickable(rq, 0)
    case None =>
      forall c: ClassId ensures !Pickable(rq, c) { CandidateAt(rq, c); }
    case Some(c) =>
      var j :| 0 <= j < NUM_CLASSES && Candidate(rq, j) == c
               && forall i :: 0 <= i < j ==> !Pickable(rq, Candidate(rq, i));
      CandidateAt(rq, c);
      forall d: ClassId | Pickable(rq, d)
        ensures Distance(rq.cursor, c) <= Distance(rq.cursor, d)
      {
        CandidateAt(rq, d);
      }
  }

  /** A refill of class deficits always starts from 0 and lands on exactly one quantum. */
  lemma ClassRefillExact(rq: RunQueue, c: ClassId)
    requires QueueBasics(rq) && FirstPickable(rq, 0).None?
    ensures rq.queues[c] != [] ==> rq.deficits[c] == 0 && RefillClasses(rq).deficits[c] == ClassQuantum(c)
    ensures rq.queues[c] == [] ==> RefillClasses(rq).deficits[c] == rq.deficits[c]
  {
    hide FirstPickable;
    PickedClassIs(rq);
    assert !Pickable(rq, c);
  }

  lemma PickQueueBasics(rq: RunQueue)
    requires QueueBasics(rq)
    ensures QueueBasics(PickQueue(rq))
    ensures PickQueue(rq).queues == rq.queues && PickQueue(rq).current == rq.current
    ensures PickQueue(rq).cursor == rq.cursor
  {
    hide FirstPickable;
    if FirstPickable(rq, 0).None? {
      forall c | 0 <= c < NUM_CLASSES
        ensures 0 <= RefillClasses(rq).deficits[c] <= ClassQuantum(c)
      {
        ClassRefillExact(rq, c);
      }
    }
  }

  /** WORK-CONSERVING over classes: a class is found whenever any queue is non-empty. */
  lemma PickClassFinds(rq: RunQueue, c: ClassId)
    requires QueueBasics(rq) && rq.queues[c] != []
    ensures FirstPickable(PickQueue(rq), 0).Some?
  {
    hide FirstPickable;
    PickQueueBasics(rq);
    PickedClassIs(PickQueue(rq));
    if FirstPickable(rq, 0).None? {
      ClassRefillExact(rq, c);
      assert Pickable(PickQueue(rq), c);
    }
  }

  // ----- which task a pick takes ------------------------------------------------------------------

  ghost predicate QueueReady(tasks: map<TaskId, Task>, q: seq<TaskId>) {
    && KnownTasks(tasks, q)
    && forall i :: 0 <= i < |q| ==>
        tasks[q[i]].state == Ready && tasks[q[i]].deficit >= 0 && tasks[q[i]].vruntime < U64_MAX
  }

  lemma QueueIsReady(s: Sched, cpu: nat, c: ClassId)
    requires Inv(s) && Finite(s) && cpu < |s.cpus|
    ensures ShapedQueue(s.cpus[cpu]) && QueueReady(s.tasks, s.cpus[cpu].queues[c])
  {
    assert QueueBasics(s.cpus[cpu]) && QueueContents(s, cpu, c);
    var q := s.cpus[cpu].queues[c];
    forall i | 0 <= i < |q|
      ensures q[i] in s.tasks && s.tasks[q[i]].state == Ready && s.tasks[q[i]].deficit >= 0
      ensures s.tasks[q[i]].vruntime < U64_MAX
    {
      assert QueuedHere(s, cpu, c, q[i]);
      assert TaskBasics(s, s.tasks[q[i]]);
    }
  }

  /** A refill of task deficits always starts from 0 and lands on exactly one quantum. */
  lemma TaskRefillExact(tasks: map<TaskId, Task>, q: seq<TaskId>, c: ClassId, id: TaskId)
    requires QueueReady(tasks, q) && Best(tasks, q).None? && id in q
    ensures tasks[id].deficit == 0
    ensures RefillTasks(tasks, q, c)[id] == tasks[id].(deficit := TaskQuantum(c, tasks[id].nice))
  {
    hide Best, TaskQuantum;
    assert NoneEligible(tasks, q);
    var i :| 0 <= i < |q| && q[i] == id;
    assert !Eligible(tasks[q[i]]);
  }

  /** WORK-CONSERVING within a class: a task is found whenever the queue is non-empty. */
  lemma PickIndexFinds(tasks: map<TaskId, Task>, q: seq<TaskId>, c: ClassId)
    requires QueueReady(tasks, q) && q != []
    ensures PickIndex(tasks, q, c).Some?
  {
    hide Best, TaskQuantum;
    if Best(tasks, q).None? {
      TaskRefillExact(tasks, q, c, q[0]);
      assert Eligible(RefillTasks(tasks, q, c)[q[0]]);
    }
  }

  /** What picking does to the tasks: refills those queued, if it refills, and nothing else. */
  lemma PickTasksSamePlace(tasks: map<TaskId, Task>, q: seq<TaskId>, c: ClassId)
    requires QueueReady(tasks, q)
    requires forall id :: id in tasks ==> tasks[id].deficit >= 0
    ensures forall id :: id in tasks ==> SamePlace(tasks[id], PickTasks(tasks, q, c)[id])
    ensures forall id :: id in tasks && id !in q ==> PickTasks(tasks, q, c)[id] == tasks[id]
    ensures forall id :: id in tasks ==>
            PickTasks(tasks, q, c)[id] == tasks[id].(deficit := PickTasks(tasks, q, c)[id].deficit)
  {
    hide Best;
  }

  // ----- the pick keeps the invariant ---------------------------------------------------------------

  lemma DispatchInv(s: Sched, cpu: nat, c: ClassId, i: nat, previous: Option<TaskId>)
    requires Inv(s) && Finite(s) && cpu < |s.cpus| && s.cpus[cpu].current.None?
    requires ShapedQueue(s.cpus[cpu]) && KnownQueues(s, cpu)
    requires s.cpus[cpu].deficits[c] > 0
    requires PickIndex(s.tasks, s.cpus[cpu].queues[c], c) == Some(i)
    ensures Inv(Dispatch(s, cpu, c, i, previous))
  {
    hide Best, TaskQuantum, InvBut;
    var rq := s.cpus[cpu];
    var q := rq.queues[c];
    var tasks := PickTasks(s.tasks, q, c);
    QueueIsReady(s, cpu, c);
    InvDeficits(s);
    PickTasksSamePlace(s.tasks, q, c);
    ChangeInPlace(s, tasks, {});
    var s1 := s.(tasks := tasks);
    UnqueueInv(s1, cpu, c, i);
    var rq2 := SetQueue(rq, c, RemoveAt(q, i));
    var s2 := SetCpu(s1, cpu, rq2);
    var t := Dispatched(tasks[q[i]], cpu, previous == Some(q[i]));
    assert Eligible(tasks[q[i]]);
    OccupyInv(s2, cpu, q[i], t);
    var rq3 := rq2.(current := Some(q[i]));
    var s3 := SetCpu(SetTask(s2, q[i], t), cpu, rq3);
    var rq4 := rq3.(cursor := (c + 1) % NUM_CLASSES, deficits := rq.deficits[c := rq.deficits[c] - 1]);
    InvQueueBasics(s, cpu);
    ChangeDeficits(s3, cpu, rq4, {});
    assert SetCpu(s3, cpu, rq4) == Dispatch(s, cpu, c, i, previous);
  }

  lemma InvDeficits(s: Sched)
    requires Inv(s)
    ensures forall id :: id in s.tasks ==> s.tasks[id].deficit >= 0 && s.tasks[id].lastCpu < |s.cpus|
  {
    forall id | id in s.tasks ensures s.tasks[id].deficit >= 0 && s.tasks[id].lastCpu < |s.cpus| {
      assert TaskBasics(s, s.tasks[id]);
    }
  }

  lemma InvQueueBasics(s: Sched, cpu: nat)
    requires Inv(s) && cpu < |s.cpus|
    ensures QueueBasics(s.cpus[cpu])
  {
  }

  /** The pick, in one piece: it takes class `PickClass` and task `PickIndex`, or finds nothing queued. */
  lemma PickNextIs(s: Sched, cpu: nat, previous: Option<TaskId>)
    requires Inv(s) && Finite(s) && cpu < |s.cpus|
    ensures ShapedQueue(s.cpus[cpu]) && KnownQueues(s, cpu)
    ensures var rq := PickQueue(s.cpus[cpu]);
            match PickClass(s.cpus[cpu])
            case None =>
              && PickNext(s, cpu, previous) == s
              && forall c :: 0 <= c < NUM_CLASSES ==> rq.queues[c] == []
            case Some(c) =>
              && Pickable(rq, c) && rq.queues == s.cpus[cpu].queues
              && PickIndex(s.tasks, rq.queues[c], c).Some?
              && PickNext(s, cpu, previous)
                 == Dispatch(SetCpu(s, cpu, rq), cpu, c, PickIndex(s.tasks, rq.queues[c], c).value, previous)
  {
    hide FirstPickable, Best, InvBut, Dispatch;
    InvShaped(s, {});
    var rq0 := s.cpus[cpu];
    var rq := PickQueue(rq0);
    InvQueueBasics(s, cpu);
    PickQueueBasics(rq0);
    PickedClassIs(rq);
    match PickClass(rq0)
    case None =>
      forall c | 0 <= c < NUM_CLASSES ensures rq.queues[c] == [] {
        if rq0.queues[c] != [] { PickClassFinds(rq0, c); }
      }
      assert RefillClasses(rq0) == rq0 by { RefillNothing(rq0); }
      assert s.cpus[cpu := rq0] == s.cpus;
    case Some(c) =>
      QueueIsReady(s, cpu, c);
      PickIndexFinds(s.tasks, rq.queues[c], c);
  }

  lemma RefillNothing(rq: RunQueue)
    requires ShapedQueue(rq) && forall c :: 0 <= c < NUM_CLASSES ==> rq.queues[c] == []
    ensures RefillClasses(rq) == rq
  {
    assert RefillClasses(rq).deficits == rq.deficits;
  }

  lemma PickNextInv(s: Sched, cpu: nat, previous: Option<TaskId>)
    requires Inv(s) && Finite(s) && cpu < |s.cpus| && s.cpus[cpu].current.None?
    ensures ShapedQueue(s.cpus[cpu]) && KnownQueues(s, cpu)
    ensures Inv(PickNext(s, cpu, previous))
  {
    hide FirstPickable, Best, InvBut, Dispatch;
    PickNextIs(s, cpu, previous);
    var rq := PickQueue(s.cpus[cpu]);
    InvQueueBasics(s, cpu);
    PickQueueBasics(s.cpus[cpu]);
    if PickClass(s.cpus[cpu]).Some? {
      var c := PickClass(s.cpus[cpu]).value;
      ChangeDeficits(s, cpu, rq, {});
      DispatchInv(SetCpu(s, cpu, rq), cpu, c, PickIndex(s.tasks, rq.queues[c], c).value, previous);
    }
  }

  /** WORK-CONSERVING: a pick runs a task whenever one is Ready on the CPU, and only then. */
  lemma WorkConserving(s: Sched, cpu: nat, previous: Option<TaskId>)
    requires Inv(s) && Finite(s) && cpu < |s.cpus| && s.cpus[cpu].current.None?
    ensures ShapedQueue(s.cpus[cpu]) && KnownQueues(s, cpu)
    ensures PickNext(s, cpu, previous).cpus[cpu].current.Some?
            <==> exists id :: id in s.tasks && s.tasks[id].state == Ready && s.tasks[id].lastCpu == cpu
  {
    hide FirstPickable, Best, PickNext;
    PickNextIs(s, cpu, previous);
    var rq := s.cpus[cpu];
    InvQueueBasics(s, cpu);
    PickQueueBasics(rq);
    if PickClass(rq).Some? {
      var c := PickClass(rq).value;
      var id := rq.queues[c][0];
      assert QueueContents(s, cpu, c) && QueuedHere(s, cpu, c, id);
    } else {
      forall id | id in s.tasks && s.tasks[id].state == Ready ensures s.tasks[id].lastCpu != cpu {
        assert InItsPlace(s, id);
      }
    }
  }

  // ----- the other steps ------------------------------------------------------------------------------

  lemma AddTaskInv(s: Sched, id: TaskId, fresh_: Task, cpu: nat)
    requires Inv(s) && Shaped(s) && cpu < |s.cpus| && id !in s.tasks
    requires fresh_.state == Ready && !fresh_.queued
    ensures Inv(AddTask(s, id, fresh_, cpu))
  {
    hide InvBut, Enqueue;
    var t := Placed(fresh_, cpu);
    var s1 := SetTask(s, id, t);
    AddLoose(s, id, t);
    InvShaped(s1, {id});
    EnqueueInv(s1, id);
    SameButCounters(Enqueue(s1, id), AddTask(s, id, fresh_, cpu));
  }

  /** Adding a task leaves the others alone, and only adds to queues. */
  lemma AddFrame(s: Sched, id: TaskId, fresh_: Task, cpu: nat)
    requires Shaped(s) && cpu < |s.cpus| && id !in s.tasks
    ensures var s' := AddTask(s, id, fresh_, cpu);
            && |s'.cpus| == |s.cpus|
            && (forall x :: x in s.tasks ==> x in s'.tasks && s'.tasks[x] == s.tasks[x].(queued := s'.tasks[x].queued))
            && (forall k :: 0 <= k < |s.cpus| ==> OnlyGrows(s.cpus[k], s'.cpus[k]))
  {
    hide Enqueue, Placed, OnlyGrows;
    var s1 := SetTask(s, id, Placed(fresh_, cpu));
    EnqueueFrame(s1, id);
  }

  lemma WakeFrame(s: Sched, id: TaskId)
    requires Shaped(s) && id in s.tasks
    ensures var s' := WakeTask(s, id);
            && |s'.cpus| == |s.cpus| && s'.tasks.Keys == s.tasks.Keys
            && (forall x :: x in s.tasks && (x != id || s.tasks[id].state != Blocked) ==>
                  s'.tasks[x] == s.tasks[x].(queued := s'.tasks[x].queued))
            && (forall k :: 0 <= k < |s.cpus| ==> OnlyGrows(s.cpus[k], s'.cpus[k]))
  {
    hide Enqueue;
    EnqueueFrame(SetTask(s, id, Woken(s.tasks[id], s.tick)), id);
  }

  lemma AddLoose(s: Sched, id: TaskId, t: Task)
    requires Inv(s) && id !in s.tasks && TaskBasics(s, t)
    ensures InvBut(SetTask(s, id, t), {id})
  {
    var s' := SetTask(s, id, t);
    forall x | x in s'.tasks ensures TaskBasics(s', s'.tasks[x]) { if x != id { assert TaskBasics(s, s.tasks[x]); } }
    forall k, c | 0 <= k < |s'.cpus| && 0 <= c < NUM_CLASSES
      ensures QueueContents(s', k, c) && id !in s'.cpus[k].queues[c]
    {
      assert QueueContents(s, k, c);
      var q := s.cpus[k].queues[c];
      forall i | 0 <= i < |q| ensures QueuedHere(s', k, c, q[i]) && q[i] != id { assert QueuedHere(s, k, c, q[i]); }
    }
    forall k | 0 <= k < |s'.cpus|
      ensures CurrentHere(s', k) && s'.cpus[k].current != Some(id)
    {
      assert CurrentHere(s, k);
    }
    forall x | x in s'.tasks && x != id ensures InItsPlace(s', x) { assert InItsPlace(s, x); }
    forall k | 0 <= k < |s'.cpus| ensures QueueBasics(s'.cpus[k]) { assert QueueBasics(s.cpus[k]); }
  }

  /** The invariant speaks of tasks and CPUs only. */
  lemma SameButCounters(s: Sched, s': Sched)
    requires Inv(s) && s'.tasks == s.tasks && s'.cpus == s.cpus
    ensures Inv(s')
  {
    forall id | id in s'.tasks ensures TaskBasics(s', s'.tasks[id]) && InItsPlace(s', id) {
      assert TaskBasics(s, s.tasks[id]) && InItsPlace(s, id);
    }
    forall k, c | 0 <= k < |s'.cpus| && 0 <= c < NUM_CLASSES ensures QueueContents(s', k, c) {
      assert QueueContents(s, k, c);
      var q := s.cpus[k].queues[c];
      forall i | 0 <= i < |q| ensures QueuedHere(s', k, c, q[i]) { assert QueuedHere(s, k, c, q[i]); }
    }
    forall k | 0 <= k < |s'.cpus| ensures CurrentHere(s', k) { assert CurrentHere(s, k); }
  }

  /** Charging a task and taking it off its CPU can be done in either order. */
  lemma AccountIs(s: Sched, cpu: nat)
    requires Shaped(s) && cpu < |s.cpus| && s.cpus[cpu].current.Some?
    requires s.tasks[s.cpus[cpu].current.value].lastCpu == cpu && !s.tasks[s.cpus[cpu].current.value].queued
    ensures var id := s.cpus[cpu].current.value;
            var s1 := SetTask(SetCpu(s, cpu, s.cpus[cpu].(current := None)), id, Charged(s.tasks[id]));
            Shaped(s1) && Account(s, cpu) == if Charged(s.tasks[id]).state == Ready then Enqueue(s1, id) else s1
  {
  }

  lemma AccountInv(s: Sched, cpu: nat)
    requires Inv(s) && Shaped(s) && cpu < |s.cpus| && s.cpus[cpu].current.Some?
    ensures Inv(Account(s, cpu)) && Account(s, cpu).cpus[cpu].current.None?
  {
    hide Charged, Enqueue, InvBut;
    var id := s.cpus[cpu].current.value;
    CurrentState(s, cpu);
    NotFlagged(s, id);
    var t := Charged(s.tasks[id]);
    ChargedPlace(s.tasks[id]);
    var idle := SetCpu(s, cpu, s.cpus[cpu].(current := None));
    DropCurrentInv(s, cpu);
    InvDeficits(s);
    ChangeLoose(idle, id, t);
    var s1 := SetTask(idle, id, t);
    InvShaped(s1, {id});
    AccountIs(s, cpu);
    EnqueueFrame(s1, id);
    assert OnlyGrows(s1.cpus[cpu], Enqueue(s1, id).cpus[cpu]);
    if t.state == Ready { EnqueueInv(s1, id); } else { SettleInv(s1, id); }
  }

  /** What enqueueing leaves alone, and that it only appends. */
  lemma EnqueueFrame(s: Sched, id: TaskId)
    requires Shaped(s) && id in s.tasks
    ensures var s' := Enqueue(s, id);
            && |s'.cpus| == |s.cpus|
            && s'.tasks.Keys == s.tasks.Keys
            && (forall x :: x in s.tasks ==> s'.tasks[x] == s.tasks[x].(queued := s'.tasks[x].queued))
            && (forall k :: 0 <= k < |s.cpus| ==> OnlyGrows(s.cpus[k], s'.cpus[k]))
  {
  }

  /** Same schedule, same current task, and queues that only gained tasks at the back. */
  ghost predicate OnlyGrows(a: RunQueue, b: RunQueue) {
    && a.current == b.current && a.cursor == b.cursor && a.deficits == b.deficits
    && |a.queues| == |b.queues| == NUM_CLASSES
    && forall c :: 0 <= c < NUM_CLASSES ==> a.queues[c] <= b.queues[c]
  }

  lemma NotFlagged(s: Sched, id: TaskId)
    requires Inv(s) && id in s.tasks && s.tasks[id].state != Ready
    ensures !s.tasks[id].queued
  {
    assert InItsPlace(s, id);
  }

  lemma ChargedPlace(t: Task)
    requires t.state == Running || t.state == Blocked
    ensures Charged(t).lastCpu == t.lastCpu && Charged(t).queued == t.queued && Charged(t).deficit == t.deficit
    ensures Charged(t).state == if t.state == Running then Ready else Blocked
    ensures Charged(t).nice == t.nice
    ensures t.vruntime <= Charged(t).vruntime <= t.vruntime + 1024
      || (t.vruntime > U64_MAX && Charged(t).vruntime == U64_MAX)
  {
    DeltaBound(t.cls, t.nice);
  }

  lemma DeltaBound(c: ClassId, nice: Nice)
    ensures VruntimeDelta(c, nice) <= 1024
  {
    var w := Max(ClassWeight(c) * NiceWeight(nice), 1);
    DivAtMost(1024, w);
  }

  lemma DivAtMost(n: nat, d: nat)
    requires d >= 1
    ensures n / d <= n
  {
    assert n == d * (n / d) + n % d;
    assert d * (n / d) == (d - 1) * (n / d) + n / d;
  }

  lemma RetireInv(s: Sched, cpu: nat)
    requires Inv(s) && Shaped(s) && cpu < |s.cpus|
    ensures Inv(Retire(s, cpu)) && Retire(s, cpu).cpus[cpu].current.None?
  {
    if s.cpus[cpu].current.Some? {
      var id := s.cpus[cpu].current.value;
      var t := s.tasks[id].(state := Exited, queued := false);
      var idle := SetCpu(s, cpu, s.cpus[cpu].(current := None));
      DropCurrentInv(s, cpu);
      InvDeficits(s);
      ChangeLoose(idle, id, t);
      SettleInv(SetTask(idle, id, t), id);
      assert SetTask(idle, id, t) == Retire(s, cpu);
    }
  }

  /** Changing the current task's bookkeeping, or marking it Blocked. */
  lemma ChangeCurrentInv(s: Sched, cpu: nat, t: Task)
    requires Inv(s) && cpu < |s.cpus| && s.cpus[cpu].current.Some?
    requires t.lastCpu == cpu && !t.queued && t.deficit >= 0
    requires t.state == Blocked || (t.state == Running && s.cpus[cpu].current.value in s.tasks)
    ensures Inv(SetTask(s, s.cpus[cpu].current.value, t))
  {
    var id := s.cpus[cpu].current.value;
    var s' := SetTask(s, id, t);
    assert CurrentHere(s, cpu);
    NotQueuedUnlessReady(s, id, {});
    forall x | x in s'.tasks ensures TaskBasics(s', s'.tasks[x]) { assert TaskBasics(s, s.tasks[x]); }
    forall k, c | 0 <= k < |s'.cpus| && 0 <= c < NUM_CLASSES ensures QueueContents(s', k, c) {
      assert QueueBasics(s.cpus[k]) && QueueContents(s, k, c);
      var q := s.cpus[k].queues[c];
      assert id !in q;
      forall i | 0 <= i < |q| ensures QueuedHere(s', k, c, q[i]) { assert QueuedHere(s, k, c, q[i]); }
    }
    forall k | 0 <= k < |s'.cpus| ensures CurrentHere(s', k) { assert CurrentHere(s, k); }
    forall x | x in s'.tasks ensures InItsPlace(s', x) {
      if x != id { assert InItsPlace(s, x); } else { assert QueueBasics(s.cpus[cpu]); }
    }
  }

  lemma YieldInv(s: Sched, cpu: nat)
    requires Inv(s) && Shaped(s) && cpu < |s.cpus|
    ensures Inv(RequestYield(s, cpu))
  {
    if s.cpus[cpu].current.Some? {
      var id := s.cpus[cpu].current.value;
      assert CurrentHere(s, cpu) && InItsPlace(s, id);
      ChangeCurrentInv(s, cpu, Yielded(s.tasks[id]));
    }
  }

  lemma BlockInv(s: Sched, cpu: nat)
    requires Inv(s) && Shaped(s) && cpu < |s.cpus|
    ensures Inv(BlockCurrent(s, cpu))
  {
    if s.cpus[cpu].current.Some? {
      var id := s.cpus[cpu].current.value;
      assert CurrentHere(s, cpu) && InItsPlace(s, id);
      ChangeCurrentInv(s, cpu, BlockedAt(s.tasks[id], s.tick));
    }
  }

  /** The task is Blocked but still current: `block_current` leaves it so until the next tick. */
  predicate StillCurrent(s: Sched, id: TaskId)
    requires Shaped(s) && id in s.tasks
  {
    s.tasks[id].state == Blocked && s.cpus[s.tasks[id].lastCpu].current == Some(id)
  }

  /** Waking a task keeps the invariant exactly when its CPU has switched away from it. */
  lemma WakeInvIff(s: Sched, id: TaskId)
    requires Inv(s) && Shaped(s) && id in s.tasks
    ensures Inv(WakeTask(s, id)) <==> !StillCurrent(s, id)
  {
    hide TaskQuantum;
    var t := s.tasks[id];
    assert InItsPlace(s, id);
    if t.state == Blocked {
      var t' := Woken(t, s.tick);
      if s.cpus[t.lastCpu].current == Some(id) {
        var s' := WakeTask(s, id);
        assert s'.cpus[t.lastCpu].current == Some(id) && s'.tasks[id].state == Ready;
        assert !CurrentHere(s', t.lastCpu);
      } else {
        forall k | 0 <= k < |s.cpus| ensures s.cpus[k].current != Some(id) { assert CurrentHere(s, k); }
        LooseWhenIdle(s, id);
        InvDeficits(s);
        ChangeLoose(s, id, t');
        InvShaped(SetTask(s, id, t'), {id});
        EnqueueInv(SetTask(s, id, t'), id);
      }
    }
  }

  /** No task of this id is Ready, Running or current. */
  predicate IdFree(s: Sched, id: TaskId)
    requires Shaped(s)
  {
    id in s.tasks ==> s.tasks[id].state == Exited || (s.tasks[id].state == Blocked && !StillCurrent(s, id))
  }

  /** Adding a task keeps the invariant exactly when its id is not that of a task still in play. */
  lemma AddInvIff(s: Sched, id: TaskId, fresh_: Task, cpu: nat)
    requires Inv(s) && Shaped(s) && cpu < |s.cpus| && fresh_.state == Ready && !fresh_.queued
    ensures Inv(AddTask(s, id, fresh_, cpu)) <==> IdFree(s, id)
  {
    hide InvBut, AddTask;
    if id !in s.tasks {
      AddTaskInv(s, id, fresh_, cpu);
    } else if IdFree(s, id) {
      ReuseInv(s, id, fresh_, cpu);
    } else {
      ReuseBreaks(s, id, fresh_, cpu);
    }
  }

  lemma ReuseInv(s: Sched, id: TaskId, fresh_: Task, cpu: nat)
    requires Inv(s) && Shaped(s) && cpu < |s.cpus| && fresh_.state == Ready && !fresh_.queued
    requires id in s.tasks && IdFree(s, id)
    ensures Inv(AddTask(s, id, fresh_, cpu))
  {
    hide Enqueue, TaskQuantum;
    var t := Placed(fresh_, cpu);
    forall k | 0 <= k < |s.cpus| ensures s.cpus[k].current != Some(id) { assert CurrentHere(s, k); }
    LooseWhenIdle(s, id);
    ChangeLoose(s, id, t);
    InvShaped(SetTask(s, id, t), {id});
    EnqueueInv(SetTask(s, id, t), id);
    SameButCounters(Enqueue(SetTask(s, id, t), id), AddTask(s, id, fresh_, cpu));
  }

  lemma ReuseBreaks(s: Sched, id: TaskId, fresh_: Task, cpu: nat)
    requires Inv(s) && Shaped(s) && cpu < |s.cpus| && fresh_.state == Ready && !fresh_.queued
    requires id in s.tasks && !IdFree(s, id)
    ensures !Inv(AddTask(s, id, fresh_, cpu))
  {
    hide InvBut, TaskQuantum;
    var t, s' := s.tasks[id], AddTask(s, id, fresh_, cpu);
    PlaceOf(s, id);
    if t.state == Ready {
      var q, q' := s.cpus[t.lastCpu].queues[t.cls], s'.cpus[t.lastCpu].queues[t.cls];
      var i :| 0 <= i < |q| && q[i] == id;
      if t.lastCpu == cpu && t.cls == Placed(fresh_, cpu).cls {
        assert q' == q + [id];
        QueuedTwice(s', t.lastCpu, t.cls, i, |q|);
      } else {
        assert q'[i] == id;
        QueuedElsewhere(s', id, t.lastCpu, t.cls);
      }
    } else {
      CurrentButReady(s', t.lastCpu);
    }
  }

  lemma QueuedTwice(s: Sched, k: nat, c: nat, i: nat, j: nat)
    requires k < |s.cpus| && c < |s.cpus[k].queues| && i < j < |s.cpus[k].queues[c]|
    requires s.cpus[k].queues[c][i] == s.cpus[k].queues[c][j]
    ensures !Inv(s)
  {
    assert Inv(s) ==> QueueBasics(s.cpus[k]) && QueueContents(s, k, c);
  }

  lemma QueuedElsewhere(s: Sched, id: TaskId, k: nat, c: nat)
    requires QueuedAt(s, id, k, c) && id in s.tasks && (k != s.tasks[id].lastCpu || c != s.tasks[id].cls)
    ensures !Inv(s)
  {
    var q := s.cpus[k].queues[c];
    var i :| 0 <= i < |q| && q[i] == id;
    assert Inv(s) ==> QueueBasics(s.cpus[k]) && QueueContents(s, k, c) && QueuedHere(s, k, c, q[i]);
  }

  lemma CurrentButReady(s: Sched, k: nat)
    requires k < |s.cpus| && s.cpus[k].current.Some? && s.cpus[k].current.value in s.tasks
    requires s.tasks[s.cpus[k].current.value].state == Ready
    ensures !Inv(s)
  {
    assert !CurrentHere(s, k);
  }

  lemma PlaceOf(s: Sched, id: TaskId)
    requires Inv(s) && id in s.tasks
    ensures InItsPlace(s, id)
  {
  }

  lemma NewInv(n: nat)
    requires n > 0
    ensures Inv(NewSched().(cpus := seq(n, _ => NewRunQueue())))
  {
    var s := NewSched().(cpus := seq(n, _ => NewRunQueue()));
    forall k | 0 <= k < n ensures QueueBasics(s.cpus[k]) && CurrentHere(s, k) { assert s.cpus[k] == NewRunQueue(); }
    forall k, c | 0 <= k < n && 0 <= c < NUM_CLASSES
      ensures QueueContents(s, k, c)
    {
      assert s.cpus[k] == NewRunQueue();
    }
  }

  lemma NewIsInv()
    ensures Inv(NewSched()) && VruntimeAtMost(NewSched(), 0)
  {
    hide InvBut;
    NewInv(1);
    assert NewSched().cpus == seq(1, _ => NewRunQueue());
    assert NewSched() == NewSched().(cpus := seq(1, _ => NewRunQueue()));
  }

  // ----- whole runs ---------------------------------------------------------------------------------------

  datatype Op =
    | Add(id: TaskId, hint: Option<ClassId>, nice: int, preferred: Option<nat>, cpu: nat)
    | Tick(cpu: nat)
    | Yield(cpu: nat)
    | Block(cpu: nat)
    | Wake(id: TaskId)
    | Exit(cpu: nat)
    | Start
    | Topology(n: nat)
    | Allocate

  /** What callers guarantee: fresh ids, existing CPUs, and no waking before the tick. */
  ghost predicate Enabled(s: Sched, op: Op)
    requires Shaped(s)
  {
    match op
    case Add(id, hint, nice, preferred, cpu) => id !in s.tasks && cpu < |s.cpus| && Selected(s, 0, preferred, cpu)
    case Tick(cpu) => cpu < |s.cpus|
    case Yield(cpu) => cpu < |s.cpus|
    case Block(cpu) => cpu < |s.cpus|
    case Wake(id) => id in s.tasks && !StillCurrent(s, id)
    case Exit(cpu) => cpu < |s.cpus|
    case Start => s.cpus[0].current.None?
    case Topology(n) => true
    case Allocate => true
  }

  /** The state in which a step picks, if it picks on `cpu`. */
  ghost function PickState(s: Sched, op: Op, cpu: nat): Option<Sched>
    requires Shaped(s) && Enabled(s, op)
  {
    match op
    case Tick(k) => if k == cpu && s.started then Some(BeforePick(s, cpu)) else None
    case Exit(k) => if k == cpu then Some(Retire(s, cpu)) else None
    case Start => if cpu == 0 then Some(s.(started := true)) else None
    case _ => None
  }

  function OpCpu(op: Op): nat {
    match op
    case Tick(k) => k
    case Exit(k) => k
    case _ => 0
  }

  ghost function Previous(s: Sched, op: Op): Option<TaskId>
    requires Shaped(s) && Enabled(s, op)
  {
    if op.Tick? then s.cpus[op.cpu].current else None
  }

  /** One step, from a state in which it is enabled. */
  ghost predicate Step(s: Sched, op: Op, s': Sched) {
    && Shaped(s) && Enabled(s, op)
    && match PickState(s, op, OpCpu(op))
       case Some(p) =>
         && OpCpu(op) < |p.cpus| && ShapedQueue(p.cpus[OpCpu(op)]) && KnownQueues(p, OpCpu(op))
         && s' == PickNext(p, OpCpu(op), Previous(s, op))
       case None =>
         match op
         case Add(id, hint, nice, preferred, cpu) => s' == AddTask(s, id, NewTask(hint, nice, preferred), cpu)
         case Yield(cpu) => s' == RequestYield(s, cpu)
         case Block(cpu) => s' == BlockCurrent(s, cpu)
         case Wake(id) => s' == WakeTask(s, id)
         case Topology(n) => s' == Configure(s, n)
         case Allocate => s' == IdAllocated(s)
         case _ => s' == s
  }

  /** How much a step may add to a task's vruntime. */
  function Charge(op: Op): nat {
    if op.Tick? then 1024 else 0
  }

  /** The state a pick starts from keeps the invariant and has its CPU free. */
  lemma PickStateOk(s: Sched, op: Op, bound: nat)
    requires Inv(s) && Shaped(s) && Enabled(s, op) && VruntimeAtMost(s, bound) && bound + Charge(op) < U64_MAX
    ensures var cpu := OpCpu(op);
            PickState(s, op, cpu).Some? ==>
              var p := PickState(s, op, cpu).value;
              && Inv(p) && cpu < |p.cpus| && p.cpus[cpu].current.None?
              && VruntimeAtMost(p, bound + Charge(op))
  {
    hide InvBut, Charged;
    var cpu := OpCpu(op);
    match op
    case Tick(_) =>
      var s1 := s.(tick := (s.tick + 1) % (U64_MAX + 1));
      SameButCounters(s, s1);
      InvShaped(s1, {});
      if s.cpus[cpu].current.Some? {
        AccountInv(s1, cpu);
        CurrentState(s, cpu);
        ChargedPlace(s.tasks[s.cpus[cpu].current.value]);
      }
    case Exit(_) => RetireInv(s, cpu);
    case Start => SameButCounters(s, s.(started := true));
    case _ =>
  }

  lemma CurrentState(s: Sched, cpu: nat)
    requires Inv(s) && cpu < |s.cpus| && s.cpus[cpu].current.Some?
    ensures var id := s.cpus[cpu].current.value;
            id in s.tasks && (s.tasks[id].state == Running || s.tasks[id].state == Blocked)
                && s.tasks[id].lastCpu == cpu
  {
    assert CurrentHere(s, cpu);
  }

  lemma PickKeepsVruntime(s: Sched, cpu: nat, previous: Option<TaskId>, bound: nat)
    requires Inv(s) && Finite(s) && cpu < |s.cpus| && VruntimeAtMost(s, bound)
    ensures ShapedQueue(s.cpus[cpu]) && KnownQueues(s, cpu)
    ensures VruntimeAtMost(PickNext(s, cpu, previous), bound)
    ensures PickNext(s, cpu, previous).tasks.Keys == s.tasks.Keys
  {
    hide FirstPickable, Best, InvBut, PickNext;
    PickNextIs(s, cpu, previous);
    if PickClass(s.cpus[cpu]).Some? {
      var c := PickClass(s.cpus[cpu]).value;
      QueueIsReady(s, cpu, c);
      InvDeficits(s);
      PickTasksSamePlace(s.tasks, s.cpus[cpu].queues[c], c);
    }
  }

  /** EVERY STEP keeps the invariant. */
  lemma StepInv(s: Sched, op: Op, s': Sched, bound: nat)
    requires Inv(s) && VruntimeAtMost(s, bound) && bound + Charge(op) < U64_MAX && Step(s, op, s')
    ensures Inv(s') && VruntimeAtMost(s', bound + Charge(op))
  {
    hide InvBut, PickNext, TaskQuantum, Enqueue;
    var cpu := OpCpu(op);
    PickStateOk(s, op, bound);
    match PickState(s, op, cpu)
    case Some(p) =>
      PickNextInv(p, cpu, Previous(s, op));
      PickKeepsVruntime(p, cpu, Previous(s, op), bound + Charge(op));
    case None =>
      QuietStepInv(s, op, s', bound);
  }

  lemma QuietStepInv(s: Sched, op: Op, s': Sched, bound: nat)
    requires Inv(s) && VruntimeAtMost(s, bound) && Step(s, op, s') && PickState(s, op, OpCpu(op)).None?
    ensures Inv(s') && VruntimeAtMost(s', bound)
  {
    hide InvBut, PickNext, TaskQuantum;
    match op
    case Add(id, hint, nice, preferred, cpu) => AddTaskInv(s, id, NewTask(hint, nice, preferred), cpu);
    case Yield(cpu) => YieldInv(s, cpu);
    case Block(cpu) => BlockInv(s, cpu);
    case Wake(id) => WakeInvIff(s, id);
    case Topology(n) => ConfigureInv(s, n);
    case Allocate => SameButCounters(s, s');
    case _ =>
  }

  lemma ConfigureInv(s: Sched, n: nat)
    requires Inv(s)
    ensures Inv(Configure(s, n))
  {
    if s.tasks == map[] && !s.started {
      NewInv(Max(n, 1));
      SameButCounters(NewSched().(cpus := seq(Max(n, 1), _ => NewRunQueue())), Configure(s, n));
    }
  }

  /** From a state of the invariant every enabled step can be taken. */
  lemma StepTotal(s: Sched, op: Op, bound: nat)
    requires Inv(s) && VruntimeAtMost(s, bound) && bound + Charge(op) < U64_MAX
    ensures Shaped(s)
    ensures Enabled(s, op) ==> exists s' :: Step(s, op, s')
  {
    hide InvBut, PickNext, TaskQuantum, Enqueue;
    InvShaped(s, {});
    if Enabled(s, op) {
      PickStateOk(s, op, bound);
      var cpu := OpCpu(op);
      match PickState(s, op, cpu)
      case Some(p) =>
        InvShaped(p, {});
        assert Step(s, op, PickNext(p, cpu, Previous(s, op)));
      case None =>
        match op {
          case Add(id, hint, nice, preferred, k) =>
            assert Step(s, op, AddTask(s, id, NewTask(hint, nice, preferred), k));
          case Yield(k) => assert Step(s, op, RequestYield(s, k));
          case Block(k) => assert Step(s, op, BlockCurrent(s, k));
          case Wake(id) => assert Step(s, op, WakeTask(s, id));
          case Topology(n) => assert Step(s, op, Configure(s, n));
          case Allocate => assert Step(s, op, IdAllocated(s));
          case Tick(_) => assert Step(s, op, s);
          case _ =>
        }
    }
  }

  ghost predicate Run(ss: seq<Sched>, ops: seq<Op>) {
    && |ss| == |ops| + 1
    && ss[0] == NewSched()
    && forall k :: 0 <= k < |ops| ==> Step(ss[k], ops[k], ss[k + 1])
  }

  function TotalCharge(ops: seq<Op>): nat {
    if ops == [] then 0 else TotalCharge(ops[..|ops| - 1]) + Charge(ops[|ops| - 1])
  }

  /**
   IN EVERY REACHABLE STATE, for fewer than 2^54 ticks from boot, state and location agree.
   */
  lemma {:induction false} RunInv(ss: seq<Sched>, ops: seq<Op>)
    requires Run(ss, ops) && TotalCharge(ops) < U64_MAX
    ensures forall k :: 0 <= k < |ss| ==> Inv(ss[k]) && Finite(ss[k])
    ensures VruntimeAtMost(ss[|ops|], TotalCharge(ops))
    decreases |ops|
  {
    hide Inv, Step;
    var n := |ops|;
    if n == 0 {
      NewIsInv();
    } else {
      var ss', ops' := ss[..n], ops[..n - 1];
      assert Run(ss', ops') by {
        forall k | 0 <= k < |ops'| ensures Step(ss'[k], ops'[k], ss'[k + 1]) { assert Step(ss[k], ops[k], ss[k + 1]); }
      }
      RunInv(ss', ops');
      assert Step(ss[n - 1], ops[n - 1], ss[n]);
      StepInv(ss[n - 1], ops[n - 1], ss[n], TotalCharge(ops'));
      forall k | 0 <= k < |ss| ensures Inv(ss[k]) && Finite(ss[k]) { if k < n { assert ss[k] == ss'[k]; } }
    }
  }

  // ----- waking a task before its CPU has switched away -----------------------------------------------------

  /** State and location agree: a task is queued where its state says, and nowhere else. */
  ghost predicate Agree(s: Sched) {
    forall id, k: nat, c: nat :: id in s.tasks ==>
      (QueuedAt(s, id, k, c) <==>
         s.tasks[id].state == Ready && k == s.tasks[id].lastCpu && c == s.tasks[id].cls)
  }

  lemma WakeShaped(s: Sched, id: TaskId)
    requires Inv(s) && Shaped(s) && id in s.tasks
    ensures Shaped(WakeTask(s, id)) && |WakeTask(s, id).cpus| == |s.cpus|
  {
  }

  /** Woken too early and then exited, a task is Exited and queued. */
  lemma EarlyWakeThenExit(s: Sched, id: TaskId)
    requires Inv(s) && Shaped(s) && id in s.tasks && StillCurrent(s, id)
    ensures var t := s.tasks[id];
            && Shaped(WakeTask(s, id)) && t.lastCpu < |WakeTask(s, id).cpus|
            && var s' := Retire(WakeTask(s, id), t.lastCpu);
               id in s'.tasks && s'.tasks[id].state == Exited && QueuedAt(s', id, t.lastCpu, t.cls)
  {
    hide TaskQuantum, InvBut;
    WakeShaped(s, id);
    NotFlagged(s, id);
    var t := s.tasks[id];
    var q := s.cpus[t.lastCpu].queues[t.cls];
    assert WakeTask(s, id).cpus[t.lastCpu].queues[t.cls] == q + [id];
  }

  /** WAKING: state and location still agree after an exit on the task's CPU iff the task was not current any more. */
  lemma WakeThenExitAgreesIff(s: Sched, id: TaskId)
    requires Inv(s) && Shaped(s) && id in s.tasks
    ensures Shaped(WakeTask(s, id)) && s.tasks[id].lastCpu < |WakeTask(s, id).cpus|
    ensures Agree(Retire(WakeTask(s, id), s.tasks[id].lastCpu)) <==> !StillCurrent(s, id)
  {
    hide InvBut, WakeTask, Retire, QueuedAt;
    var cpu := s.tasks[id].lastCpu;
    WakeShaped(s, id);
    if StillCurrent(s, id) {
      EarlyWakeThenExit(s, id);
    } else {
      WakeInvIff(s, id);
      RetireInv(WakeTask(s, id), cpu);
      InvAgrees(Retire(WakeTask(s, id), cpu));
    }
  }

  lemma InvAgrees(s: Sched)
    requires Inv(s)
    ensures Agree(s)
  {
    hide InvBut, QueuedAt;
    forall id | id in s.tasks
      ensures forall k: nat, c: nat :: QueuedAt(s, id, k, c) <==>
                s.tasks[id].state == Ready && k == s.tasks[id].lastCpu && c == s.tasks[id].cls
    {
      ReadyIffQueued(s, id);
    }
  }

  const FIRST_ADD: Op := Add(1, None, 0, None, 0)

  /** The first task added runs once the scheduler starts. */
  lemma FirstTaskRuns() returns (s1: Sched, s2: Sched)
    ensures Step(NewSched(), FIRST_ADD, s1) && Step(s1, Start, s2)
    ensures Inv(s2) && Shaped(s2) && VruntimeAtMost(s2, 0)
    ensures 1 in s2.tasks && s2.cpus[0].current == Some(1) && s2.tasks[1].lastCpu == 0
  {
    hide InvBut, PickNext, TaskQuantum;
    var s0 := NewSched();
    s1 := AddTask(s0, 1, NewTask(None, 0, None), 0);
    assert Step(s0, FIRST_ADD, s1);
    NewIsInv();
    StepInv(s0, FIRST_ADD, s1, 0);
    var started := s1.(started := true);
    SameButCounters(s1, started);
    InvShaped(started, {});
    s2 := PickNext(started, 0, None);
    StepInv(s1, Start, s2, 0);
    WorkConserving(started, 0, None);
    PickKeepsVruntime(started, 0, None, 0);
    InvShaped(s2, {});
    CurrentState(s2, 0);
  }

  /** WITNESS: adding a task, starting and blocking reaches a state in which waking it is too early. */
  lemma EarlyWakeReachable() returns (ss: seq<Sched>, ops: seq<Op>)
    ensures Run(ss, ops)
    ensures var s := ss[|ops|];
            && Inv(s) && Shaped(s) && 1 in s.tasks && StillCurrent(s, 1)
            && Shaped(WakeTask(s, 1)) && !Agree(Retire(WakeTask(s, 1), s.tasks[1].lastCpu))
  {
    hide InvBut, PickNext, WakeTask, Retire, Agree;
    var s1, s2 := FirstTaskRuns();
    var s3 := BlockCurrent(s2, 0);
    assert Step(s2, Block(0), s3);
    StepInv(s2, Block(0), s3, 0);
    ss, ops := [NewSched(), s1, s2, s3], [FIRST_ADD, Start, Block(0)];
    WakeThenExitAgreesIff(s3, 1);
  }

  // ----- adding a task whose id is in use -------------------------------------------------------------------

  /** State and location agree, and no queue holds a task twice. */
  ghost predicate Settled(s: Sched) {
    Agree(s) && forall k: nat, c: nat :: k < |s.cpus| && c < |s.cpus[k].queues| ==> OnceEach(s.cpus[k].queues[c])
  }

  /** An exit on any CPU leaves state and location in agreement. */
  ghost predicate SettledAfterExit(s: Sched)
    requires Shaped(s)
  {
    forall k: nat :: k < |s.cpus| ==> Settled(Retire(s, k))
  }

  lemma InvSettled(s: Sched)
    requires Inv(s)
    ensures Settled(s)
  {
    hide InvBut, Agree;
    InvAgrees(s);
    forall k: nat, c: nat | k < |s.cpus| && c < |s.cpus[k].queues| ensures OnceEach(s.cpus[k].queues[c]) {
      QueueOnce(s, k, c);
    }
  }

  lemma QueueOnce(s: Sched, k: nat, c: nat)
    requires Inv(s) && k < |s.cpus| && c < |s.cpus[k].queues|
    ensures OnceEach(s.cpus[k].queues[c])
  {
    assert QueueBasics(s.cpus[k]) && QueueContents(s, k, c);
  }

  lemma AddShaped(s: Sched, id: TaskId, fresh_: Task, cpu: nat)
    requires Shaped(s) && cpu < |s.cpus|
    ensures Shaped(AddTask(s, id, fresh_, cpu)) && |AddTask(s, id, fresh_, cpu).cpus| == |s.cpus|
  {
  }

  /** A queued id added again stays where it was, and is queued a second time. */
  lemma ReuseQueued(s: Sched, id: TaskId, fresh_: Task, cpu: nat)
    requires Inv(s) && Shaped(s) && cpu < |s.cpus| && fresh_.state == Ready && !fresh_.queued
    requires id in s.tasks && s.tasks[id].state == Ready
    ensures Shaped(AddTask(s, id, fresh_, cpu)) && |AddTask(s, id, fresh_, cpu).cpus| == |s.cpus|
    ensures !Settled(Retire(AddTask(s, id, fresh_, cpu), s.tasks[id].lastCpu))
  {
    hide InvBut, TaskQuantum;
    AddShaped(s, id, fresh_, cpu);
    PlaceOf(s, id);
    var t, u := s.tasks[id], Placed(fresh_, cpu);
    var s' := Retire(AddTask(s, id, fresh_, cpu), t.lastCpu);
    var q, q' := s.cpus[t.lastCpu].queues[t.cls], s'.cpus[t.lastCpu].queues[t.cls];
    var i :| 0 <= i < |q| && q[i] == id;
    if t.lastCpu == cpu && t.cls == u.cls {
      assert q' == q + [id];
      assert q'[i] == q'[|q|];
    } else {
      assert q'[i] == id;
      assert QueuedAt(s', id, t.lastCpu, t.cls);
    }
  }

  /** A current id added again is queued, and still there once its CPU has exited it. */
  lemma ReuseCurrent(s: Sched, id: TaskId, fresh_: Task, cpu: nat)
    requires Inv(s) && Shaped(s) && cpu < |s.cpus| && fresh_.state == Ready && !fresh_.queued
    requires id in s.tasks && s.cpus[s.tasks[id].lastCpu].current == Some(id)
    ensures Shaped(AddTask(s, id, fresh_, cpu)) && |AddTask(s, id, fresh_, cpu).cpus| == |s.cpus|
    ensures var s' := Retire(AddTask(s, id, fresh_, cpu), s.tasks[id].lastCpu);
            id in s'.tasks && s'.tasks[id].state == Exited && QueuedAt(s', id, cpu, Placed(fresh_, cpu).cls)
  {
    hide InvBut, TaskQuantum;
    AddShaped(s, id, fresh_, cpu);
    var c := Placed(fresh_, cpu).cls;
    assert AddTask(s, id, fresh_, cpu).cpus[cpu].queues[c] == s.cpus[cpu].queues[c] + [id];
  }

  /** ADDING: state and location agree after an exit on any CPU iff the id was not that of a task in play. */
  lemma AddThenExitSettledIff(s: Sched, id: TaskId, fresh_: Task, cpu: nat)
    requires Inv(s) && Shaped(s) && cpu < |s.cpus| && fresh_.state == Ready && !fresh_.queued
    ensures Shaped(AddTask(s, id, fresh_, cpu))
    ensures SettledAfterExit(AddTask(s, id, fresh_, cpu)) <==> IdFree(s, id)
  {
    hide InvBut, AddTask, Retire, Agree, QueuedAt;
    AddShaped(s, id, fresh_, cpu);
    var s' := AddTask(s, id, fresh_, cpu);
    if IdFree(s, id) {
      AddInvIff(s, id, fresh_, cpu);
      forall k: nat | k < |s'.cpus| ensures Settled(Retire(s', k)) {
        RetireInv(s', k);
        InvSettled(Retire(s', k));
      }
    } else {
      PlaceOf(s, id);
      if s.tasks[id].state == Ready {
        ReuseQueued(s, id, fresh_, cpu);
      } else {
        ReuseCurrent(s, id, fresh_, cpu);
        ExitedButQueued(Retire(s', s.tasks[id].lastCpu), id, cpu, Placed(fresh_, cpu).cls);
      }
    }
  }

  lemma ExitedButQueued(s: Sched, id: TaskId, k: nat, c: nat)
    requires id in s.tasks && s.tasks[id].state == Exited && QueuedAt(s, id, k, c)
    ensures !Agree(s)
  {
    hide QueuedAt;
  }

  /** WITNESS: adding the first task a second time queues it twice. */
  lemma ReuseReachable() returns (ss: seq<Sched>, ops: seq<Op>)
    ensures Run(ss, ops)
    ensures var s := ss[|ops|];
            && Inv(s) && Shaped(s) && 1 in s.tasks && Selected(s, 0, None, 0)
            && AddTask(s, 1, NewTask(None, 0, None), 0).cpus[0].queues[NORMAL] == [1, 1]
  {
    hide InvBut, TaskQuantum;
    var s0 := NewSched();
    var s1 := AddTask(s0, 1, NewTask(None, 0, None), 0);
    assert Step(s0, FIRST_ADD, s1);
    NewIsInv();
    StepInv(s0, FIRST_ADD, s1, 0);
    InvShaped(s1, {});
    ss, ops := [s0, s1], [FIRST_ADD];
  }

  /** WITNESS: adding it again while it runs, and then exiting it, leaves it Exited and queued. */
  lemma RunningReuseReachable() returns (ss: seq<Sched>, ops: seq<Op>)
    ensures Run(ss, ops)
    ensures var s := ss[|ops|];
            && Inv(s) && Shaped(s) && 1 in s.tasks && s.cpus[0].current == Some(1)
            && var s' := AddTask(s, 1, NewTask(None, 0, None), 0);
               Shaped(s') && var e := Retire(s', 0);
               1 in e.tasks && e.tasks[1].state == Exited && QueuedAt(e, 1, 0, NORMAL)
  {
    hide InvBut, PickNext, AddTask, Retire, TaskQuantum, Step;
    var s1, s2 := FirstTaskRuns();
    ss, ops := [NewSched(), s1, s2], [FIRST_ADD, Start];
    ReuseCurrent(s2, 1, NewTask(None, 0, None), 0);
  }

  // ----- ids from allocate_task_id --------------------------------------------------------------------------

  /** Until the counter saturates, every id in use is below it. */
  ghost predicate IdsBelow(s: Sched) {
    s.nextTaskId <= U64_MAX && (s.nextTaskId < U64_MAX ==> forall id :: id in s.tasks ==> id < s.nextTaskId)
  }

  lemma PickNextKeys(s: Sched, cpu: nat, previous: Option<TaskId>)
    requires cpu < |s.cpus| && ShapedQueue(s.cpus[cpu]) && KnownQueues(s, cpu)
    ensures PickNext(s, cpu, previous).tasks.Keys == s.tasks.Keys
    ensures PickNext(s, cpu, previous).nextTaskId == s.nextTaskId
  {
    hide FirstPickable, Best, PickTasks, RefillDeficit;
    var rq := PickQueue(s.cpus[cpu]);
    if FirstPickable(rq, 0).Some? {
      var c := FirstPickable(rq, 0).value;
      assert KnownTasks(s.tasks, rq.queues[c]);
    }
  }

  /** Only adding changes which ids are in use; only adding and allocating move the counter, and only up. */
  lemma StepKeys(s: Sched, op: Op, s': Sched)
    requires Step(s, op, s')
    ensures s'.tasks.Keys == s.tasks.Keys + (if op.Add? then {op.id} else {})
    ensures s'.nextTaskId == if op.Add? then Max(s.nextTaskId, SaturatingAdd(op.id, 1))
                             else if op.Allocate? then SaturatingAdd(AllocatedId(s), 1) else s.nextTaskId
  {
    hide PickNext, TaskQuantum, Charged, NewTask;
    match PickState(s, op, OpCpu(op))
    case Some(p) => PickNextKeys(p, OpCpu(op), Previous(s, op));
    case None =>
  }

  lemma {:induction false} RunIdsBelow(ss: seq<Sched>, ops: seq<Op>, k: nat)
    requires Run(ss, ops) && k <= |ops|
    ensures IdsBelow(ss[k])
  {
    hide Step;
    if k > 0 {
      RunIdsBelow(ss, ops, k - 1);
      assert Step(ss[k - 1], ops[k - 1], ss[k - 1 + 1]);
      StepKeys(ss[k - 1], ops[k - 1], ss[k]);
    }
  }

  /** IDS: from its allocation until it is added, an allocated id is free, so adding it keeps the invariant. */
  lemma {:induction false} AllocatedIdFree(ss: seq<Sched>, ops: seq<Op>, j: nat, k: nat)
    requires Run(ss, ops) && j < k <= |ops| && ops[j] == Allocate && ss[j].nextTaskId < U64_MAX
    requires forall i :: j < i < k && ops[i].Add? ==> ops[i].id != AllocatedId(ss[j])
    ensures AllocatedId(ss[j]) !in ss[k].tasks
    decreases k
  {
    hide Step;
    assert Step(ss[k - 1], ops[k - 1], ss[k - 1 + 1]);
    StepKeys(ss[k - 1], ops[k - 1], ss[k]);
    if k == j + 1 { RunIdsBelow(ss, ops, j); } else { AllocatedIdFree(ss, ops, j, k - 1); }
  }

  lemma {:induction false} CounterGrows(ss: seq<Sched>, ops: seq<Op>, j: nat, k: nat)
    requires Run(ss, ops) && j <= k <= |ops|
    ensures ss[j].nextTaskId <= ss[k].nextTaskId
    decreases k
  {
    hide Step;
    if j < k {
      assert Step(ss[k - 1], ops[k - 1], ss[k - 1 + 1]);
      StepKeys(ss[k - 1], ops[k - 1], ss[k]);
      RunIdsBelow(ss, ops, k - 1);
      CounterGrows(ss, ops, j, k - 1);
    }
  }

  /** No id is allocated twice before the counter saturates. */
  lemma AllocatedOnce(ss: seq<Sched>, ops: seq<Op>, j: nat, k: nat)
    requires Run(ss, ops) && j < k < |ops| && ops[j] == Allocate && ops[k] == Allocate
    requires ss[j].nextTaskId < U64_MAX
    ensures AllocatedId(ss[j]) < AllocatedId(ss[k])
  {
    hide Step;
    assert Step(ss[j], ops[j], ss[j + 1]);
    StepKeys(ss[j], ops[j], ss[j + 1]);
    CounterGrows(ss, ops, j + 1, k);
  }
}
