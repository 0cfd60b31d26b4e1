/** What accounting does to a task over a whole run: ranges, and a class that settles. */
module SchedulerAccounting {
  import opened Common
  import opened SchedulerState
  import opened SchedulerSteps

  // ----- weights -----------------------------------------------------------------------------------

  lemma WeightRange(c: ClassId, nice: Nice)
    ensures 1 <= ClassWeight(c) * NiceWeight(nice) <= 160
  {
    var w := NiceWeight(nice);
    assert c == 0 ==> ClassWeight(c) * w == 4 * w;
    assert c == 1 ==> ClassWeight(c) * w == 3 * w;
    assert c == 2 ==> ClassWeight(c) * w == 2 * w;
    assert c == 3 ==> ClassWeight(c) * w == w;
  }

  lemma DivAntitone(n: nat, a: nat, b: nat)
    requires 0 < a <= b
    ensures n / b <= n / a
  {
    var q, r := n / b, n / a;
    assert b * q <= n < a * r + a;
    Products(a, b, q, q);
    Cancel(n, a, q, r);
  }

  lemma Cancel(n: nat, a: nat, q: nat, r: nat)
    requires a * q <= n < a * r + a
    ensures q <= r
  {
    assert a * (r + 1) == a * r + a;
    Ordered(a, r + 1, q);
  }

  lemma Ordered(a: nat, x: nat, y: nat)
    ensures x <= y ==> a * x <= a * y
  {
    if x <= y { Products(a, a, x, y); }
  }

  /** A tick costs between 6 and 1024 units of virtual time. */
  lemma DeltaRange(c: ClassId, nice: Nice)
    ensures 6 <= VruntimeDelta(c, nice) <= 1024
  {
    WeightRange(c, nice);
    var w := ClassWeight(c) * NiceWeight(nice);
    DivAntitone(1024, w, 160);
    DivAntitone(1024, 1, w);
  }

  /** A better class and a lower nice value never cost more virtual time, and never get a shorter quantum. */
  lemma BetterIsCheaper(c: ClassId, nice: Nice, c': ClassId, nice': Nice)
    requires c <= c' && nice <= nice'
    ensures VruntimeDelta(c, nice) <= VruntimeDelta(c', nice')
    ensures TaskQuantum(c, nice) >= TaskQuantum(c', nice')
  {
    WeightRange(c, nice);
    WeightRange(c', nice');
    Products(ClassWeight(c'), ClassWeight(c), NiceWeight(nice'), NiceWeight(nice));
    Products(ClassQuantum(c'), ClassQuantum(c), NiceWeight(nice'), NiceWeight(nice));
    DivAntitone(1024, ClassWeight(c') * NiceWeight(nice'), ClassWeight(c) * NiceWeight(nice));
  }

  lemma Products(a: nat, b: nat, v: nat, w: nat)
    requires a <= b && v <= w
    ensures a * v <= b * w
  {
    assert a * v <= b * v by { assert (b - a) * v >= 0; }
    assert b * v <= b * w by { assert b * (w - v) >= 0; }
  }

  // ----- one task --------------------------------------------------------------------------------------

  predicate InRange(t: Task) {
    t.vruntime <= U64_MAX && t.fullSliceRuns <= U64_MAX && t.runnableAvg <= RUNNABLE_SCALE
        && t.sleepCredit <= MAX_SLEEP_CREDIT
  }

  predicate EarnedHog(t: Task) {
    t.runnableAvg >= HOG_UTIL_THRESHOLD && t.fullSliceRuns >= HOG_SLICE_THRESHOLD
  }

  /** A hint decides the class; without one a task is Background, Normal, or a Hog that earned it. */
  predicate ClassOk(t: Task) {
    if t.classHint.Some? then t.cls == t.classHint.value
    else if t.nice >= 10 then t.cls == BACKGROUND
    else t.cls == NORMAL || (t.cls == HOG && EarnedHog(t))
  }

  /** Time only goes forward, and the class changes at most from Normal to Hog. */
  predicate Settles(a: Task, b: Task) {
    && b.nice == a.nice && b.classHint == a.classHint
    && a.vruntime <= b.vruntime && a.runnableAvg <= b.runnableAvg && a.fullSliceRuns <= b.fullSliceRuns
    && (b.cls == a.cls || (a.cls == NORMAL && b.cls == HOG && a.classHint.None?))
  }

  ghost predicate Evolves(a: Task, b: Task) {
    InRange(a) && ClassOk(a) ==> InRange(b) && ClassOk(b) && Settles(a, b)
  }

  lemma ChargedEvolves(t: Task)
    ensures Evolves(t, Charged(t))
  {
    hide TaskQuantum, VruntimeDelta;
  }

  lemma WokenEvolves(t: Task, tick: nat)
    ensures Evolves(t, Woken(t, tick))
  {
    hide TaskQuantum;
  }

  /** Each tick on the CPU advances a task's virtual time, by at least 6 and at most 1024. */
  lemma ChargedAdvances(t: Task)
    requires t.vruntime + 1024 <= U64_MAX
    ensures t.vruntime + 6 <= Charged(t).vruntime <= t.vruntime + 1024
  {
    hide TaskQuantum, VruntimeDelta;
    DeltaRange(t.cls, t.nice);
  }

  // ----- steps -------------------------------------------------------------------------------------------

  ghost predicate AllEvolve(s: Sched, s': Sched) {
    forall id <- s.tasks :: id in s'.tasks && Evolves(s.tasks[id], s'.tasks[id])
  }

  ghost predicate AllOk(s: Sched) {
    forall id <- s.tasks :: InRange(s.tasks[id]) && ClassOk(s.tasks[id])
  }

  lemma EnqueueEvolves(s: Sched, id: TaskId)
    requires Shaped(s) && id in s.tasks
    ensures AllEvolve(s, Enqueue(s, id)) && Enqueue(s, id).tasks.Keys == s.tasks.Keys
  {
  }

  lemma EvolveTwice(s: Sched, s1: Sched, s2: Sched)
    requires AllEvolve(s, s1) && AllEvolve(s1, s2)
    ensures AllEvolve(s, s2)
  {
    forall id <- s.tasks ensures id in s2.tasks && Evolves(s.tasks[id], s2.tasks[id]) {
      assert Evolves(s.tasks[id], s1.tasks[id]) && Evolves(s1.tasks[id], s2.tasks[id]);
    }
  }

  lemma AccountEvolves(s: Sched, cpu: nat)
    requires Shaped(s) && cpu < |s.cpus| && s.cpus[cpu].current.Some?
    ensures AllEvolve(s, Account(s, cpu)) && Account(s, cpu).tasks.Keys == s.tasks.Keys
  {
    hide Charged, Enqueue, Evolves;
    var id := s.cpus[cpu].current.value;
    var s1 := SetTask(s, id, Charged(s.tasks[id]));
    ChargedEvolves(s.tasks[id]);
    SamePlaceShaped(s, id);
    forall k <- s.tasks ensures Evolves(s.tasks[k], s1.tasks[k]) { if k != id { SelfEvolves(s.tasks[k]); } }
    EnqueueEvolves(s1, id);
    EvolveTwice(s, s1, Enqueue(s1, id));
    Shifted(s, Enqueue(s1, id), Account(s, cpu));
  }

  lemma SamePlaceShaped(s: Sched, id: TaskId)
    requires Shaped(s) && id in s.tasks
    ensures Shaped(SetTask(s, id, Charged(s.tasks[id])))
  {
    hide TaskQuantum, VruntimeDelta;
  }

  lemma SelfEvolves(t: Task)
    ensures Evolves(t, t)
  {
  }

  lemma Shifted(s: Sched, s1: Sched, s2: Sched)
    requires AllEvolve(s, s1) && s2.tasks == s1.tasks
    ensures AllEvolve(s, s2)
  {
  }

  lemma PickTasksEvolve(tasks: map<TaskId, Task>, q: seq<TaskId>, c: ClassId, id: TaskId)
    requires KnownTasks(tasks, q) && id in tasks
    ensures Evolves(tasks[id], PickTasks(tasks, q, c)[id])
  {
    hide Best, TaskQuantum;
  }

  lemma DispatchedEvolves(t: Task, u: Task, cpu: nat, resumed: bool)
    requires Evolves(t, u)
    ensures Evolves(t, Dispatched(u, cpu, resumed))
  {
    hide TaskQuantum;
  }

  lemma PickEvolves(s: Sched, cpu: nat, previous: Option<TaskId>)
    requires cpu < |s.cpus| && ShapedQueue(s.cpus[cpu]) && KnownQueues(s, cpu)
    ensures AllEvolve(s, PickNext(s, cpu, previous)) && PickNext(s, cpu, previous).tasks.Keys == s.tasks.Keys
  {
    hide FirstPickable, Best, TaskQuantum, Evolves, PickTasks, Dispatched;
    var rq := PickQueue(s.cpus[cpu]);
    var s' := PickNext(s, cpu, previous);
    forall id <- s.tasks ensures id in s'.tasks && Evolves(s.tasks[id], s'.tasks[id]) {
      SelfEvolves(s.tasks[id]);
      if FirstPickable(rq, 0).Some? {
        var c := FirstPickable(rq, 0).value;
        var q := rq.queues[c];
        PickTasksEvolve(s.tasks, q, c, id);
        if PickIndex(s.tasks, q, c).Some? {
          var p := q[PickIndex(s.tasks, q, c).value];
          var u := PickTasks(s.tasks, q, c)[id];
          DispatchedEvolves(s.tasks[id], u, cpu, previous == Some(p));
          assert s'.tasks[id] == if id == p then Dispatched(u, cpu, previous == Some(p)) else u;
        }
      }
    }
  }

  /** Up to its pick, a step only charges the running task. */
  lemma PickStateEvolves(s: Sched, op: Op)
    requires Shaped(s) && Enabled(s, op)
    ensures PickState(s, op, OpCpu(op)).Some? ==>
              var p := PickState(s, op, OpCpu(op)).value; AllEvolve(s, p) && p.tasks.Keys == s.tasks.Keys
  {
    hide Account, Evolves;
    forall t: Task ensures Evolves(t, t) { SelfEvolves(t); }
    match op
    case Tick(k) =>
      var s1 := s.(tick := (s.tick + 1) % (U64_MAX + 1));
      if s.cpus[k].current.Some? { AccountEvolves(s1, k); }
    case Exit(k) => RetireEvolves(s, k);
    case _ =>
  }

  lemma RetireEvolves(s: Sched, cpu: nat)
    requires Shaped(s) && cpu < |s.cpus|
    ensures AllEvolve(s, Retire(s, cpu)) && Retire(s, cpu).tasks.Keys == s.tasks.Keys
  {
  }

  lemma QuietEvolves(s: Sched, op: Op, s': Sched)
    requires Step(s, op, s') && PickState(s, op, OpCpu(op)).None?
    ensures AllEvolve(s, s')
    ensures forall id <- s'.tasks :: id in s.tasks || (InRange(s'.tasks[id]) && ClassOk(s'.tasks[id]))
  {
    hide TaskQuantum, Enqueue;
    match op
    case Add(id, hint, nice, preferred, cpu) => AddEvolves(s, id, hint, nice, preferred, cpu);
    case Wake(id) => WakeEvolves(s, id);
    case _ =>
  }

  lemma AddEvolves(s: Sched, id: TaskId, hint: Option<ClassId>, nice: int, preferred: Option<nat>, cpu: nat)
    requires Shaped(s) && cpu < |s.cpus| && id !in s.tasks
    ensures var s' := AddTask(s, id, NewTask(hint, nice, preferred), cpu);
            AllEvolve(s, s') && forall k <- s'.tasks :: k in s.tasks || (InRange(s'.tasks[k]) && ClassOk(s'.tasks[k]))
  {
    hide TaskQuantum;
  }

  lemma WakeEvolves(s: Sched, id: TaskId)
    requires Shaped(s) && id in s.tasks
    ensures AllEvolve(s, WakeTask(s, id)) && WakeTask(s, id).tasks.Keys == s.tasks.Keys
  {
    hide TaskQuantum;
    WokenEvolves(s.tasks[id], s.tick);
  }

  lemma StepEvolves(s: Sched, op: Op, s': Sched)
    requires Step(s, op, s') && AllOk(s)
    ensures AllEvolve(s, s') && AllOk(s')
  {
    hide Evolves, PickNext;
    PickStateEvolves(s, op);
    match PickState(s, op, OpCpu(op))
    case Some(p) =>
      PickEvolves(p, OpCpu(op), Previous(s, op));
      EvolveTwice(s, p, s');
      OkFrom(s, s');
    case None =>
      QuietEvolves(s, op, s');
      OkWithNew(s, s');
  }

  lemma OkFrom(s: Sched, s': Sched)
    requires AllOk(s) && AllEvolve(s, s') && s'.tasks.Keys == s.tasks.Keys
    ensures AllOk(s')
  {
    forall id <- s'.tasks ensures InRange(s'.tasks[id]) && ClassOk(s'.tasks[id]) { assert id in s.tasks; }
  }

  lemma OkWithNew(s: Sched, s': Sched)
    requires AllOk(s) && AllEvolve(s, s')
    requires forall id <- s'.tasks :: id in s.tasks || (InRange(s'.tasks[id]) && ClassOk(s'.tasks[id]))
    ensures AllOk(s')
  {
  }

  // ----- runs ----------------------------------------------------------------------------------------------

  /** In every reachable state the counters are in range and every class is one the task has earned. */
  lemma {:induction false} RunOk(ss: seq<Sched>, ops: seq<Op>, k: nat)
    requires Run(ss, ops) && k <= |ops|
    ensures AllOk(ss[k])
  {
    hide Step;
    if k > 0 {
      RunOk(ss, ops, k - 1);
      assert Step(ss[k - 1], ops[k - 1], ss[k - 1 + 1]);
      StepEvolves(ss[k - 1], ops[k - 1], ss[k]);
    }
  }

  /**
   Over every run a task's class changes at most once: without a hint and with nice below 10, from
   Normal to Hog, and never back. Its virtual time never goes back either.
   */
  lemma {:induction false} ClassSettles(ss: seq<Sched>, ops: seq<Op>, i: nat, j: nat, id: TaskId)
    requires Run(ss, ops) && i <= j <= |ops| && id in ss[i].tasks
    ensures id in ss[j].tasks && Settles(ss[i].tasks[id], ss[j].tasks[id])
    ensures ss[i].tasks[id].cls == HOG ==> ss[j].tasks[id].cls == HOG
    decreases j - i
  {
    hide Step, InRange, ClassOk;
    if i < j {
      ClassSettles(ss, ops, i, j - 1, id);
      assert Step(ss[j - 1], ops[j - 1], ss[j - 1 + 1]);
      RunOk(ss, ops, j - 1);
      StepEvolves(ss[j - 1], ops[j - 1], ss[j]);
      assert Evolves(ss[j - 1].tasks[id], ss[j].tasks[id]);
    }
  }

  /** Sleeping moves a task forward in the queue by at most 256 units of virtual time. */
  lemma CreditBounded(ss: seq<Sched>, ops: seq<Op>, k: nat, id: TaskId)
    requires Run(ss, ops) && k <= |ops| && id in ss[k].tasks
    ensures Effective(ss[k].tasks[id]) <= ss[k].tasks[id].vruntime <= Effective(ss[k].tasks[id]) + 256
  {
    RunOk(ss, ops, k);
  }
}
