/** The scheduler itself: fields updated in place, each method proved to make the step it stands for. */
module SchedulerClass {
  import opened Common
  import opened SchedulerState
  import opened SchedulerInvariant
  import opened SchedulerSteps

  lemma {:induction false} BestPrefix(tasks: map<TaskId, Task>, q: seq<TaskId>, n: nat)
    requires KnownTasks(tasks, q) && n < |q|
    ensures var b := Best(tasks, q[..n]);
            Best(tasks, q[..n + 1]) ==
            if Eligible(tasks[q[n]]) && (b.None? || Effective(tasks[q[n]]) < Effective(tasks[q[b.value]]))
            then Some(n) else b
  {
    assert q[..n + 1][..n] == q[..n];
  }

  /** `iter().position`. */
  method Position(q: seq<TaskId>, id: TaskId) returns (i: nat)
    requires id in q
    ensures i < |q| && q[i] == id && forall k :: 0 <= k < i ==> q[k] != id
  {
    i := 0;
    while q[i] != id
      invariant i < |q| && forall k :: 0 <= k < i ==> q[k] != id
      invariant exists k :: i <= k < |q| && q[k] == id
      decreases |q| - i
    {
      i := i + 1;
    }
  }

  class Scheduler {
    var tasks: map<TaskId, Task>
    var cpus: seq<RunQueue>
    var tick: nat
    var started: bool
    var nextTaskId: nat

    ghost function State(): Sched
      reads this
    {
      Sched(tasks, cpus, tick, started, nextTaskId)
    }

    constructor ()
      ensures State() == NewSched() && Inv(State())
    {
      tasks, cpus, tick, started, nextTaskId := map[], [NewRunQueue()], 0, false, 1;
      new;
      NewInv(1);
      assert NewSched().(cpus := seq(1, _ => NewRunQueue())) == NewSched() by {
        assert seq(1, _ => NewRunQueue()) == [NewRunQueue()];
      }
    }

    method SelectCpu(last: nat, preferred: Option<nat>) returns (k: nat)
      requires Shaped(State()) && last < |cpus|
      ensures k < |cpus| && Selected(State(), last, preferred, k)
    {
      if Idle(cpus[last]) {
        return last;
      }
      if preferred.Some? && preferred.value < |cpus| && Idle(cpus[preferred.value]) {
        return preferred.value;
      }
      k := 0;
      for j := 1 to |cpus|
        invariant k < j <= |cpus|
        invariant forall m :: 0 <= m < j ==> Load(cpus[k]) <= Load(cpus[m])
        invariant forall m :: 0 <= m < k ==> Load(cpus[k]) < Load(cpus[m])
      {
        if Load(cpus[j]) < Load(cpus[k]) {
          k := j;
        }
      }
    }

    method EnqueueTask(id: TaskId)
      requires Shaped(State()) && id in tasks
      modifies `tasks, `cpus
      ensures State() == Enqueue(old(State()), id)
    {
      var t := tasks[id];
      if t.state != Ready || t.queued {
        return;
      }
      var rq := cpus[t.lastCpu];
      cpus := cpus[t.lastCpu := SetQueue(rq, t.cls, rq.queues[t.cls] + [id])];
      tasks := tasks[id := tasks[id].(queued := true)];
    }

    /** `add_task`; a task that has the id already is replaced. */
    method AddTask(id: TaskId, hint: Option<ClassId>, nice: int, preferred: Option<nat>) returns (cpu: nat)
      requires Inv(State())
      modifies this
      ensures Shaped(old(State())) && cpu < |old(cpus)| && Selected(old(State()), 0, preferred, cpu)
      ensures State() == SchedulerState.AddTask(old(State()), id, NewTask(hint, nice, preferred), cpu)
      ensures Inv(State()) <==> IdFree(old(State()), id)
      ensures id !in old(tasks) ==> Step(old(State()), Add(id, hint, nice, preferred, cpu), State())
    {
      hide InvBut, Enqueue, Placed;
      InvShaped(State(), {});
      var t := NewTask(hint, nice, preferred);
      cpu := SelectCpu(t.lastCpu, preferred);
      AddInvIff(State(), id, t, cpu);
      tasks := tasks[id := Placed(t, cpu)];
      EnqueueTask(id);
      nextTaskId := Max(nextTaskId, SaturatingAdd(id, 1));
    }

    method AllocateTaskId() returns (id: TaskId)
      requires Inv(State())
      modifies `nextTaskId
      ensures id == AllocatedId(old(State()))
      ensures Inv(State()) && Step(old(State()), Allocate, State())
    {
      hide InvBut;
      InvShaped(State(), {});
      ghost var s := State();
      id := Max(nextTaskId, 1);
      nextTaskId := SaturatingAdd(id, 1);
      SameButCounters(s, State());
    }

    method RefillTaskDeficits(cpu: nat, c: ClassId)
      requires cpu < |cpus| && ShapedQueue(cpus[cpu]) && KnownTasks(tasks, cpus[cpu].queues[c])
      requires OnceEach(cpus[cpu].queues[c])
      modifies `tasks
      ensures tasks == RefillTasks(old(tasks), cpus[cpu].queues[c], c)
    {
      hide RefillTask;
      var snapshot := cpus[cpu].queues[c];
      for i := 0 to |snapshot|
        invariant tasks.Keys == old(tasks).Keys
        invariant forall id :: id in tasks ==>
                    tasks[id] == if id in snapshot[..i] then RefillTask(old(tasks)[id], c) else old(tasks)[id]
      {
        var id := snapshot[i];
        assert id !in snapshot[..i];
        tasks := tasks[id := RefillTask(tasks[id], c)];
        assert snapshot[..i + 1] == snapshot[..i] + [id];
      }
      assert snapshot[..|snapshot|] == snapshot;
    }

    /** One pass over the queue: the least effective vruntime among tasks with deficit left. */
    method FindBest(cpu: nat, c: ClassId) returns (best: Option<TaskId>)
      requires cpu < |cpus| && ShapedQueue(cpus[cpu]) && KnownTasks(tasks, cpus[cpu].queues[c])
      ensures var b := Best(tasks, cpus[cpu].queues[c]);
              best == if b.Some? then Some(cpus[cpu].queues[c][b.value]) else None
    {
      hide Best;
      var snapshot := cpus[cpu].queues[c];
      best := None;
      var bestVruntime := U64_MAX;
      BestOfNothing(tasks);
      for i := 0 to |snapshot|
        invariant var b := Best(tasks, snapshot[..i]);
                  && best == (if b.Some? then Some(snapshot[b.value]) else None)
                  && bestVruntime == (if b.Some? then Effective(tasks[snapshot[b.value]]) else U64_MAX)
      {
        BestPrefix(tasks, snapshot, i);
        var t := tasks[snapshot[i]];
        if t.state == Ready && t.deficit > 0 {
          var effective := SaturatingSub(t.vruntime, t.sleepCredit);
          if effective < bestVruntime {
            bestVruntime := effective;
            best := Some(snapshot[i]);
          }
        }
      }
      assert snapshot[..|snapshot|] == snapshot;
    }

    /** `pick_task_from_class`: takes the task that `PickIndex` names out of the queue. */
    method PickTaskFromClass(cpu: nat, c: ClassId) returns (r: Option<TaskId>)
      requires Inv(State()) && Finite(State()) && cpu < |cpus|
      requires ShapedQueue(cpus[cpu]) && KnownQueues(State(), cpu)
      modifies `tasks, `cpus
      ensures r.None? <==> old(cpus[cpu].queues[c]) == []
      ensures r.None? ==> State() == old(State())
      ensures r.Some? ==>
                var q := old(cpus[cpu].queues[c]);
                var i := PickIndex(old(tasks), q, c);
                && i.Some? && i.value < |q| && r == Some(q[i.value]) && q[i.value] in PickTasks(old(tasks), q, c)
                && cpus == old(cpus)[cpu := SetQueue(old(cpus[cpu]), c, RemoveAt(q, i.value))]
                && var refilled := PickTasks(old(tasks), q, c);
                   tasks == refilled[q[i.value] := refilled[q[i.value]].(queued := false)]
    {
      hide InvBut, Best, RefillTasks, Finite;
      ghost var q := cpus[cpu].queues[c];
      QueueOnce(State(), cpu, c);
      QueueIsReady(State(), cpu, c);
      var best := FindBest(cpu, c);
      if best.None? {
        RefillTaskDeficits(cpu, c);
        best := FindBest(cpu, c);
      }
      if best.None? {
        if q != [] { PickIndexFinds(old(tasks), q, c); }
        RefillEmpty(old(tasks), c);
        return None;
      }
      var id := best.value;
      var position := Position(cpus[cpu].queues[c], id);
      cpus := cpus[cpu := SetQueue(cpus[cpu], c, RemoveAt(cpus[cpu].queues[c], position))];
      tasks := tasks[id := tasks[id].(queued := false)];
      return Some(id);
    }

    method HasReadyTaskInClass(cpu: nat, c: ClassId) returns (b: bool)
      requires Inv(State()) && cpu < |cpus| && ShapedQueue(cpus[cpu])
      ensures b <==> cpus[cpu].queues[c] != []
    {
      ghost var q := cpus[cpu].queues[c];
      assert QueueContents(State(), cpu, c);
      for i := 0 to |cpus[cpu].queues[c]|
        invariant forall k :: 0 <= k < i ==> tasks[q[k]].state != Ready
      {
        assert QueuedHere(State(), cpu, c, q[i]);
        if tasks[cpus[cpu].queues[c][i]].state == Ready {
          return true;
        }
      }
      assert q != [] ==> QueuedHere(State(), cpu, c, q[0]);
      return false;
    }

    method RefillClassDeficits(cpu: nat)
      requires Inv(State()) && cpu < |cpus| && ShapedQueue(cpus[cpu])
      modifies `cpus
      ensures cpus == old(cpus)[cpu := RefillClasses(old(cpus[cpu]))]
    {
      hide InvBut, ClassQuantum;
      ghost var rq := cpus[cpu];
      var deficits := cpus[cpu].deficits;
      for c := 0 to NUM_CLASSES
        invariant cpus == old(cpus) && |deficits| == NUM_CLASSES
        invariant forall k :: 0 <= k < NUM_CLASSES ==>
                  deficits[k] == if k < c then RefillDeficit(rq, k) else rq.deficits[k]
      {
        var ready := HasReadyTaskInClass(cpu, c);
        if ready {
          var quantum := ClassQuantum(c);
          deficits := deficits[c := Min(Max(deficits[c], 0) + quantum, quantum * 2)];
        }
      }
      assert deficits == RefillClasses(rq).deficits;
      cpus := cpus[cpu := cpus[cpu].(deficits := deficits)];
    }

    /** The picked task starts running: the inner part of `pick_next_task`. */
    method RunPicked(cpu: nat, c: ClassId, id: TaskId, previous: Option<TaskId>)
      requires cpu < |cpus| && ShapedQueue(cpus[cpu]) && id in tasks
      modifies `tasks, `cpus
      ensures cpus == old(cpus)[cpu := old(cpus[cpu]).(
                cursor := (c + 1) % NUM_CLASSES,
                deficits := old(cpus[cpu]).deficits[c := old(cpus[cpu]).deficits[c] - 1],
                current := Some(id))]
      ensures var t := Dispatched(old(tasks[id]), cpu, previous == Some(id));
              tasks == old(tasks)[id := t.(queued := old(tasks[id]).queued)]
    {
      var rq := cpus[cpu];
      cpus := cpus[cpu := rq.(cursor := (c + 1) % NUM_CLASSES, deficits := rq.deficits[c := rq.deficits[c] - 1])];
      var t := tasks[id].(state := Running, lastCpu := cpu);
      if previous != Some(id) {
        t := t.(sliceTicks := 0);
      }
      if t.deficit <= 0 {
        t := t.(deficit := TaskQuantum(t.cls, t.nice));
      }
      tasks := tasks[id := t.(deficit := t.deficit - 1)];
      cpus := cpus[cpu := cpus[cpu].(current := Some(id))];
    }

    /** One round of `pick_next_task`: the classes in cursor order. */
    method PickRound(cpu: nat, previous: Option<TaskId>) returns (picked: Option<TaskId>)
      requires Inv(State()) && Finite(State()) && cpu < |cpus|
      requires ShapedQueue(cpus[cpu]) && KnownQueues(State(), cpu)
      modifies `tasks, `cpus
      ensures picked.None? <==> FirstPickable(old(cpus[cpu]), 0).None?
      ensures picked.None? ==> State() == old(State())
      ensures picked.Some? ==>
                var c := FirstPickable(old(cpus[cpu]), 0).value;
                var i := PickIndex(old(tasks), old(cpus[cpu]).queues[c], c);
                && i.Some? && i.value < |old(cpus[cpu]).queues[c]|
                && picked == Some(old(cpus[cpu]).queues[c][i.value])
                && State() == Dispatch(old(State()), cpu, c, i.value, previous)
    {
      hide InvBut, PickIndex, PickTasks, Finite, TaskQuantum;
      for offset := 0 to NUM_CLASSES
        invariant State() == old(State())
        invariant FirstPickable(cpus[cpu], 0) == FirstPickable(cpus[cpu], offset)
      {
        var c: ClassId := (cpus[cpu].cursor + offset) % NUM_CLASSES;
        if cpus[cpu].deficits[c] > 0 {
          picked := PickTaskFromClass(cpu, c);
          if picked.Some? {
            RunPicked(cpu, c, picked.value, previous);
            return;
          }
        }
      }
      return None;
    }

    /** `pick_next_task`. */
    method PickNextTask(cpu: nat, previous: Option<TaskId>) returns (picked: Option<TaskId>)
      requires Inv(State()) && Finite(State()) && cpu < |cpus| && cpus[cpu].current.None?
      requires ShapedQueue(cpus[cpu]) && KnownQueues(State(), cpu)
      requires previous.Some? ==>
                 previous.value in tasks && tasks[previous.value].lastCpu == cpu
                     && tasks[previous.value].state != Running
      modifies `tasks, `cpus
      ensures Inv(State())
      ensures State() == PickNext(old(State()), cpu, previous)
      ensures picked == cpus[cpu].current
    {
      hide InvBut, PickIndex, PickTasks, Finite, FirstPickable, RefillClasses, Dispatch;
      ghost var s := State();
      PickNextInv(s, cpu, previous);
      PickNextIs(s, cpu, previous);
      picked := PickRound(cpu, previous);
      if picked.Some? {
        DispatchCurrent(s, cpu, previous);
        assert SetCpu(s, cpu, s.cpus[cpu]) == s by { assert s.cpus[cpu := s.cpus[cpu]] == s.cpus; }
        return;
      }
      InvQueueBasics(s, cpu);
      PickQueueBasics(cpus[cpu]);
      RefillClassDeficits(cpu);
      ghost var s1 := State();
      ChangeDeficits(s, cpu, PickQueue(s.cpus[cpu]), {});
      InvShaped(s1, {});
      FiniteTasks(s, s1);
      picked := PickRound(cpu, previous);
      if picked.Some? {
        DispatchCurrent(s, cpu, previous);
        return;
      }
      RefillClassDeficits(cpu);
      RefillNothing(s1.cpus[cpu]);
      if previous.Some? && (tasks[previous.value].state == Ready || tasks[previous.value].state == Running) {
        // The source would resume the previous task here; it cannot get here, because a Ready
        // task is queued and the rounds above would have found it.
        ReadyIsQueued(s, previous.value);
        assert false;
      }
    }

    /** `account_running_task`. */
    method AccountRunningTask(cpu: nat)
      requires Inv(State()) && cpu < |cpus| && cpus[cpu].current.Some? && Shaped(State())
      modifies `tasks, `cpus
      ensures State() == Account(old(State()), cpu)
    {
      hide InvBut, Enqueue, TaskQuantum, VruntimeDelta, Classify;
      var id := cpus[cpu].current.value;
      var t := tasks[id];
      var quantum := TaskQuantum(t.cls, t.nice);
      t := t.(
        runtimeTicks := SaturatingAdd(t.runtimeTicks, 1),
        sliceTicks := SaturatingAdd(t.sliceTicks, 1),
        runnableAvg := (t.runnableAvg * 7 + RUNNABLE_SCALE) / 8,
        vruntime := SaturatingAdd(t.vruntime, VruntimeDelta(t.cls, t.nice)),
        sleepCredit := SaturatingSub(t.sleepCredit, 1));
      if t.sliceTicks >= quantum {
        t := t.(fullSliceRuns := SaturatingAdd(t.fullSliceRuns, 1), sliceTicks := 0);
      }
      if t.state == Running {
        t := t.(state := Ready);
      }
      tasks := tasks[id := t.(cls := Classify(t))];
      EnqueueFrame(State(), id);
      EnqueueTask(id);
      cpus := cpus[cpu := cpus[cpu].(current := None)];
    }

    /** `on_timer_tick`. */
    method OnTimerTick(cpu: nat, ghost bound: nat) returns (picked: Option<TaskId>)
      requires Inv(State()) && cpu < |cpus| && VruntimeAtMost(State(), bound) && bound + 1024 < U64_MAX
      modifies this
      ensures Inv(State()) && Step(old(State()), Tick(cpu), State())
      ensures started ==> picked == cpus[cpu].current
    {
      hide InvBut, PickNext, Account;
      ghost var s := State();
      InvShaped(s, {});
      PickStateOk(s, Tick(cpu), bound);
      if !started {
        return None;
      }
      tick := (tick + 1) % (U64_MAX + 1);
      SameButCounters(s, State());
      InvShaped(State(), {});
      var previous := cpus[cpu].current;
      if previous.Some? {
        CurrentState(State(), cpu);
        AccountedTask(State(), cpu);
        AccountRunningTask(cpu);
      }
      InvShaped(State(), {});
      assert Finite(State());
      picked := PickNextTask(cpu, previous);
    }

    method RequestYield(cpu: nat)
      requires Inv(State()) && cpu < |cpus|
      modifies `tasks
      ensures Inv(State()) && Step(old(State()), Yield(cpu), State())
    {
      InvShaped(State(), {});
      YieldInv(State(), cpu);
      if cpus[cpu].current.None? {
        return;
      }
      var id := cpus[cpu].current.value;
      tasks := tasks[id := tasks[id].(
        voluntaryYields := SaturatingAdd(tasks[id].voluntaryYields, 1), sliceTicks := 0, deficit := 0)];
    }

    method BlockCurrent(cpu: nat)
      requires Inv(State()) && cpu < |cpus|
      modifies `tasks
      ensures Inv(State()) && Step(old(State()), Block(cpu), State())
    {
      InvShaped(State(), {});
      BlockInv(State(), cpu);
      if cpus[cpu].current.None? {
        return;
      }
      var id := cpus[cpu].current.value;
      tasks := tasks[id := tasks[id].(
        state := Blocked, queued := false, sliceTicks := 0, deficit := 0, sleepStartedAt := Some(tick))];
    }

    /** `wake_task`, early or not; an unknown id panics in the source. */
    method WakeTask(id: TaskId)
      requires Inv(State()) && id in tasks
      modifies `tasks, `cpus
      ensures Shaped(old(State())) && State() == SchedulerState.WakeTask(old(State()), id)
      ensures Inv(State()) <==> !StillCurrent(old(State()), id)
      ensures !StillCurrent(old(State()), id) ==> Step(old(State()), Wake(id), State())
    {
      hide InvBut, Enqueue, TaskQuantum;
      InvShaped(State(), {});
      WakeInvIff(State(), id);
      var t := tasks[id];
      if t.state != Blocked {
        return;
      }
      var slept := if t.sleepStartedAt.Some? then SaturatingSub(tick, t.sleepStartedAt.value) else 0;
      tasks := tasks[id := t.(
        sleepStartedAt := None,
        sleepCredit := Min(MAX_SLEEP_CREDIT, SaturatingAdd(t.sleepCredit, Min(slept * WAKE_CREDIT_PER_TICK, U64_MAX))),
        state := Ready,
        deficit := TaskQuantum(t.cls, t.nice))];
      EnqueueTask(id);
    }

    method ExitCurrent(cpu: nat) returns (picked: Option<TaskId>)
      requires Inv(State()) && Finite(State()) && cpu < |cpus|
      modifies `tasks, `cpus
      ensures Inv(State()) && Step(old(State()), Exit(cpu), State())
      ensures picked == cpus[cpu].current
    {
      hide InvBut, PickNext;
      InvShaped(State(), {});
      RetireInv(State(), cpu);
      if cpus[cpu].current.Some? {
        var id := cpus[cpu].current.value;
        cpus := cpus[cpu := cpus[cpu].(current := None)];
        tasks := tasks[id := tasks[id].(state := Exited, queued := false)];
      }
      InvShaped(State(), {});
      picked := PickNextTask(cpu, None);
    }

    method Start() returns (picked: Option<TaskId>)
      requires Inv(State()) && Finite(State()) && cpus[0].current.None?
      modifies this
      ensures Inv(State()) && Step(old(State()), Op.Start, State())
      ensures picked == cpus[0].current
    {
      hide InvBut, PickNext;
      InvShaped(State(), {});
      ghost var s := State();
      started := true;
      SameButCounters(s, State());
      InvShaped(State(), {});
      picked := PickNextTask(0, None);
    }

    method ConfigureTopology(cpuCount: nat)
      requires Inv(State())
      modifies `cpus
      ensures Inv(State()) && Step(old(State()), Topology(cpuCount), State())
    {
      InvShaped(State(), {});
      ConfigureInv(State(), cpuCount);
      if tasks != map[] || started {
        return;
      }
      cpus := seq(Max(cpuCount, 1), _ => NewRunQueue());
    }
  }

  lemma DispatchCurrent(s: Sched, cpu: nat, previous: Option<TaskId>)
    requires Inv(s) && Finite(s) && cpu < |s.cpus| && ShapedQueue(s.cpus[cpu]) && KnownQueues(s, cpu)
    requires PickClass(s.cpus[cpu]).Some?
    ensures var rq := PickQueue(s.cpus[cpu]);
            var c := PickClass(s.cpus[cpu]).value;
            var i := PickIndex(s.tasks, rq.queues[c], c);
            && rq.queues == s.cpus[cpu].queues && i.Some? && i.value < |rq.queues[c]|
            && cpu < |PickNext(s, cpu, previous).cpus|
            && PickNext(s, cpu, previous).cpus[cpu].current == Some(rq.queues[c][i.value])
  {
    hide FirstPickable, Best, InvBut, PickTasks;
    PickNextIs(s, cpu, previous);
  }

  lemma FiniteTasks(s: Sched, s': Sched)
    requires Finite(s) && s'.tasks == s.tasks
    ensures Finite(s')
  {
  }

  lemma ReadyIsQueued(s: Sched, id: TaskId)
    requires Inv(s) && id in s.tasks && s.tasks[id].state == Ready
    ensures s.tasks[id].lastCpu < |s.cpus| && ShapedQueue(s.cpus[s.tasks[id].lastCpu])
    ensures s.cpus[s.tasks[id].lastCpu].queues[s.tasks[id].cls] != []
  {
    assert InItsPlace(s, id);
  }

  /** The task just charged is still on its CPU's books, and no longer Running. */
  lemma AccountedTask(s: Sched, cpu: nat)
    requires Inv(s) && Shaped(s) && cpu < |s.cpus| && s.cpus[cpu].current.Some?
    ensures Inv(Account(s, cpu)) && Account(s, cpu).cpus[cpu].current.None?
    ensures var id := s.cpus[cpu].current.value;
            id in Account(s, cpu).tasks && Account(s, cpu).tasks[id].lastCpu == cpu
                && Account(s, cpu).tasks[id].state != Running
  {
    hide InvBut, Charged, Enqueue;
    AccountInv(s, cpu);
    var id := s.cpus[cpu].current.value;
    CurrentState(s, cpu);
    NotFlagged(s, id);
    ChargedPlace(s.tasks[id]);
    AccountIs(s, cpu);
    EnqueueFrame(SetTask(SetCpu(s, cpu, s.cpus[cpu].(current := None)), id, Charged(s.tasks[id])), id);
  }

  lemma BestOfNothing(tasks: map<TaskId, Task>)
    ensures Best(tasks, []) == None
  {
  }

  lemma RefillEmpty(tasks: map<TaskId, Task>, c: ClassId)
    ensures RefillTasks(tasks, [], c) == tasks
  {
  }
}
