/**
 What every step of the scheduler keeps: a task's state says where it is.  A Ready task is in
 exactly one queue, that of its class on its last CPU; a Running task is current on its last CPU;
 Blocked and Exited tasks are in no queue; no task is current on two CPUs.
 */
module SchedulerInvariant {
  import opened Common
  import opened SchedulerState

  // ----- the invariant --------------------------------------------------------------------------

  ghost predicate TaskBasics(s: Sched, t: Task) {
    t.lastCpu < |s.cpus| && t.deficit >= 0
  }

  ghost predicate QueueBasics(rq: RunQueue) {
    && ShapedQueue(rq)
    && forall c :: 0 <= c < NUM_CLASSES ==> 0 <= rq.deficits[c] <= ClassQuantum(c)
  }

  /** A queued task is Ready, and queued for its own class on its own CPU. */
  ghost predicate QueuedHere(s: Sched, cpu: nat, c: nat, id: TaskId) {
    && id in s.tasks
    && var t := s.tasks[id];
       t.state == Ready && t.lastCpu == cpu && t.cls == c
  }

  ghost predicate QueueContents(s: Sched, cpu: nat, c: nat)
    requires cpu < |s.cpus| && ShapedQueue(s.cpus[cpu]) && c < NUM_CLASSES
  {
    var q := s.cpus[cpu].queues[c];
    && (forall i :: 0 <= i < |q| ==> QueuedHere(s, cpu, c, q[i]))
    && (forall i, j :: 0 <= i < j < |q| ==> q[i] != q[j])
  }

  ghost predicate CurrentHere(s: Sched, cpu: nat)
    requires cpu < |s.cpus|
  {
    s.cpus[cpu].current.Some? ==>
      var id := s.cpus[cpu].current.value;
      && id in s.tasks
      && (s.tasks[id].state == Running || s.tasks[id].state == Blocked)
      && s.tasks[id].lastCpu == cpu
  }

  /** Where a task must be, given its state. */
  ghost predicate InItsPlace(s: Sched, id: TaskId)
    requires id in s.tasks
  {
    var t := s.tasks[id];
    && t.lastCpu < |s.cpus| && ShapedQueue(s.cpus[t.lastCpu])
    && (t.queued <==> t.state == Ready)
    && (t.state == Ready ==> id in s.cpus[t.lastCpu].queues[t.cls])
    && (t.state == Running ==> s.cpus[t.lastCpu].current == Some(id))
  }

  /** A task taken out of every queue and off every CPU. */
  ghost predicate Loose(s: Sched, id: TaskId) {
    && id in s.tasks
    && (forall k :: 0 <= k < |s.cpus| ==> s.cpus[k].current != Some(id))
    && (forall k, c :: 0 <= k < |s.cpus| && 0 <= c < |s.cpus[k].queues| ==> id !in s.cpus[k].queues[c])
  }

  /** The invariant, with the tasks of `ex` taken out. */
  ghost predicate InvBut(s: Sched, ex: set<TaskId>) {
    && |s.cpus| > 0
    && (forall k :: 0 <= k < |s.cpus| ==> QueueBasics(s.cpus[k]))
    && (forall id :: id in s.tasks ==> TaskBasics(s, s.tasks[id]))
    && (forall k, c :: 0 <= k < |s.cpus| && 0 <= c < NUM_CLASSES ==> QueueContents(s, k, c))
    && (forall k :: 0 <= k < |s.cpus| ==> CurrentHere(s, k))
    && (forall id :: id in s.tasks && id !in ex ==> InItsPlace(s, id))
    && (forall id :: id in ex ==> Loose(s, id))
  }

  ghost predicate Inv(s: Sched) {
    InvBut(s, {})
  }

  ghost predicate VruntimeAtMost(s: Sched, bound: nat) {
    forall id :: id in s.tasks ==> s.tasks[id].vruntime <= bound
  }

  /** No vruntime has reached the value that the pick treats as infinite. */
  ghost predicate Finite(s: Sched) {
    VruntimeAtMost(s, U64_MAX - 1)
  }

  lemma InvShaped(s: Sched, ex: set<TaskId>)
    requires InvBut(s, ex)
    ensures Shaped(s)
    ensures forall k :: 0 <= k < |s.cpus| ==> KnownQueues(s, k)
  {
    forall k | 0 <= k < |s.cpus| ensures ShapedQueue(s.cpus[k]) && KnownQueues(s, k) {
      assert QueueBasics(s.cpus[k]);
      forall c | 0 <= c < NUM_CLASSES ensures KnownTasks(s.tasks, s.cpus[k].queues[c]) {
        assert QueueContents(s, k, c);
        var q := s.cpus[k].queues[c];
        forall i | 0 <= i < |q| ensures q[i] in s.tasks { assert QueuedHere(s, k, c, q[i]); }
      }
    }
    forall id | id in s.tasks ensures s.tasks[id].lastCpu < |s.cpus| { assert TaskBasics(s, s.tasks[id]); }
    forall k | 0 <= k < |s.cpus| ensures s.cpus[k].current.Some? ==> s.cpus[k].current.value in s.tasks {
      assert CurrentHere(s, k);
    }
  }

  // ----- consequences, in the words of the design -------------------------------------------------

  ghost predicate QueuedAt(s: Sched, id: TaskId, k: nat, c: nat) {
    k < |s.cpus| && c < |s.cpus[k].queues| && id in s.cpus[k].queues[c]
  }

  ghost predicate OnceEach(q: seq<TaskId>) {
    forall i, j :: 0 <= i < j < |q| ==> q[i] != q[j]
  }

  /** A task is Ready exactly when it is queued, and then in its own place only, and there once. */
  lemma ReadyIffQueued(s: Sched, id: TaskId)
    requires Inv(s) && id in s.tasks
    ensures forall k: nat, c: nat ::
              QueuedAt(s, id, k, c) <==> s.tasks[id].state == Ready && k == s.tasks[id].lastCpu && c == s.tasks[id].cls
    ensures forall k, c :: 0 <= k < |s.cpus| && 0 <= c < |s.cpus[k].queues| ==> OnceEach(s.cpus[k].queues[c])
  {
    assert InItsPlace(s, id);
    forall k: nat, c: nat | QueuedAt(s, id, k, c)
      ensures s.tasks[id].state == Ready && k == s.tasks[id].lastCpu && c == s.tasks[id].cls
    {
      assert QueueBasics(s.cpus[k]) && QueueContents(s, k, c);
      var q := s.cpus[k].queues[c];
      var i :| 0 <= i < |q| && q[i] == id;
      assert QueuedHere(s, k, c, q[i]);
    }
    forall k, c | 0 <= k < |s.cpus| && 0 <= c < |s.cpus[k].queues| ensures OnceEach(s.cpus[k].queues[c]) {
      assert QueueBasics(s.cpus[k]) && QueueContents(s, k, c);
    }
  }

  /** Running tasks are current on their CPU, and no task is current on two CPUs. */
  lemma CurrentUnique(s: Sched, a: nat, b: nat)
    requires Inv(s) && a < |s.cpus| && b < |s.cpus|
    requires s.cpus[a].current.Some? && s.cpus[a].current == s.cpus[b].current
    ensures a == b
  {
    assert CurrentHere(s, a) && CurrentHere(s, b);
  }

  lemma RunningIsCurrent(s: Sched, id: TaskId)
    requires Inv(s) && id in s.tasks && s.tasks[id].state == Running
    ensures s.tasks[id].lastCpu < |s.cpus| && s.cpus[s.tasks[id].lastCpu].current == Some(id)
  {
    assert InItsPlace(s, id);
  }

  // ----- moving one task ----------------------------------------------------------------------------

  /** Changing a task that is out of the way changes nothing for the others. */
  lemma ChangeLoose(s: Sched, id: TaskId, t: Task)
    requires InvBut(s, {id}) && TaskBasics(s, t)
    ensures InvBut(SetTask(s, id, t), {id})
  {
    var s' := SetTask(s, id, t);
    forall k, c | 0 <= k < |s'.cpus| && 0 <= c < NUM_CLASSES ensures QueueContents(s', k, c) {
      assert QueueContents(s, k, c);
      var q := s.cpus[k].queues[c];
      assert Loose(s, id) && id !in q;
      forall i | 0 <= i < |q| ensures QueuedHere(s', k, c, q[i]) { assert QueuedHere(s, k, c, q[i]); }
    }
    forall k | 0 <= k < |s'.cpus| ensures CurrentHere(s', k) { assert CurrentHere(s, k); }
    forall x | x in s'.tasks && x != id ensures InItsPlace(s', x) { assert InItsPlace(s, x); }
    assert Loose(s', id);
  }

  /** Changes that leave state, place and flags alone, and deficits non-negative. */
  ghost predicate SamePlace(a: Task, b: Task) {
    a.state == b.state && a.lastCpu == b.lastCpu && a.cls == b.cls && a.queued == b.queued && b.deficit >= 0
  }

  lemma ChangeInPlace(s: Sched, tasks: map<TaskId, Task>, ex: set<TaskId>)
    requires InvBut(s, ex) && tasks.Keys == s.tasks.Keys
    requires forall id :: id in tasks ==> SamePlace(s.tasks[id], tasks[id])
    ensures InvBut(s.(tasks := tasks), ex)
  {
    var s' := s.(tasks := tasks);
    forall id | id in s'.tasks ensures TaskBasics(s', s'.tasks[id]) { assert TaskBasics(s, s.tasks[id]); }
    forall k, c | 0 <= k < |s'.cpus| && 0 <= c < NUM_CLASSES ensures QueueContents(s', k, c) {
      assert QueueContents(s, k, c);
      var q := s.cpus[k].queues[c];
      forall i | 0 <= i < |q| ensures QueuedHere(s', k, c, q[i]) { assert QueuedHere(s, k, c, q[i]); }
    }
    forall k | 0 <= k < |s'.cpus| ensures CurrentHere(s', k) { assert CurrentHere(s, k); }
    forall id | id in s'.tasks && id !in ex ensures InItsPlace(s', id) { assert InItsPlace(s, id); }
    forall id | id in ex ensures Loose(s', id) { assert Loose(s, id); }
  }

  /** New class deficits or cursor on one CPU. */
  lemma ChangeDeficits(s: Sched, cpu: nat, rq: RunQueue, ex: set<TaskId>)
    requires InvBut(s, ex) && cpu < |s.cpus| && QueueBasics(rq)
    requires rq.queues == s.cpus[cpu].queues && rq.current == s.cpus[cpu].current
    ensures InvBut(SetCpu(s, cpu, rq), ex)
  {
    var s' := SetCpu(s, cpu, rq);
    forall id | id in s'.tasks ensures TaskBasics(s', s'.tasks[id]) { assert TaskBasics(s, s.tasks[id]); }
    forall k, c | 0 <= k < |s'.cpus| && 0 <= c < NUM_CLASSES ensures QueueContents(s', k, c) {
      assert QueueContents(s, k, c);
      var q := s.cpus[k].queues[c];
      forall i | 0 <= i < |q| ensures QueuedHere(s', k, c, q[i]) { assert QueuedHere(s, k, c, q[i]); }
    }
    forall k | 0 <= k < |s'.cpus| ensures CurrentHere(s', k) { assert CurrentHere(s, k); }
    forall id | id in s'.tasks && id !in ex ensures InItsPlace(s', id) { assert InItsPlace(s, id); }
    forall id | id in ex ensures Loose(s', id) { assert Loose(s, id); }
  }

  lemma EnqueueQueues(s: Sched, id: TaskId)
    requires InvBut(s, {id}) && s.tasks[id].state == Ready && !s.tasks[id].queued && Shaped(s)
    ensures var s' := Enqueue(s, id);
            && (forall k :: 0 <= k < |s'.cpus| ==> ShapedQueue(s'.cpus[k]))
            && (forall k, c :: 0 <= k < |s'.cpus| && 0 <= c < NUM_CLASSES ==> QueueContents(s', k, c))
  {
    hide InItsPlace, CurrentHere;
    var s' := Enqueue(s, id);
    assert Loose(s, id) && TaskBasics(s, s.tasks[id]);
    forall k | 0 <= k < |s'.cpus| ensures ShapedQueue(s'.cpus[k]) { assert QueueBasics(s.cpus[k]); }
    forall k, c | 0 <= k < |s'.cpus| && 0 <= c < NUM_CLASSES ensures QueueContents(s', k, c) {
      assert QueueContents(s, k, c);
      var q := s.cpus[k].queues[c];
      assert id !in q;
      forall i | 0 <= i < |q| ensures QueuedHere(s', k, c, q[i]) { assert QueuedHere(s, k, c, q[i]); }
    }
  }

  /** A loose Ready task is put at the back of its queue. */
  lemma EnqueueInv(s: Sched, id: TaskId)
    requires InvBut(s, {id}) && s.tasks[id].state == Ready && !s.tasks[id].queued
    requires Shaped(s)
    ensures Inv(Enqueue(s, id))
  {
    var t := s.tasks[id];
    var s' := Enqueue(s, id);
    assert Loose(s, id) && TaskBasics(s, t);
    EnqueueQueues(s, id);
    forall x | x in s'.tasks ensures TaskBasics(s', s'.tasks[x]) { assert TaskBasics(s, s.tasks[x]); }
    forall k | 0 <= k < |s'.cpus| ensures CurrentHere(s', k) { assert CurrentHere(s, k); }
    forall x | x in s'.tasks ensures InItsPlace(s', x) {
      if x != id {
        assert InItsPlace(s, x);
      } else {
        assert s'.cpus[t.lastCpu].queues[t.cls] == s.cpus[t.lastCpu].queues[t.cls] + [id];
      }
    }
    forall k | 0 <= k < |s'.cpus| ensures QueueBasics(s'.cpus[k]) { assert QueueBasics(s.cpus[k]); }
  }

  /** A loose task that is neither Ready nor Running is where it belongs. */
  lemma SettleInv(s: Sched, id: TaskId)
    requires InvBut(s, {id})
    requires (s.tasks[id].state == Blocked || s.tasks[id].state == Exited) && !s.tasks[id].queued
    ensures Inv(s)
  {
    assert TaskBasics(s, s.tasks[id]);
    assert QueueBasics(s.cpus[s.tasks[id].lastCpu]);
    forall x | x in s.tasks ensures InItsPlace(s, x) {}
  }

  lemma NotQueuedUnlessReady(s: Sched, id: TaskId, ex: set<TaskId>)
    requires InvBut(s, ex) && id in s.tasks && s.tasks[id].state != Ready
    ensures forall k, c :: 0 <= k < |s.cpus| && 0 <= c < |s.cpus[k].queues| ==> id !in s.cpus[k].queues[c]
  {
    forall k, c | 0 <= k < |s.cpus| && 0 <= c < |s.cpus[k].queues| ensures id !in s.cpus[k].queues[c] {
      assert QueueBasics(s.cpus[k]) && QueueContents(s, k, c);
      var q := s.cpus[k].queues[c];
      assert forall i :: 0 <= i < |q| ==> QueuedHere(s, k, c, q[i]);
    }
  }

  /** Taking the current task off its CPU leaves it loose. */
  lemma DropCurrentInv(s: Sched, cpu: nat)
    requires Inv(s) && cpu < |s.cpus| && s.cpus[cpu].current.Some?
    ensures InvBut(SetCpu(s, cpu, s.cpus[cpu].(current := None)), {s.cpus[cpu].current.value})
  {
    var id := s.cpus[cpu].current.value;
    var s' := SetCpu(s, cpu, s.cpus[cpu].(current := None));
    assert CurrentHere(s, cpu) && QueueBasics(s.cpus[cpu]);
    NotQueuedUnlessReady(s, id, {});
    forall x | x in s'.tasks ensures TaskBasics(s', s'.tasks[x]) { assert TaskBasics(s, s.tasks[x]); }
    forall k, c | 0 <= k < |s'.cpus| && 0 <= c < NUM_CLASSES ensures QueueContents(s', k, c) {
      assert QueueContents(s, k, c);
      var q := s.cpus[k].queues[c];
      forall i | 0 <= i < |q| ensures QueuedHere(s', k, c, q[i]) { assert QueuedHere(s, k, c, q[i]); }
    }
    forall k | 0 <= k < |s'.cpus|
      ensures CurrentHere(s', k) && s'.cpus[k].current != Some(id)
    {
      assert CurrentHere(s, k);
    }
    forall x | x in s'.tasks && x != id ensures InItsPlace(s', x) { assert InItsPlace(s, x); }
  }

  /** A task that is neither queued nor current is loose. */
  lemma LooseWhenIdle(s: Sched, id: TaskId)
    requires Inv(s) && id in s.tasks && s.tasks[id].state != Ready
    requires forall k :: 0 <= k < |s.cpus| ==> s.cpus[k].current != Some(id)
    ensures InvBut(s, {id})
  {
    NotQueuedUnlessReady(s, id, {});
    forall x | x in s.tasks && x != id ensures InItsPlace(s, x) {}
  }

  /** Taking position `i` out of a queue leaves its task loose. */
  lemma UnqueueInv(s: Sched, cpu: nat, c: ClassId, i: nat)
    requires Inv(s) && cpu < |s.cpus| && ShapedQueue(s.cpus[cpu]) && i < |s.cpus[cpu].queues[c]|
    ensures InvBut(SetCpu(s, cpu, SetQueue(s.cpus[cpu], c, RemoveAt(s.cpus[cpu].queues[c], i))),
            {s.cpus[cpu].queues[c][i]})
  {
    var rq := s.cpus[cpu];
    var q, q' := rq.queues[c], RemoveAt(rq.queues[c], i);
    var id := q[i];
    var s' := SetCpu(s, cpu, SetQueue(rq, c, q'));
    assert QueueContents(s, cpu, c) && QueuedHere(s, cpu, c, id) && QueueBasics(rq);
    assert id !in q';
    forall k | 0 <= k < |s'.cpus| ensures QueueBasics(s'.cpus[k]) { assert QueueBasics(s.cpus[k]); }
    forall x | x in s'.tasks ensures TaskBasics(s', s'.tasks[x]) { assert TaskBasics(s, s.tasks[x]); }
    forall k, d | 0 <= k < |s'.cpus| && 0 <= d < NUM_CLASSES
      ensures QueueContents(s', k, d) && id !in s'.cpus[k].queues[d]
    {
      assert QueueContents(s, k, d);
      var p, p' := s.cpus[k].queues[d], s'.cpus[k].queues[d];
      forall j | 0 <= j < |p| ensures QueuedHere(s', k, d, p[j]) { assert QueuedHere(s, k, d, p[j]); }
      assert forall j :: 0 <= j < |p'| ==> p'[j] in p;
    }
    forall k | 0 <= k < |s'.cpus|
      ensures CurrentHere(s', k) && s'.cpus[k].current != Some(id)
    {
      assert CurrentHere(s, k);
    }
    forall x | x in s'.tasks && x != id ensures InItsPlace(s', x) {
      assert InItsPlace(s, x);
      if x in q {
        var j :| 0 <= j < |q| && q[j] == x;
        assert x in q' by { assert q'[if j < i then j else j - 1] == x; }
      }
    }
  }

  /** A loose task starts running on an unoccupied CPU. */
  lemma OccupyInv(s: Sched, cpu: nat, id: TaskId, t: Task)
    requires InvBut(s, {id}) && cpu < |s.cpus| && s.cpus[cpu].current == None
    requires t.state == Running && !t.queued && t.lastCpu == cpu && t.deficit >= 0
    ensures Inv(SetCpu(SetTask(s, id, t), cpu, s.cpus[cpu].(current := Some(id))))
  {
    ChangeLoose(s, id, t);
    var m := SetTask(s, id, t);
    var s' := SetCpu(m, cpu, s.cpus[cpu].(current := Some(id)));
    assert QueueBasics(m.cpus[cpu]);
    forall x | x in s'.tasks ensures TaskBasics(s', s'.tasks[x]) { assert TaskBasics(m, m.tasks[x]); }
    forall k, c | 0 <= k < |s'.cpus| && 0 <= c < NUM_CLASSES ensures QueueContents(s', k, c) {
      assert QueueContents(m, k, c);
      var q := m.cpus[k].queues[c];
      forall i | 0 <= i < |q| ensures QueuedHere(s', k, c, q[i]) { assert QueuedHere(m, k, c, q[i]); }
    }
    forall k | 0 <= k < |s'.cpus| ensures CurrentHere(s', k) { assert CurrentHere(m, k); }
    forall x | x in s'.tasks ensures InItsPlace(s', x) { if x != id { assert InItsPlace(m, x); } }
  }
}
