/**
 The scheduler of `kernel/process.rs` as values: tasks, per-CPU run queues, and the effect of
 every step on them.  Class Scheduler performs these steps in place.
 */
module SchedulerState {
  import opened Common

  const NUM_CLASSES: nat := 4
  const RUNNABLE_SCALE: nat := 1024
  const HOG_UTIL_THRESHOLD: nat := 896
  const HOG_SLICE_THRESHOLD: nat := 4
  const WAKE_CREDIT_PER_TICK: nat := 32
  const MAX_SLEEP_CREDIT: nat := 256

  type TaskId = nat

  /** Game, Normal, Hog, Background. */
  type ClassId = c: nat | c < 4

  const GAME: ClassId := 0
  const NORMAL: ClassId := 1
  const HOG: ClassId := 2
  const BACKGROUND: ClassId := 3

  function ClassQuantum(c: ClassId): nat {
    if c == 0 then 6 else if c == 1 then 4 else if c == 2 then 2 else 1
  }

  function ClassWeight(c: ClassId): nat {
    4 - c
  }

  type Nice = n: int | -20 <= n <= 19

  function NiceWeight(nice: Nice): nat {
    Max(40 - (nice + 20), 1)
  }

  function TaskQuantum(c: ClassId, nice: Nice): (q: nat)
    ensures q >= 1
  {
    Max(ClassQuantum(c) * NiceWeight(nice) / 20, 1)
  }

  function VruntimeDelta(c: ClassId, nice: Nice): (d: nat) {
    1024 / Max(ClassWeight(c) * NiceWeight(nice), 1)
  }

  datatype TaskState = Ready | Running | Blocked | Exited

  datatype Task = Task(
    state: TaskState,
    classHint: Option<ClassId>,
    cls: ClassId,
    nice: Nice,
    preferredCpu: Option<nat>,
    lastCpu: nat,
    runtimeTicks: nat,
    runnableAvg: nat,
    vruntime: nat,
    sleepCredit: nat,
    deficit: int,
    sliceTicks: nat,
    voluntaryYields: nat,
    fullSliceRuns: nat,
    sleepStartedAt: Option<nat>,
    queued: bool)

  datatype RunQueue = RunQueue(current: Option<TaskId>, cursor: nat, deficits: seq<int>, queues: seq<seq<TaskId>>)

  datatype Sched = Sched(tasks: map<TaskId, Task>, cpus: seq<RunQueue>, tick: nat, started: bool, nextTaskId: nat)

  function NewRunQueue(): RunQueue {
    RunQueue(None, 0, [0, 0, 0, 0], [[], [], [], []])
  }

  function NewSched(): Sched {
    Sched(map[], [NewRunQueue()], 0, false, 1)
  }

  // ----- small helpers -----------------------------------------------------------------------

  function SetCpu(s: Sched, cpu: nat, rq: RunQueue): Sched
    requires cpu < |s.cpus|
  {
    s.(cpus := s.cpus[cpu := rq])
  }

  function SetTask(s: Sched, id: TaskId, t: Task): Sched {
    s.(tasks := s.tasks[id := t])
  }

  function SetQueue(rq: RunQueue, c: ClassId, q: seq<TaskId>): RunQueue
    requires c < |rq.queues|
  {
    rq.(queues := rq.queues[c := q])
  }

  function RemoveAt<T>(q: seq<T>, i: nat): (r: seq<T>)
    requires i < |q|
    ensures |r| == |q| - 1
    ensures forall k :: 0 <= k < i ==> r[k] == q[k]
    ensures forall k :: i <= k < |r| ==> r[k] == q[k + 1]
  {
    q[..i] + q[i + 1..]
  }

  /** What the code indexes without checking. */
  predicate Shaped(s: Sched) {
    && |s.cpus| > 0
    && (forall k :: 0 <= k < |s.cpus| ==> ShapedQueue(s.cpus[k]))
    && (forall id :: id in s.tasks ==> s.tasks[id].lastCpu < |s.cpus|)
    && (forall k :: 0 <= k < |s.cpus| ==> s.cpus[k].current.Some? ==> s.cpus[k].current.value in s.tasks)
  }

  predicate ShapedQueue(rq: RunQueue) {
    rq.cursor < NUM_CLASSES && |rq.deficits| == NUM_CLASSES && |rq.queues| == NUM_CLASSES
  }

  // ----- classes ---------------------------------------------------------------------------------

  /** `recompute_task_class_by_id`. */
  function Classify(t: Task): ClassId {
    if t.classHint.Some? then t.classHint.value
    else if t.nice >= 10 then BACKGROUND
    else if t.runnableAvg >= HOG_UTIL_THRESHOLD && t.fullSliceRuns >= HOG_SLICE_THRESHOLD then HOG
    else NORMAL
  }

  // ----- choosing a CPU ----------------------------------------------------------------------------

  function QueuedCount(rq: RunQueue): nat
    requires ShapedQueue(rq)
  {
    |rq.queues[0]| + |rq.queues[1]| + |rq.queues[2]| + |rq.queues[3]|
  }

  function Load(rq: RunQueue): nat
    requires ShapedQueue(rq)
  {
    (if rq.current.Some? then 1 else 0) + QueuedCount(rq)
  }

  predicate Idle(rq: RunQueue)
    requires ShapedQueue(rq)
  {
    rq.current.None? && QueuedCount(rq) == 0
  }

  /** `min_by_key`: the first CPU of least load. */
  predicate FirstLeastLoaded(cpus: seq<RunQueue>, k: nat)
    requires forall j :: 0 <= j < |cpus| ==> ShapedQueue(cpus[j])
  {
    && k < |cpus|
    && (forall j :: 0 <= j < |cpus| ==> Load(cpus[k]) <= Load(cpus[j]))
    && (forall j :: 0 <= j < k ==> Load(cpus[k]) < Load(cpus[j]))
  }

  /** `select_cpu_for_task`, for a task that last ran on `last`. */
  predicate Selected(s: Sched, last: nat, preferred: Option<nat>, k: nat)
    requires Shaped(s) && last < |s.cpus|
  {
    if Idle(s.cpus[last]) then k == last
    else if preferred.Some? && preferred.value < |s.cpus| && Idle(s.cpus[preferred.value]) then k == preferred.value
    else FirstLeastLoaded(s.cpus, k)
  }

  // ----- queues ------------------------------------------------------------------------------------

  function Enqueue(s: Sched, id: TaskId): Sched
    requires Shaped(s) && id in s.tasks
  {
    var t := s.tasks[id];
    if t.state == Ready && !t.queued then
      var rq := s.cpus[t.lastCpu];
      SetCpu(SetTask(s, id, t.(queued := true)), t.lastCpu, SetQueue(rq, t.cls, rq.queues[t.cls] + [id]))
    else s
  }

  function NewTask(hint: Option<ClassId>, nice: int, preferred: Option<nat>): Task {
    var n: Nice := if nice < -20 then -20 else if nice > 19 then 19 else nice;
    Task(Ready, hint, if hint.Some? then hint.value else NORMAL, n, preferred, 0, 0, 0, 0, 0, 0, 0, 0, 0, None, false)
  }

  /** A new task as `add_task` enters it: on CPU `cpu`, with its class and a full deficit. */
  function Placed(fresh_: Task, cpu: nat): (t: Task)
    ensures t.lastCpu == cpu && t.state == fresh_.state && t.queued == fresh_.queued && t.vruntime == fresh_.vruntime
  {
    var cls :=
      if fresh_.classHint.Some? then fresh_.classHint.value else if fresh_.nice >= 10 then BACKGROUND else NORMAL;
    fresh_.(lastCpu := cpu, cls := cls, deficit := TaskQuantum(cls, fresh_.nice))
  }

  function AddTask(s: Sched, id: TaskId, fresh_: Task, cpu: nat): Sched
    requires Shaped(s) && cpu < |s.cpus|
  {
    Enqueue(SetTask(s, id, Placed(fresh_, cpu)), id).(nextTaskId := Max(s.nextTaskId, SaturatingAdd(id, 1)))
  }

  /** What `allocate_task_id` returns ... */
  function AllocatedId(s: Sched): TaskId {
    Max(s.nextTaskId, 1)
  }

  /** ... and leaves behind. */
  function IdAllocated(s: Sched): Sched {
    s.(nextTaskId := SaturatingAdd(AllocatedId(s), 1))
  }

  // ----- picking a task within a class -------------------------------------------------------------

  function Effective(t: Task): nat {
    SaturatingSub(t.vruntime, t.sleepCredit)
  }

  predicate Eligible(t: Task) {
    t.state == Ready && t.deficit > 0 && Effective(t) < U64_MAX
  }

  predicate KnownTasks(tasks: map<TaskId, Task>, q: seq<TaskId>) {
    forall i :: 0 <= i < |q| ==> q[i] in tasks
  }

  /** The position in `q` of the task to run next: least effective vruntime, earliest on ties. */
  predicate IsBest(tasks: map<TaskId, Task>, q: seq<TaskId>, i: nat)
    requires KnownTasks(tasks, q)
  {
    && i < |q| && Eligible(tasks[q[i]])
    && (forall k :: 0 <= k < |q| && Eligible(tasks[q[k]]) ==> Effective(tasks[q[i]]) <= Effective(tasks[q[k]]))
    && (forall k :: 0 <= k < i && Eligible(tasks[q[k]]) ==> Effective(tasks[q[i]]) < Effective(tasks[q[k]]))
  }

  predicate NoneEligible(tasks: map<TaskId, Task>, q: seq<TaskId>)
    requires KnownTasks(tasks, q)
  {
    forall k :: 0 <= k < |q| ==> !Eligible(tasks[q[k]])
  }

  function Best(tasks: map<TaskId, Task>, q: seq<TaskId>): (r: Option<nat>)
    requires KnownTasks(tasks, q)
    ensures r.Some? ==> IsBest(tasks, q, r.value)
    ensures r.None? ==> NoneEligible(tasks, q)
  {
    if q == [] then None
    else
      var n := |q| - 1;
      var b := Best(tasks, q[..n]);
      if Eligible(tasks[q[n]]) && (b.None? || Effective(tasks[q[n]]) < Effective(tasks[q[b.value]])) then Some(n) else b
  }

  /** One turn of `refill_task_deficits`. */
  function RefillTask(t: Task, c: ClassId): Task {
    if t.state != Ready then t
    else
      var q := TaskQuantum(c, t.nice);
      t.(deficit := Min(Max(t.deficit, 0) + q, 2 * q))
  }

  function RefillTasks(tasks: map<TaskId, Task>, q: seq<TaskId>, c: ClassId): (r: map<TaskId, Task>)
    ensures r.Keys == tasks.Keys
  {
    map id | id in tasks :: if id in q then RefillTask(tasks[id], c) else tasks[id]
  }

  /** The tasks as the pick finds them: refilled if no queued task had any deficit left. */
  function PickTasks(tasks: map<TaskId, Task>, q: seq<TaskId>, c: ClassId): (r: map<TaskId, Task>)
    requires KnownTasks(tasks, q)
    ensures r.Keys == tasks.Keys
  {
    if Best(tasks, q).Some? then tasks else RefillTasks(tasks, q, c)
  }

  function PickIndex(tasks: map<TaskId, Task>, q: seq<TaskId>, c: ClassId): Option<nat>
    requires KnownTasks(tasks, q)
  {
    Best(PickTasks(tasks, q, c), q)
  }

  // ----- picking a class -----------------------------------------------------------------------------

  /** The `k`-th class from the cursor. */
  function Candidate(rq: RunQueue, k: nat): ClassId {
    (rq.cursor + k) % NUM_CLASSES
  }

  predicate Pickable(rq: RunQueue, c: ClassId)
    requires ShapedQueue(rq)
  {
    rq.deficits[c] > 0 && rq.queues[c] != []
  }

  /** The first class in cursor order that has deficit left and a task queued. */
  function FirstPickable(rq: RunQueue, k: nat): Option<ClassId>
    requires ShapedQueue(rq) && k <= NUM_CLASSES
    decreases NUM_CLASSES - k
  {
    if k == NUM_CLASSES then None
    else if Pickable(rq, Candidate(rq, k)) then Some(Candidate(rq, k))
    else FirstPickable(rq, k + 1)
  }

  /** `refill_class_deficits`. */
  function RefillDeficit(rq: RunQueue, c: ClassId): int
    requires ShapedQueue(rq)
  {
    if rq.queues[c] == [] then rq.deficits[c]
    else Min(Max(rq.deficits[c], 0) + ClassQuantum(c), 2 * ClassQuantum(c))
  }

  function RefillClasses(rq: RunQueue): (r: RunQueue)
    requires ShapedQueue(rq)
    ensures ShapedQueue(r)
  {
    rq.(deficits := [RefillDeficit(rq, 0), RefillDeficit(rq, 1), RefillDeficit(rq, 2), RefillDeficit(rq, 3)])
  }

  /** The run queue as the pick finds it: refilled if no class could be picked. */
  function PickQueue(rq: RunQueue): (r: RunQueue)
    requires ShapedQueue(rq)
    ensures ShapedQueue(r)
  {
    if FirstPickable(rq, 0).Some? then rq else RefillClasses(rq)
  }

  function PickClass(rq: RunQueue): Option<ClassId>
    requires ShapedQueue(rq)
  {
    FirstPickable(PickQueue(rq), 0)
  }

  /** A picked task starts running on `cpu`. */
  function Dispatched(t: Task, cpu: nat, resumed: bool): Task {
    var d := if t.deficit <= 0 then TaskQuantum(t.cls, t.nice) else t.deficit;
    var slice := if resumed then t.sliceTicks else 0;
    t.(state := Running, queued := false, lastCpu := cpu, sliceTicks := slice, deficit := d - 1)
  }

  predicate KnownQueues(s: Sched, cpu: nat)
    requires cpu < |s.cpus| && ShapedQueue(s.cpus[cpu])
  {
    forall c :: 0 <= c < NUM_CLASSES ==> KnownTasks(s.tasks, s.cpus[cpu].queues[c])
  }

  /** The task a pick on `cpu` would choose from class `c`. */
  function Dispatch(s: Sched, cpu: nat, c: ClassId, i: nat, previous: Option<TaskId>): Sched
    requires cpu < |s.cpus| && ShapedQueue(s.cpus[cpu]) && KnownQueues(s, cpu) && i < |s.cpus[cpu].queues[c]|
  {
    var rq := s.cpus[cpu];
    var q := rq.queues[c];
    var tasks := PickTasks(s.tasks, q, c);
    var rq' := SetQueue(rq, c, RemoveAt(q, i)).(
      cursor := (c + 1) % NUM_CLASSES, deficits := rq.deficits[c := rq.deficits[c] - 1], current := Some(q[i]));
    s.(tasks := tasks[q[i] := Dispatched(tasks[q[i]], cpu, previous == Some(q[i]))], cpus := s.cpus[cpu := rq'])
  }

  /** `pick_next_task`, where every queued task is Ready (the invariant). */
  function PickNext(s: Sched, cpu: nat, previous: Option<TaskId>): Sched
    requires cpu < |s.cpus| && ShapedQueue(s.cpus[cpu]) && KnownQueues(s, cpu)
  {
    var rq := PickQueue(s.cpus[cpu]);
    var s1 := SetCpu(s, cpu, rq);
    match FirstPickable(rq, 0)
    case None => s1
    case Some(c) =>
      match PickIndex(s.tasks, rq.queues[c], c)
      case None => s1
      case Some(i) => Dispatch(s1, cpu, c, i, previous)
  }

  // ----- the steps --------------------------------------------------------------------------------------

  /** The running task is charged for one tick. */
  function Charged(t: Task): Task {
    var quantum := TaskQuantum(t.cls, t.nice);
    var slice := SaturatingAdd(t.sliceTicks, 1);
    var full := slice >= quantum;
    var t1 := t.(
      runtimeTicks := SaturatingAdd(t.runtimeTicks, 1),
      runnableAvg := (t.runnableAvg * 7 + RUNNABLE_SCALE) / 8,
      vruntime := SaturatingAdd(t.vruntime, VruntimeDelta(t.cls, t.nice)),
      sleepCredit := SaturatingSub(t.sleepCredit, 1),
      fullSliceRuns := if full then SaturatingAdd(t.fullSliceRuns, 1) else t.fullSliceRuns,
      sliceTicks := if full then 0 else slice,
      state := if t.state == Running then Ready else t.state);
    t1.(cls := Classify(t1))
  }

  /** `account_running_task`. */
  function Account(s: Sched, cpu: nat): Sched
    requires Shaped(s) && cpu < |s.cpus| && s.cpus[cpu].current.Some?
  {
    var id := s.cpus[cpu].current.value;
    var s1 := SetTask(s, id, Charged(s.tasks[id]));
    var s2 := Enqueue(s1, id);
    SetCpu(s2, cpu, s2.cpus[cpu].(current := None))
  }

  /** The scheduler just before the pick of a tick. */
  function BeforePick(s: Sched, cpu: nat): Sched
    requires Shaped(s) && cpu < |s.cpus|
  {
    var s1 := s.(tick := (s.tick + 1) % (U64_MAX + 1));
    if s.cpus[cpu].current.Some? then Account(s1, cpu) else s1
  }

  function Yielded(t: Task): Task {
    t.(voluntaryYields := SaturatingAdd(t.voluntaryYields, 1), sliceTicks := 0, deficit := 0)
  }

  function BlockedAt(t: Task, tick: nat): Task {
    t.(state := Blocked, queued := false, sliceTicks := 0, deficit := 0, sleepStartedAt := Some(tick))
  }

  function Woken(t: Task, tick: nat): Task {
    var slept := if t.sleepStartedAt.Some? then SaturatingSub(tick, t.sleepStartedAt.value) else 0;
    t.(
      sleepStartedAt := None,
      sleepCredit := Min(MAX_SLEEP_CREDIT, SaturatingAdd(t.sleepCredit, Min(slept * WAKE_CREDIT_PER_TICK, U64_MAX))),
      state := Ready,
      deficit := TaskQuantum(t.cls, t.nice))
  }

  function RequestYield(s: Sched, cpu: nat): Sched
    requires Shaped(s) && cpu < |s.cpus|
  {
    match s.cpus[cpu].current
    case None => s
    case Some(id) => SetTask(s, id, Yielded(s.tasks[id]))
  }

  function BlockCurrent(s: Sched, cpu: nat): Sched
    requires Shaped(s) && cpu < |s.cpus|
  {
    match s.cpus[cpu].current
    case None => s
    case Some(id) => SetTask(s, id, BlockedAt(s.tasks[id], s.tick))
  }

  function WakeTask(s: Sched, id: TaskId): Sched
    requires Shaped(s) && id in s.tasks
  {
    if s.tasks[id].state != Blocked then s else Enqueue(SetTask(s, id, Woken(s.tasks[id], s.tick)), id)
  }

  /** The scheduler just before the pick of an exit. */
  function Retire(s: Sched, cpu: nat): Sched
    requires Shaped(s) && cpu < |s.cpus|
  {
    match s.cpus[cpu].current
    case None => s
    case Some(id) =>
      SetCpu(SetTask(s, id, s.tasks[id].(state := Exited, queued := false)), cpu, s.cpus[cpu].(current := None))
  }

  function Configure(s: Sched, n: nat): Sched {
    if s.tasks != map[] || s.started then s else s.(cpus := seq(Max(n, 1), _ => NewRunQueue()))
  }
}
