// thread/thread.c and device/timer.c: the round-robin scheduler.
module Scheduler {
  import opened Seqs

  type Tid = nat

  datatype Status = Running | Ready | Blocked | Waiting | Hanging | Died

  datatype Task = Task(status: Status, thisTick: nat, timeSlice: nat)

  // ready is thread_ready_list, front first.
  datatype State = State(tasks: map<Tid, Task>, ready: seq<Tid>, cur: Tid, idle: Tid)

  // ---- what each operation does to the state ----

  // Interrupts are off inside every operation, so each one is a single step; switch_to is a change of
  // the current thread.

  function SetStatus(s: State, t: Tid, status: Status): State
    requires t in s.tasks
  {
    s.(tasks := s.tasks[t := s.tasks[t].(status := status)])
  }

  predicate CanWake(s: State, t: Tid) {
    t in s.tasks && s.tasks[t].status in {Blocked, Hanging, Waiting}
  }

  function Unblock(s: State, t: Tid): State
    requires t in s.tasks
  {
    SetStatus(s, t, Ready).(ready := [t] + s.ready)
  }

  // The first half of schedule: a thread that is still RUNNING goes to the back with a fresh slice.
  function Requeue(s: State): State
    requires s.cur in s.tasks
  {
    var task := s.tasks[s.cur];
    if task.status != Running then s
    else s.(tasks := s.tasks[s.cur := Task(Ready, task.timeSlice, task.timeSlice)], ready := s.ready + [s.cur])
  }

  // Then idle is woken if nobody is ready.
  function WakeIdle(s: State): State
    requires s.idle in s.tasks
  {
    if s.ready == [] then Unblock(s, s.idle) else s
  }

  // Then the front of the ready list gets the processor.
  function Dispatch(s: State): State
    requires s.ready != [] && s.ready[0] in s.tasks
  {
    SetStatus(s, s.ready[0], Running).(ready := s.ready[1..], cur := s.ready[0])
  }

  // What holds whenever schedule is entered. The current thread may already have been blocked,
  // appended to the ready list or marked dead.
  ghost predicate AtSchedule(s: State) {
    && s.cur in s.tasks && s.idle in s.tasks
    && s.tasks[s.idle].status in {Running, Ready, Blocked}
    && (forall t :: t in s.tasks && s.tasks[t].status == Running ==> t == s.cur)
    && (forall t :: t in s.ready <==> t in s.tasks && s.tasks[t].status == Ready)
    && Distinct(s.ready)
    && (forall t :: t in s.tasks ==> s.tasks[t].thisTick <= s.tasks[t].timeSlice)
  }

  // The invariant between steps: exactly one thread is RUNNING, and it is the current one.
  ghost predicate Inv(s: State) {
    AtSchedule(s) && s.tasks[s.cur].status == Running
  }

  function Schedule(s: State): State
    requires AtSchedule(s)
  {
    RequeueKeeps(s);
    WakeIdleKeeps(Requeue(s));
    Dispatch(WakeIdle(Requeue(s)))
  }

  lemma RequeueKeeps(s: State)
    requires AtSchedule(s)
    ensures AtSchedule(Requeue(s)) && Requeue(s).tasks[s.cur].status != Running
    ensures Requeue(s).idle == s.idle
  {
  }

  // An empty ready list at dispatch means that idle is BLOCKED, so thread_unblock may wake it.
  lemma WakeIdleKeeps(s: State)
    requires AtSchedule(s) && s.tasks[s.cur].status != Running
    ensures s.ready == [] ==> s.tasks[s.idle].status == Blocked
    ensures AtSchedule(WakeIdle(s)) && WakeIdle(s).ready != []
    ensures WakeIdle(s).tasks[s.cur].status != Running
  {
  }

  lemma DispatchKeeps(s: State)
    requires AtSchedule(s) && s.ready != [] && s.tasks[s.cur].status != Running
    ensures Inv(Dispatch(s))
  {
    assert s.ready == [s.ready[0]] + s.ready[1..];
  }

  lemma ScheduleKeeps(s: State)
    requires AtSchedule(s)
    ensures Inv(Schedule(s))
  {
    RequeueKeeps(s);
    WakeIdleKeeps(Requeue(s));
    DispatchKeeps(WakeIdle(Requeue(s)));
  }

  // What one call of schedule does, from the fields before it. A current thread that is still RUNNING goes
  // to the back of the ready list, READY and with a whole slice; idle is woken if nobody is there then; and
  // the front of the list is RUNNING. Everything else stays.
  ghost predicate Scheduled(s: State, s': State) {
    && s.cur in s.tasks && s.idle in s.tasks
    && var queue := if s.tasks[s.cur].status == Running then s.ready + [s.cur] else s.ready;
       && s'.cur == (if queue == [] then s.idle else queue[0])
       && s'.ready == (if queue == [] then [] else queue[1..]) && s'.idle == s.idle
       && s'.tasks.Keys == s.tasks.Keys
       && forall t :: t in s.tasks ==> s'.tasks[t] == TaskAfter(s, t, s'.cur)
  }

  ghost function TaskAfter(s: State, t: Tid, next: Tid): Task
    requires s.cur in s.tasks && t in s.tasks
  {
    var task := s.tasks[t];
    var preempted := t == s.cur && task.status == Running;
    Task(if t == next then Running else if preempted then Ready else task.status,
      if preempted then task.timeSlice else task.thisTick, task.timeSlice)
  }

  lemma ScheduleIs(s: State)
    requires AtSchedule(s)
    ensures Scheduled(s, Schedule(s))
  {
    RequeueKeeps(s);
    var q := Requeue(s);
    WakeIdleKeeps(q);
    var w := WakeIdle(q);
    assert q.ready == if s.tasks[s.cur].status == Running then s.ready + [s.cur] else s.ready;
    assert w.ready[0] in w.ready && w.tasks.Keys == s.tasks.Keys;
    forall t | t in s.tasks
      ensures Schedule(s).tasks[t] == TaskAfter(s, t, w.ready[0])
    {
      assert q.tasks[t] == if t == s.cur && s.tasks[t].status == Running then
          Task(Ready, s.tasks[t].timeSlice, s.tasks[t].timeSlice) else s.tasks[t];
    }
  }

  // ---- runs ----

  // Tick: a timer interrupt. Block, Yield, Exit: the current thread gives the processor up.
  // Wake: thread_unblock. Start: a new thread enters the ready list. Reap: thread_exit on a zombie.
  datatype Act = Tick | Block(status: Status) | Yield | Exit | Wake(t: Tid) | Start(t: Tid, slice: nat) | Reap(t: Tid)

  // What the source asks of the caller of each operation.
  predicate Enabled(s: State, a: Act) {
    match a
    case Tick => true
    case Block(status) => status in {Blocked, Hanging, Waiting} && (s.cur == s.idle ==> status == Blocked)
    case Yield => true
    case Exit => s.cur != s.idle
    case Wake(t) => CanWake(s, t)
    case Start(t, _) => t !in s.tasks
    case Reap(t) => t in s.tasks && s.tasks[t].status == Hanging
  }

  // True when the step calls schedule.
  predicate Calls(s: State, a: Act)
    requires s.cur in s.tasks
  {
    match a
    case Tick => s.tasks[s.cur].thisTick == 0
    case Block(_) => true
    case Yield => true
    case Exit => true
    case _ => false
  }

  // The state in which schedule is entered, for the steps that call it.
  function BeforeSchedule(s: State, a: Act): State
    requires s.cur in s.tasks
  {
    match a
    case Block(status) => SetStatus(s, s.cur, status)
    case Yield => SetStatus(s, s.cur, Ready).(ready := s.ready + [s.cur])
    case Exit => SetStatus(s, s.cur, Died)
    case _ => s
  }

  lemma BeforeScheduleOk(s: State, a: Act)
    requires Inv(s) && Enabled(s, a) && Calls(s, a)
    ensures AtSchedule(BeforeSchedule(s, a))
  {
  }

  function Apply(s: State, a: Act): State
    requires Inv(s) && Enabled(s, a)
  {
    if Calls(s, a) then
      BeforeScheduleOk(s, a);
      Schedule(BeforeSchedule(s, a))
    else
      match a
      case Tick => s.(tasks := s.tasks[s.cur := s.tasks[s.cur].(thisTick := s.tasks[s.cur].thisTick - 1)])
      case Wake(t) => Unblock(s, t)
      case Start(t, slice) => s.(tasks := s.tasks[t := Task(Ready, slice, slice)], ready := s.ready + [t])
      case Reap(t) => SetStatus(s, t, Died)
  }

  lemma ApplyKeepsInv(s: State, a: Act)
    requires Inv(s) && Enabled(s, a)
    ensures Inv(Apply(s, a))
  {
    if Calls(s, a) {
      BeforeScheduleOk(s, a);
      ScheduleKeeps(BeforeSchedule(s, a));
    }
  }

  // READY or RUNNING: the thread is waiting for nothing but the processor.
  predicate Awake(status: Status) {
    status in {Ready, Running}
  }

  function Calm(status: Status): Status {
    if Awake(status) then Ready else status
  }

  // Scheduling itself changes nobody's status but for who among the awake is RUNNING, and idle's.
  lemma ScheduleIsCalm(s: State, t: Tid)
    requires AtSchedule(s) && t in s.tasks && t != s.idle
    ensures var s' := Schedule(s);
      s'.tasks.Keys == s.tasks.Keys && s'.idle == s.idle && Calm(s'.tasks[t].status) == Calm(s.tasks[t].status)
  {
    RequeueKeeps(s);
    var q := Requeue(s);
    WakeIdleKeeps(q);
    var w := WakeIdle(q);
    assert w.tasks[t] == q.tasks[t];
    assert w.tasks.Keys == s.tasks.Keys;
    assert w.ready[0] in w.ready;
  }

  // The status a step leaves t in, up to READY against RUNNING.
  function CalmAfter(s: State, a: Act, t: Tid): Status
    requires t in s.tasks
  {
    match a
    case Block(b) => if t == s.cur then b else Calm(s.tasks[t].status)
    case Exit => if t == s.cur then Died else Calm(s.tasks[t].status)
    case Wake(u) => if t == u then Ready else Calm(s.tasks[t].status)
    case Reap(u) => if t == u then Died else Calm(s.tasks[t].status)
    case _ => Calm(s.tasks[t].status)
  }

  lemma ApplyCalm(s: State, a: Act, t: Tid)
    requires Inv(s) && Enabled(s, a) && t in s.tasks && t != s.idle
    ensures var s' := Apply(s, a);
      t in s'.tasks && s'.idle == s.idle && Calm(s'.tasks[t].status) == CalmAfter(s, a, t)
  {
    if Calls(s, a) {
      BeforeScheduleOk(s, a);
      ScheduleIsCalm(BeforeSchedule(s, a), t);
    }
  }

  lemma ScheduleKeys(s: State)
    requires AtSchedule(s)
    ensures Schedule(s).tasks.Keys == s.tasks.Keys && Schedule(s).idle == s.idle
  {
    RequeueKeeps(s);
    WakeIdleKeeps(Requeue(s));
    var w := WakeIdle(Requeue(s));
    assert w.tasks.Keys == s.tasks.Keys;
    assert w.ready[0] in w.ready;
  }

  lemma ApplyKeys(s: State, a: Act)
    requires Inv(s) && Enabled(s, a)
    ensures Apply(s, a).tasks.Keys == (if a.Start? then s.tasks.Keys + {a.t} else s.tasks.Keys)
    ensures Apply(s, a).idle == s.idle
    ensures a.Start? ==> Apply(s, a).tasks[a.t].status == Ready
  {
    if Calls(s, a) {
      BeforeScheduleOk(s, a);
      ScheduleKeys(BeforeSchedule(s, a));
      assert BeforeSchedule(s, a).tasks.Keys == s.tasks.Keys;
    }
  }

  ghost predicate IsRun(s: State, acts: seq<Act>)
    requires Inv(s)
    decreases |acts|
  {
    acts == [] ||
    (Enabled(s, acts[0]) && (ApplyKeepsInv(s, acts[0]); IsRun(Apply(s, acts[0]), acts[1..])))
  }

  ghost function After(s: State, acts: seq<Act>): State
    requires Inv(s) && IsRun(s, acts)
    decreases |acts|
  {
    if acts == [] then s
    else
      ApplyKeepsInv(s, acts[0]);
      After(Apply(s, acts[0]), acts[1..])
  }

  // thread_init leaves main running, and init and idle in the ready list.
  function Boot(init: Tid, main: Tid, idle: Tid, initSlice: nat): State {
    State(map[init := Task(Ready, initSlice, initSlice), main := Task(Running, 31, 31), idle := Task(Ready, 10, 10)],
      [init, idle], main, idle)
  }

  // Over every run from boot: one thread RUNNING, the ready list holds the READY threads once each.
  lemma {:induction false} SchedulerSafe(s: State, acts: seq<Act>)
    requires Inv(s) && IsRun(s, acts)
    ensures Inv(After(s, acts))
    decreases |acts|
  {
    if acts != [] {
      ApplyKeepsInv(s, acts[0]);
      SchedulerSafe(Apply(s, acts[0]), acts[1..]);
    }
  }

  lemma BootInv(init: Tid, main: Tid, idle: Tid, initSlice: nat)
    requires init != main && main != idle && idle != init
    ensures Inv(Boot(init, main, idle, initSlice))
  {
    var s := Boot(init, main, idle, initSlice);
    assert s.ready[0] == init && s.ready[1] == idle;
  }

  // ---- fairness ----

  // thread_unblock pushes made by one step: its own, or schedule waking idle.
  ghost function Pushes(s: State, a: Act): nat
    requires Inv(s) && Enabled(s, a)
  {
    if a.Wake? then 1
    else if Calls(s, a) && Requeue(BeforeSchedule(s, a)).ready == [] then 1
    else 0
  }

  ghost predicate NeverRuns(s: State, acts: seq<Act>, t: Tid)
    requires Inv(s) && IsRun(s, acts)
    decreases |acts|
  {
    s.cur != t && (acts == [] || (ApplyKeepsInv(s, acts[0]); NeverRuns(Apply(s, acts[0]), acts[1..], t)))
  }

  ghost function CountCalls(s: State, acts: seq<Act>): nat
    requires Inv(s) && IsRun(s, acts)
    decreases |acts|
  {
    if acts == [] then 0
    else
      ApplyKeepsInv(s, acts[0]);
      (if Calls(s, acts[0]) then 1 else 0) + CountCalls(Apply(s, acts[0]), acts[1..])
  }

  ghost function CountPushes(s: State, acts: seq<Act>): nat
    requires Inv(s) && IsRun(s, acts)
    decreases |acts|
  {
    if acts == [] then 0
    else
      ApplyKeepsInv(s, acts[0]);
      Pushes(s, acts[0]) + CountPushes(Apply(s, acts[0]), acts[1..])
  }

  ghost function CountTicks(acts: seq<Act>): nat {
    if acts == [] then 0 else (if acts[0].Tick? then 1 else 0) + CountTicks(acts[1..])
  }

  // One step moves a waiting thread forward by one place per call of schedule and back by one per
  // push, unless it dispatches the thread.
  lemma PlaceAfterStep(s: State, a: Act, t: Tid, k: nat)
    requires Inv(s) && Enabled(s, a) && k < |s.ready| && s.ready[k] == t
    requires Apply(s, a).cur != t
    ensures var k' := k + Pushes(s, a) - (if Calls(s, a) then 1 else 0);
      0 <= k' < |Apply(s, a).ready| && Apply(s, a).ready[k'] == t
  {
    if Calls(s, a) {
      BeforeScheduleOk(s, a);
      var q := Requeue(BeforeSchedule(s, a));
      assert k < |q.ready| && q.ready[k] == t;
    }
  }

  lemma {:induction false} PlaceAfterRun(s: State, acts: seq<Act>, t: Tid, k: nat)
    requires Inv(s) && IsRun(s, acts) && k < |s.ready| && s.ready[k] == t
    requires NeverRuns(s, acts, t)
    ensures CountCalls(s, acts) <= k + CountPushes(s, acts)
    decreases |acts|
  {
    if acts != [] {
      ApplyKeepsInv(s, acts[0]);
      PlaceAfterStep(s, acts[0], t, k);
      var k' := k + Pushes(s, acts[0]) - (if Calls(s, acts[0]) then 1 else 0);
      PlaceAfterRun(Apply(s, acts[0]), acts[1..], t, k');
    }
  }

  // No thread's slice exceeds bound, now or later in the run.
  ghost predicate SlicesWithin(s: State, acts: seq<Act>, bound: nat) {
    && (forall t :: t in s.tasks ==> s.tasks[t].timeSlice <= bound)
    && (forall i :: 0 <= i < |acts| && acts[i].Start? ==> acts[i].slice <= bound)
  }

  lemma SlicesStay(s: State, a: Act, bound: nat)
    requires Inv(s) && Enabled(s, a) && SlicesWithin(s, [a], bound)
    ensures SlicesWithin(Apply(s, a), [], bound)
  {
    assert [a][0] == a;
    if Calls(s, a) {
      BeforeScheduleOk(s, a);
    }
  }

  // A tick either uses up one unit of the current thread's slice or makes the next dispatch.
  lemma TickOfStep(s: State, a: Act, bound: nat)
    requires Inv(s) && Enabled(s, a) && SlicesWithin(s, [a], bound)
    ensures Inv(Apply(s, a)) && SlicesWithin(Apply(s, a), [], bound)
    ensures var s' := Apply(s, a);
      (if a.Tick? then 1 else 0) + s'.tasks[s'.cur].thisTick <=
        (if Calls(s, a) then bound + 1 else 0) + s.tasks[s.cur].thisTick
  {
    ApplyKeepsInv(s, a);
    SlicesStay(s, a, bound);
    if Calls(s, a) {
      BeforeScheduleOk(s, a);
    }
  }

  lemma OneMoreCall(n: nat, b: nat)
    ensures (n + 1) * b == n * b + b
  {
  }

  // Ticks are bounded by calls of schedule.
  lemma {:induction false} TicksPerCall(s: State, acts: seq<Act>, bound: nat)
    requires Inv(s) && IsRun(s, acts) && SlicesWithin(s, acts, bound)
    ensures CountTicks(acts) <= CountCalls(s, acts) * (bound + 1) + s.tasks[s.cur].thisTick
    decreases |acts|
  {
    if acts != [] {
      var a := acts[0];
      assert SlicesWithin(s, [a], bound);
      TickOfStep(s, a, bound);
      TicksPerCall(Apply(s, a), acts[1..], bound);
      OneMoreCall(CountCalls(Apply(s, a), acts[1..]), bound + 1);
    }
  }

  lemma FewerTicks(calls: nat, most: nat, bound: nat, left: nat)
    requires calls <= most && left <= bound
    ensures calls * (bound + 1) + left < (most + 1) * (bound + 1)
  {
    assert (most + 1) * (bound + 1) == calls * (bound + 1) + (most - calls) * (bound + 1) + (bound + 1);
  }

  // A READY thread at place k is dispatched within k + 1 + u calls of schedule, u counting the
  // pushes in front of it, and so within (k + 1 + u) * (S + 1) timer ticks.
  lemma BoundedWaiting(s: State, acts: seq<Act>, t: Tid, k: nat, bound: nat)
    requires Inv(s) && IsRun(s, acts) && k < |s.ready| && s.ready[k] == t
    ensures CountCalls(s, acts) >= k + 1 + CountPushes(s, acts) ==> !NeverRuns(s, acts, t)
    ensures SlicesWithin(s, acts, bound) && CountTicks(acts) >= (k + 1 + CountPushes(s, acts)) * (bound + 1) ==>
      !NeverRuns(s, acts, t)
  {
    if NeverRuns(s, acts, t) {
      PlaceAfterRun(s, acts, t, k);
      if SlicesWithin(s, acts, bound) {
        TicksPerCall(s, acts, bound);
        FewerTicks(CountCalls(s, acts), k + CountPushes(s, acts), bound, s.tasks[s.cur].thisTick);
      }
    }
  }

  // ---- a thread's slice ----

  // A timer tick takes one unit of the current thread's slice, or gives it a whole new slice when there is
  // none left; nothing else touches a slice.
  lemma TicksAfterStep(s: State, a: Act, t: Tid)
    requires Inv(s) && Enabled(s, a) && t in s.tasks
    ensures t in Apply(s, a).tasks && Apply(s, a).tasks[t].timeSlice == s.tasks[t].timeSlice
    ensures Apply(s, a).tasks[t].thisTick ==
      if a.Tick? && t == s.cur then
        if s.tasks[t].thisTick == 0 then s.tasks[t].timeSlice else s.tasks[t].thisTick - 1
      else s.tasks[t].thisTick
  {
    if Calls(s, a) {
      BeforeScheduleOk(s, a);
      ScheduleIs(BeforeSchedule(s, a));
    }
  }

  // Before the last state of the run t is never current.
  ghost predicate RunsAtTheEnd(s: State, acts: seq<Act>, t: Tid)
    requires Inv(s) && IsRun(s, acts)
    decreases |acts|
  {
    if acts == [] then s.cur == t
    else s.cur != t && (ApplyKeepsInv(s, acts[0]); RunsAtTheEnd(Apply(s, acts[0]), acts[1..], t))
  }

  // A thread that waits keeps its ticks until it is dispatched.
  lemma {:induction false} WaitingKeepsTicks(s: State, acts: seq<Act>, t: Tid)
    requires Inv(s) && IsRun(s, acts) && RunsAtTheEnd(s, acts, t) && t in s.tasks
    ensures var e := After(s, acts);
      Inv(e) && e.cur == t && e.tasks[t].thisTick == s.tasks[t].thisTick && e.tasks[t].timeSlice == s.tasks[t].timeSlice
    decreases |acts|
  {
    if acts != [] {
      ApplyKeepsInv(s, acts[0]);
      TicksAfterStep(s, acts[0], t);
      WaitingKeepsTicks(Apply(s, acts[0]), acts[1..], t);
    }
  }

  // The current thread does not give the processor up by itself.
  predicate KeepsRunning(acts: seq<Act>) {
    forall i :: 0 <= i < |acts| ==> !acts[i].Block? && !acts[i].Yield? && !acts[i].Exit?
  }

  // Then it runs for exactly the ticks it has left.
  lemma {:induction false} RunsItsTicks(s: State, acts: seq<Act>)
    requires Inv(s) && IsRun(s, acts) && KeepsRunning(acts) && CountTicks(acts) <= s.tasks[s.cur].thisTick
    ensures var e := After(s, acts);
      Inv(e) && e.cur == s.cur && e.tasks[s.cur].thisTick == s.tasks[s.cur].thisTick - CountTicks(acts)
      && (Calls(e, Tick) <==> CountTicks(acts) == s.tasks[s.cur].thisTick)
    decreases |acts|
  {
    if acts != [] {
      var a := acts[0];
      assert !a.Block? && !a.Yield? && !a.Exit? && acts == [a] + acts[1..];
      ApplyKeepsInv(s, a);
      TicksAfterStep(s, a, s.cur);
      assert forall i :: 0 <= i < |acts| - 1 ==> acts[1..][i] == acts[i + 1];
      RunsItsTicks(Apply(s, a), acts[1..]);
    }
  }

  // The thread that the timer preempts waits with a whole slice and, once it is dispatched again, runs for
  // timeSlice ticks unless it gives the processor up: only the next tick calls schedule.
  lemma PreemptedRunsItsSlice(s: State, wait: seq<Act>, own: seq<Act>)
    requires Inv(s) && Calls(s, Tick) && Inv(Apply(s, Tick))
    requires IsRun(Apply(s, Tick), wait) && RunsAtTheEnd(Apply(s, Tick), wait, s.cur)
    requires var s2 := After(Apply(s, Tick), wait); Inv(s2) && IsRun(s2, own)
    requires KeepsRunning(own) && CountTicks(own) <= s.tasks[s.cur].timeSlice
    ensures var e := After(After(Apply(s, Tick), wait), own);
      e.cur == s.cur && s.cur in e.tasks && (Calls(e, Tick) <==> CountTicks(own) == s.tasks[s.cur].timeSlice)
  {
    TicksAfterStep(s, Tick, s.cur);
    WaitingKeepsTicks(Apply(s, Tick), wait, s.cur);
    RunsItsTicks(After(Apply(s, Tick), wait), own);
  }

  // So does a new thread from its first dispatch on.
  lemma StartedRunsItsSlice(s: State, t: Tid, slice: nat, wait: seq<Act>, own: seq<Act>)
    requires Inv(s) && Enabled(s, Start(t, slice)) && Inv(Apply(s, Start(t, slice)))
    requires IsRun(Apply(s, Start(t, slice)), wait) && RunsAtTheEnd(Apply(s, Start(t, slice)), wait, t)
    requires var s2 := After(Apply(s, Start(t, slice)), wait); Inv(s2) && IsRun(s2, own)
    requires KeepsRunning(own) && CountTicks(own) <= slice
    ensures var e := After(After(Apply(s, Start(t, slice)), wait), own);
      e.cur == t && t in e.tasks && (Calls(e, Tick) <==> CountTicks(own) == slice)
  {
    var s1 := Apply(s, Start(t, slice));
    assert s1.tasks[t] == Task(Ready, slice, slice);
    WaitingKeepsTicks(s1, wait, t);
    RunsItsTicks(After(s1, wait), own);
  }

  // ---- the operations as the kernel performs them; each assert is an ASSERT of the source ----

  class Kernel {
    var tasks: map<Tid, Task>
    var ready: seq<Tid>
    var cur: Tid
    const idle: Tid

    ghost function Abs(): State
      reads this
    {
      State(tasks, ready, cur, idle)
    }

    // thread_init, once init, main and idle have their TCBs.
    constructor (init: Tid, main: Tid, idle: Tid, initSlice: nat)
      requires init != main && main != idle && idle != init
      ensures Abs() == Boot(init, main, idle, initSlice) && Inv(Abs())
    {
      tasks := map[init := Task(Ready, initSlice, initSlice), main := Task(Running, 31, 31),
          idle := Task(Ready, 10, 10)];
      ready := [init, idle];
      cur := main;
      this.idle := idle;
      BootInv(init, main, idle, initSlice);
    }

    method ThreadUnblock(t: Tid)
      requires AtSchedule(Abs()) && CanWake(Abs(), t)
      modifies this
      ensures Abs() == Unblock(old(Abs()), t)
      ensures ready == [t] + old(ready) && tasks == old(tasks)[t := old(tasks)[t].(status := Ready)]
    {
      assert tasks[t].status in {Blocked, Hanging, Waiting};
      if tasks[t].status != Ready {
        assert t !in ready;
        ready := [t] + ready;
        tasks := tasks[t := tasks[t].(status := Ready)];
      }
    }

    method DoSchedule()
      requires AtSchedule(Abs())
      modifies this
      ensures Abs() == Schedule(old(Abs())) && Inv(Abs()) && Scheduled(old(Abs()), Abs())
    {
      ghost var s := Abs();
      RequeueKeeps(Abs());
      WakeIdleKeeps(Requeue(Abs()));
      if tasks[cur].status == Running {
        assert cur !in ready;
        ready := ready + [cur];
        tasks := tasks[cur := tasks[cur].(thisTick := tasks[cur].timeSlice)];
        tasks := tasks[cur := tasks[cur].(status := Ready)];
      }
      assert Abs() == Requeue(old(Abs()));
      if ready == [] {
        ThreadUnblock(idle);
      }
      assert ready != [];
      var next := ready[0];
      ready := ready[1..];
      tasks := tasks[next := tasks[next].(status := Running)];
      cur := next;
      assert Abs() == Schedule(s);
      ScheduleKeeps(s);
      ScheduleIs(s);
    }

    method ThreadBlock(status: Status)
      requires Inv(Abs()) && Enabled(Abs(), Act.Block(status))
      modifies this
      ensures Abs() == Apply(old(Abs()), Act.Block(status)) && Inv(Abs())
      ensures var s := old(Abs());
        Scheduled(s.(tasks := s.tasks[s.cur := s.tasks[s.cur].(status := status)]), Abs())
    {
      assert status in {Blocked, Hanging, Waiting};
      BeforeScheduleOk(Abs(), Act.Block(status));
      tasks := tasks[cur := tasks[cur].(status := status)];
      DoSchedule();
    }

    method ThreadYield()
      requires Inv(Abs())
      modifies this
      ensures Abs() == Apply(old(Abs()), Yield) && Inv(Abs())
      ensures var s := old(Abs());
        Scheduled(s.(tasks := s.tasks[s.cur := s.tasks[s.cur].(status := Ready)], ready := s.ready + [s.cur]), Abs())
    {
      BeforeScheduleOk(Abs(), Yield);
      assert cur !in ready;
      ready := ready + [cur];
      tasks := tasks[cur := tasks[cur].(status := Ready)];
      DoSchedule();
    }

    method ThreadStart(t: Tid, slice: nat)
      requires Inv(Abs()) && t !in tasks
      modifies this
      ensures Abs() == Apply(old(Abs()), Start(t, slice)) && Inv(Abs())
      ensures ready == old(ready) + [t] && cur == old(cur) && tasks == old(tasks)[t := Task(Ready, slice, slice)]
    {
      ApplyKeepsInv(Abs(), Start(t, slice));
      assert t !in ready;
      tasks := tasks[t := Task(Ready, slice, slice)];
      ready := ready + [t];
    }

    // thread_exit: the current thread leaves for good, or a zombie is collected by its parent.
    method ThreadExit(t: Tid, needSchedule: bool)
      requires Inv(Abs()) && t in tasks
      requires if needSchedule then t == cur && t != idle else tasks[t].status == Hanging
      modifies this
      ensures Abs() == Apply(old(Abs()), if needSchedule then Exit else Reap(t)) && Inv(Abs())
      ensures var s := old(Abs()); var gone := s.(tasks := s.tasks[t := s.tasks[t].(status := Died)]);
        if needSchedule then Scheduled(gone, Abs()) else Abs() == gone
    {
      var a := if needSchedule then Exit else Reap(t);
      ApplyKeepsInv(Abs(), a);
      tasks := tasks[t := tasks[t].(status := Died)];
      assert t !in ready;
      if needSchedule {
        BeforeScheduleOk(old(Abs()), a);
        DoSchedule();
      }
    }

    method TimerHandler()
      requires Inv(Abs())
      modifies this
      ensures Abs() == Apply(old(Abs()), Tick) && Inv(Abs())
      ensures old(tasks)[old(cur)].thisTick == 0 ==> Scheduled(old(Abs()), Abs())
      ensures old(tasks)[old(cur)].thisTick > 0 ==>
        && cur == old(cur) && ready == old(ready) && tasks.Keys == old(tasks).Keys
        && tasks[cur].thisTick == old(tasks)[cur].thisTick - 1 && tasks[cur].timeSlice == old(tasks)[cur].timeSlice
        && tasks[cur].status == Running && forall t :: t in tasks && t != cur ==> tasks[t] == old(tasks)[t]
    {
      ApplyKeepsInv(Abs(), Tick);
      if tasks[cur].thisTick == 0 {
        DoSchedule();
      } else {
        tasks := tasks[cur := tasks[cur].(thisTick := tasks[cur].thisTick - 1)];
      }
    }
  }
}
