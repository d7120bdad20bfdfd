// userprog/fork.c, userprog/wait_exit.c and the pid pool of thread/thread.c: the process tree.
module Processes {
  import opened Options
  import opened Bits
  import opened Seqs

  // A TCB, named for good: pages are recycled, names are not.
  type Tid = nat

  // Ready stands for RUNNING too; Blocked is a sleep outside this file.
  datatype Status = Ready | Blocked | Waiting | Hanging

  datatype Proc = Proc(pid: int, parent: int, status: Status, exitStatus: int, user: bool)

  // all is thread_all_list; used is the pid bitmap, bit i standing for pid i + 1. born, exited and
  // collected are history: every TCB there ever was, the status each left with, and what sys_wait
  // handed out, in order.
  datatype State = State(
    procs: map<Tid, Proc>, all: seq<Tid>, used: seq<bool>, init: Tid,
    born: set<Tid>, exited: map<Tid, int>, collected: seq<(Tid, int)>)

  const NO_PARENT := -1
  const INIT_PID := 1
  const PID_CNT := 1024

  // exit_status is an int8_t.
  function Int8(x: int): (r: int)
    ensures -128 <= r < 128 && (r - x) % 256 == 0
    ensures -128 <= x < 128 ==> r == x
  {
    (x + 128) % 256 - 128
  }

  // list_traversal over thread_all_list: the first thread the callback accepts.
  function First(all: seq<Tid>, f: Tid -> bool): (r: Option<Tid>)
    ensures r.Some? ==> r.value in all && f(r.value)
    ensures r.Some? ==> exists i :: 0 <= i < |all| && all[i] == r.value && forall j :: 0 <= j < i ==> !f(all[j])
    ensures r.None? ==> forall t :: t in all ==> !f(t)
  {
    if all == [] then None
    else if f(all[0]) then Some(all[0])
    else
      assert all == [all[0]] + all[1..];
      First(all[1..], f)
  }

  predicate IsChild(s: State, t: Tid, pid: int) {
    t in s.procs && s.procs[t].parent == pid
  }

  predicate IsHangingChild(s: State, t: Tid, pid: int) {
    IsChild(s, t, pid) && s.procs[t].status == Hanging
  }

  predicate HasPid(s: State, t: Tid, pid: int) {
    t in s.procs && s.procs[t].pid == pid
  }

  // find_hanging_child, find_child and pid_check as list_traversal uses them.
  function HangingTest(s: State, pid: int): Tid -> bool {
    (t: Tid) => IsHangingChild(s, t, pid)
  }

  function ChildTest(s: State, pid: int): Tid -> bool {
    (t: Tid) => IsChild(s, t, pid)
  }

  function PidTest(s: State, pid: int): Tid -> bool {
    (t: Tid) => HasPid(s, t, pid)
  }

  function HangingChildOf(s: State, pid: int): Option<Tid> {
    First(s.all, HangingTest(s, pid))
  }

  function ChildOf(s: State, pid: int): Option<Tid> {
    First(s.all, ChildTest(s, pid))
  }

  function Pid2Thread(s: State, pid: int): Option<Tid> {
    First(s.all, PidTest(s, pid))
  }

  // ---- steps ----

  // System calls run with interrupts off, so fork, exit and each pass of wait's loop are one step. The
  // actor is the process that makes the call.

  datatype Act =
    | Fork(child: Tid)                       // sys_fork, child being the new TCB
    | Exit(status: int)                      // sys_exit
    | Wait                                   // one pass of the loop of sys_wait
    | StartThread(t: Tid)                    // thread_start
    | EndThread                              // thread_exit on the running kernel thread
    | Sleep                                  // blocks elsewhere
    | WakeUp(t: Tid)                         // wakes a thread that slept elsewhere

  // pid_bitmap full stops the kernel at an ASSERT, and sys_exit without a parent at a PANIC.
  predicate Enabled(s: State, t: Tid, a: Act) {
    t in s.procs && s.procs[t].status == Ready &&
    match a
    case Fork(child) => s.procs[t].user && child !in s.born && false in s.used
    case Exit(_) => s.procs[t].user && s.procs[t].parent != NO_PARENT
    case Wait => s.procs[t].user
    case StartThread(u) => u !in s.born && false in s.used
    case EndThread => !s.procs[t].user
    case Sleep => true
    case WakeUp(u) => u in s.procs && s.procs[u].status == Blocked
  }

  // What allocate_pid returns.
  function NewPid(s: State): int {
    1 + FirstClear(s.used)
  }

  function Enter(s: State, t: Tid, parent: int, user: bool, exitStatus: int): State
    requires false in s.used
  {
    var bit := FirstClear(s.used);
    s.(procs := s.procs[t := Proc(1 + bit, parent, Ready, exitStatus, user)],
       all := s.all + [t], used := s.used[bit := true], born := s.born + {t})
  }

  function Without(all: seq<Tid>, t: Tid): (r: seq<Tid>)
    ensures forall u :: u in r <==> u in all && u != t
  {
    if all == [] then [] else if all[0] == t then Without(all[1..], t) else [all[0]] + Without(all[1..], t)
  }

  // thread_exit: off the lists, TCB gone, pid released.
  function Drop(s: State, t: Tid): State
    requires t in s.procs
  {
    var bit := s.procs[t].pid - 1;
    s.(procs := s.procs - {t}, all := Without(s.all, t),
       used := if 0 <= bit < |s.used| then s.used[bit := false] else s.used)
  }

  function SetStatus(s: State, t: Tid, status: Status): State
    requires t in s.procs
  {
    s.(procs := s.procs[t := s.procs[t].(status := status)])
  }

  // init_adopt_a_child over thread_all_list.
  function Adopted(p: Proc, pid: int): Proc {
    if p.parent == pid then p.(parent := INIT_PID) else p
  }

  function Adopt(s: State, pid: int): State {
    s.(procs := map t | t in s.procs :: Adopted(s.procs[t], pid))
  }

  // The parent is looked up by pid and woken if it is in sys_wait.
  function WakeParent(s: State, pid: int): State {
    match Pid2Thread(s, pid)
    case None => s
    case Some(q) => if s.procs[q].status == Waiting then SetStatus(s, q, Ready) else s
  }

  // sys_exit up to the wake-up: the status is stored, then the children are init's.
  function Written(s: State, t: Tid, status: int): State
    requires t in s.procs
  {
    s.(procs := s.procs[t := s.procs[t].(exitStatus := Int8(status))])
  }

  function Leaving(s: State, t: Tid, status: int): State
    requires t in s.procs
  {
    Adopt(Written(s, t, status), s.procs[t].pid)
  }

  function Woken(s: State, t: Tid, status: int): (r: State)
    requires t in s.procs
    ensures t in r.procs
  {
    var s1 := Leaving(s, t, status);
    WakeParent(s1, s1.procs[t].parent)
  }

  function DoExit(s: State, t: Tid, status: int): State
    requires t in s.procs
  {
    SetStatus(Woken(s, t, status), t, Hanging).(exited := s.exited[t := Int8(status)])
  }

  datatype WaitResult = Child(pid: int, status: int) | NoChild | Again

  function WaitOutcome(s: State, t: Tid): WaitResult
    requires t in s.procs
  {
    match HangingChildOf(s, s.procs[t].pid)
    case Some(c) => Child(s.procs[c].pid, s.procs[c].exitStatus)
    case None => if ChildOf(s, s.procs[t].pid) == None then NoChild else Again
  }

  function DoWait(s: State, t: Tid): State
    requires t in s.procs
  {
    match HangingChildOf(s, s.procs[t].pid)
    case Some(c) => Drop(s, c).(collected := s.collected + [(c, s.procs[c].exitStatus)])
    case None => if ChildOf(s, s.procs[t].pid) == None then s else SetStatus(s, t, Waiting)
  }

  function Apply(s: State, t: Tid, a: Act): State
    requires Enabled(s, t, a)
  {
    match a
    case Fork(child) => Enter(s, child, s.procs[t].pid, true, s.procs[t].exitStatus)
    case Exit(status) => DoExit(s, t, status)
    case Wait => DoWait(s, t)
    case StartThread(u) => Enter(s, u, NO_PARENT, false, 0)
    case EndThread => Drop(s, t)
    case Sleep => SetStatus(s, t, Blocked)
    case WakeUp(u) => SetStatus(s, u, Ready)
  }

  // ---- the invariant ----

  ghost predicate ListFits(s: State) {
    && Distinct(s.all)
    && (forall t :: t in s.all <==> t in s.procs)
    && s.procs.Keys <= s.born
  }

  predicate Taken(s: State, pid: int) {
    1 <= pid <= |s.used| && s.used[pid - 1]
  }

  // Live pids are distinct, and the bitmap holds exactly them.
  ghost predicate PidsFit(s: State) {
    && |s.used| == PID_CNT
    && (forall t :: t in s.procs ==> Taken(s, s.procs[t].pid))
    && (forall t, u :: t in s.procs && u in s.procs && s.procs[t].pid == s.procs[u].pid ==> t == u)
    && (forall pid :: Taken(s, pid) ==> exists t :: HasPid(s, t, pid))
  }

  ghost predicate IsLiveParent(s: State, q: Tid, pid: int) {
    HasPid(s, q, pid) && s.procs[q].status != Hanging && s.procs[q].user
  }

  // A parent pid names a process that is live and has not exited. Kernel threads have none.
  ghost predicate ParentFits(s: State, t: Tid)
    requires t in s.procs
  {
    var p := s.procs[t];
    && p.parent != p.pid
    && (p.parent != NO_PARENT ==> p.user && exists q :: IsLiveParent(s, q, p.parent))
    && (p.status == Hanging ==> p.parent != NO_PARENT)
  }

  ghost predicate InitFits(s: State) {
    s.init in s.procs
        && s.procs[s.init] == Proc(INIT_PID, NO_PARENT, s.procs[s.init].status, s.procs[s.init].exitStatus, true)
  }

  // A process blocked in sys_wait has a child; unless it is init it has no zombie child.
  ghost predicate WaitFits(s: State, t: Tid)
    requires t in s.procs
  {
    s.procs[t].status == Waiting ==>
      && (exists c :: IsChild(s, c, s.procs[t].pid))
      && (t != s.init ==> forall c :: !IsHangingChild(s, c, s.procs[t].pid))
  }

  // Exit statuses: a zombie holds the one it left with, and none is handed out twice.
  ghost predicate HistoryFits(s: State) {
    && s.exited.Keys <= s.born
    && (forall t :: t in s.procs ==> (s.procs[t].status == Hanging <==> t in s.exited))
    && (forall t :: t in s.procs && t in s.exited ==> s.procs[t].exitStatus == s.exited[t])
    && (forall i :: 0 <= i < |s.collected| ==>
          s.collected[i].0 in s.exited && s.collected[i].0 !in s.procs
              && s.exited[s.collected[i].0] == s.collected[i].1)
    && (forall i, j :: 0 <= i < j < |s.collected| ==> s.collected[i].0 != s.collected[j].0)
  }

  ghost predicate TreeFits(s: State) {
    forall t :: t in s.procs ==> ParentFits(s, t) && WaitFits(s, t)
  }

  ghost predicate Inv(s: State) {
    && ListFits(s) && PidsFit(s) && InitFits(s) && HistoryFits(s)
    && TreeFits(s)
  }

  // ---- every step keeps it ----

  // A process keeps what WaitFits says of it when it stays as it was, loses no child, and gains no
  // zombie child.
  lemma WaitKept(s: State, s': State, t: Tid)
    requires t in s.procs && t in s'.procs && WaitFits(s, t) && s'.init == s.init
    requires s'.procs[t].pid == s.procs[t].pid && (s'.procs[t].status == Waiting ==> s.procs[t].status == Waiting)
    requires forall c :: IsChild(s, c, s.procs[t].pid) ==> IsChild(s', c, s.procs[t].pid)
    requires t != s.init ==> forall c :: IsHangingChild(s', c, s.procs[t].pid) ==> IsHangingChild(s, c, s.procs[t].pid)
    ensures WaitFits(s', t)
  {
    if s'.procs[t].status == Waiting {
      var c :| IsChild(s, c, s.procs[t].pid);
      assert IsChild(s', c, s'.procs[t].pid);
    }
  }

  // A process keeps its live parent when no live parent is lost.
  lemma ParentKept(s: State, s': State, t: Tid)
    requires t in s.procs && t in s'.procs && ParentFits(s, t)
    requires s'.procs[t].parent == s.procs[t].parent && s'.procs[t].user == s.procs[t].user
    requires s'.procs[t].pid == s.procs[t].pid
    requires s'.procs[t].status == Hanging ==> s.procs[t].status == Hanging
    requires forall q :: IsLiveParent(s, q, s.procs[t].parent) ==> IsLiveParent(s', q, s.procs[t].parent)
    ensures ParentFits(s', t)
  {
    if s.procs[t].parent != NO_PARENT {
      var q :| IsLiveParent(s, q, s.procs[t].parent);
      assert IsLiveParent(s', q, s'.procs[t].parent);
    }
  }

  // The pid pool only looks at who has which pid.
  lemma PidsKept(s: State, s': State)
    requires PidsFit(s) && s'.used == s.used && s'.procs.Keys == s.procs.Keys
    requires forall t :: t in s.procs ==> s'.procs[t].pid == s.procs[t].pid
    ensures PidsFit(s')
  {
    assert forall u, pid :: HasPid(s, u, pid) ==> HasPid(s', u, pid);
    assert forall pid :: Taken(s', pid) ==> Taken(s, pid);
  }

  lemma EnterPids(s: State, t: Tid, parent: int, user: bool, exitStatus: int)
    requires PidsFit(s) && t !in s.procs && false in s.used
    ensures PidsFit(Enter(s, t, parent, user, exitStatus))
  {
    var s' := Enter(s, t, parent, user, exitStatus);
    var bit := FirstClear(s.used);
    assert !Taken(s, 1 + bit);
    assert HasPid(s', t, 1 + bit);
    forall pid | Taken(s', pid)
      ensures exists u :: HasPid(s', u, pid)
    {
      if pid != 1 + bit {
        assert Taken(s, pid);
        var u :| HasPid(s, u, pid);
        assert HasPid(s', u, pid);
      }
    }
  }

  lemma EnterTree(s: State, t: Tid, parent: int, user: bool, exitStatus: int)
    requires TreeFits(s) && t !in s.procs && false in s.used
    requires parent != NO_PARENT ==> user && exists q :: IsLiveParent(s, q, parent)
    requires var pid := 1 + FirstClear(s.used); parent != pid && forall c :: !IsChild(s, c, pid)
    ensures TreeFits(Enter(s, t, parent, user, exitStatus))
  {
    var s' := Enter(s, t, parent, user, exitStatus);
    assert forall q, pid :: IsLiveParent(s, q, pid) ==> IsLiveParent(s', q, pid);
    forall u | u in s.procs
      ensures ParentFits(s', u) && WaitFits(s', u)
    {
      ParentKept(s, s', u);
      WaitKept(s, s', u);
    }
    if parent != NO_PARENT {
      var q :| IsLiveParent(s, q, parent);
      assert IsLiveParent(s', q, parent);
    }
  }

  // A pid that is free is nobody's parent.
  lemma FreePidHasNoChild(s: State, pid: int)
    requires PidsFit(s) && TreeFits(s) && !Taken(s, pid) && pid != NO_PARENT
    ensures forall c :: !IsChild(s, c, pid)
  {
    assert forall q :: IsLiveParent(s, q, pid) ==> Taken(s, pid);
    assert forall c :: c in s.procs ==> ParentFits(s, c);
  }

  lemma EnterKeeps(s: State, t: Tid, parent: int, user: bool, exitStatus: int)
    requires Inv(s) && t !in s.born && false in s.used
    requires parent != NO_PARENT ==> user && exists q :: IsLiveParent(s, q, parent)
    ensures Inv(Enter(s, t, parent, user, exitStatus))
    ensures forall u :: u in s.procs ==> s.procs[u].pid != NewPid(s) && s.procs[u].parent != NewPid(s)
  {
    EnterPids(s, t, parent, user, exitStatus);
    FreePidHasNoChild(s, NewPid(s));
    assert forall u :: u in s.procs && s.procs[u].parent == NewPid(s) ==> IsChild(s, u, NewPid(s));
    assert !Taken(s, NewPid(s)) && (parent != NO_PARENT ==> Taken(s, parent));
    EnterTree(s, t, parent, user, exitStatus);
    EnterRest(s, t, parent, user, exitStatus);
  }

  lemma EnterRest(s: State, t: Tid, parent: int, user: bool, exitStatus: int)
    requires ListFits(s) && InitFits(s) && HistoryFits(s) && t !in s.born && false in s.used
    ensures var s' := Enter(s, t, parent, user, exitStatus); ListFits(s') && InitFits(s') && HistoryFits(s')
  {
  }

  lemma DropPids(s: State, t: Tid)
    requires PidsFit(s) && t in s.procs
    ensures PidsFit(Drop(s, t))
  {
    var s' := Drop(s, t);
    var gone := s.procs[t].pid;
    assert Taken(s, gone);
    forall pid | Taken(s', pid)
      ensures exists u :: HasPid(s', u, pid)
    {
      assert Taken(s, pid) && pid != gone;
      var u :| HasPid(s, u, pid);
      assert HasPid(s', u, pid);
    }
    forall u | u in s'.procs
      ensures Taken(s', s'.procs[u].pid)
    {
      assert Taken(s, s.procs[u].pid) && s.procs[u].pid != gone;
    }
  }

  lemma WithoutDistinct(all: seq<Tid>, t: Tid)
    requires Distinct(all)
    ensures Distinct(Without(all, t))
  {
    if all != [] {
      WithoutDistinct(all[1..], t);
      assert all[0] !in all[1..];
    }
  }

  // thread_exit on t: nobody's parent goes away with it, and nobody is left waiting for it.
  lemma DropTree(s: State, t: Tid)
    requires TreeFits(s) && t in s.procs
    requires s.procs[t].status == Hanging || !s.procs[t].user
    requires forall u :: u in s.procs && s.procs[u].pid == s.procs[t].parent ==> s.procs[u].status != Waiting
    ensures TreeFits(Drop(s, t))
  {
    var s' := Drop(s, t);
    assert forall q, pid :: IsLiveParent(s, q, pid) ==> IsLiveParent(s', q, pid);
    forall u | u in s'.procs
      ensures ParentFits(s', u) && WaitFits(s', u)
    {
      ParentKept(s, s', u);
      if s.procs[u].status == Waiting {
        WaitKept(s, s', u);
      }
    }
  }

  lemma DropKeeps(s: State, t: Tid)
    requires Inv(s) && t in s.procs && t != s.init
    requires s.procs[t].status == Hanging || !s.procs[t].user
    requires forall u :: u in s.procs && s.procs[u].pid == s.procs[t].parent ==> s.procs[u].status != Waiting
    ensures var s' := Drop(s, t); ListFits(s') && PidsFit(s') && InitFits(s') && TreeFits(s') && HistoryFits(s')
  {
    DropPids(s, t);
    WithoutDistinct(s.all, t);
    DropTree(s, t);
  }

  // The parent collects t: its status is logged for the first time.
  lemma CollectKeepsHistory(s: State, t: Tid)
    requires HistoryFits(s) && t in s.procs && s.procs[t].status == Hanging
    ensures HistoryFits(Drop(s, t).(collected := s.collected + [(t, s.procs[t].exitStatus)]))
  {
  }

  // The tree does not look at the history.
  lemma SameTree(s: State, s': State)
    requires TreeFits(s) && s'.procs == s.procs && s'.init == s.init
    ensures TreeFits(s')
  {
    assert forall q, pid :: IsLiveParent(s, q, pid) ==> IsLiveParent(s', q, pid);
    assert forall c, pid :: IsChild(s, c, pid) ==> IsChild(s', c, pid);
    forall t | t in s'.procs
      ensures ParentFits(s', t) && WaitFits(s', t)
    {
      ParentKept(s, s', t);
      WaitKept(s, s', t);
    }
  }

  lemma SetStatusTree(s: State, t: Tid, status: Status)
    requires TreeFits(s) && t in s.procs && s.procs[t].status != Hanging && status != Hanging
    requires forall u :: u in s.procs && s.procs[t].pid == s.procs[u].pid ==> t == u
    requires status == Waiting ==>
      var pid := s.procs[t].pid; (exists c :: IsChild(s, c, pid)) && forall c :: !IsHangingChild(s, c, pid)
    ensures TreeFits(SetStatus(s, t, status))
  {
    var s' := SetStatus(s, t, status);
    assert forall q, pid :: IsLiveParent(s, q, pid) ==> IsLiveParent(s', q, pid);
    assert forall c, pid :: IsChild(s, c, pid) ==> IsChild(s', c, pid);
    forall u | u in s'.procs
      ensures ParentFits(s', u) && WaitFits(s', u)
    {
      ParentKept(s, s', u);
      if u != t {
        WaitKept(s, s', u);
      } else if status == Waiting {
        var c :| IsChild(s, c, s.procs[t].pid);
        assert IsChild(s', c, s'.procs[t].pid);
        assert forall c :: IsHangingChild(s', c, s.procs[t].pid) ==> IsHangingChild(s, c, s.procs[t].pid);
      }
    }
  }

  lemma SetStatusRest(s: State, t: Tid, status: Status)
    requires ListFits(s) && InitFits(s) && HistoryFits(s) && t in s.procs && s.procs[t].status != Hanging
    requires status != Hanging
    ensures var s' := SetStatus(s, t, status); ListFits(s') && InitFits(s') && HistoryFits(s')
  {
  }

  lemma SetStatusKeeps(s: State, t: Tid, status: Status)
    requires Inv(s) && t in s.procs && s.procs[t].status != Hanging && status != Hanging
    requires status == Waiting ==>
      var pid := s.procs[t].pid; (exists c :: IsChild(s, c, pid)) && forall c :: !IsHangingChild(s, c, pid)
    ensures Inv(SetStatus(s, t, status))
  {
    var s' := SetStatus(s, t, status);
    assert PidsFit(s') by {
      PidsKept(s, s');
    }
    assert TreeFits(s') by {
      SetStatusTree(s, t, status);
    }
    SetStatusRest(s, t, status);
  }

  lemma HangingChildFacts(s: State, pid: int)
    requires ListFits(s)
    ensures match HangingChildOf(s, pid)
      case Some(c) => IsHangingChild(s, c, pid)
      case None => forall c :: !IsHangingChild(s, c, pid)
    ensures match ChildOf(s, pid)
      case Some(c) => IsChild(s, c, pid)
      case None => forall c :: !IsChild(s, c, pid)
  {
    assert forall c :: IsHangingChild(s, c, pid) ==> c in s.all;
    assert forall c :: IsChild(s, c, pid) ==> c in s.all;
  }

  lemma CollectKeeps(s: State, t: Tid, c: Tid)
    requires Inv(s) && t in s.procs && s.procs[t].status == Ready && IsHangingChild(s, c, s.procs[t].pid)
    ensures Inv(Drop(s, c).(collected := s.collected + [(c, s.procs[c].exitStatus)]))
  {
    DropKeeps(s, c);
    CollectKeepsHistory(s, c);
    SameTree(Drop(s, c), Drop(s, c).(collected := s.collected + [(c, s.procs[c].exitStatus)]));
    PidsKept(Drop(s, c), Drop(s, c).(collected := s.collected + [(c, s.procs[c].exitStatus)]));
  }

  lemma WaitKeeps(s: State, t: Tid)
    requires Inv(s) && Enabled(s, t, Wait)
    ensures Inv(DoWait(s, t))
  {
    var pid := s.procs[t].pid;
    HangingChildFacts(s, pid);
    match HangingChildOf(s, pid) {
      case Some(c) => CollectKeeps(s, t, c);
      case None =>
        if ChildOf(s, pid) != None {
          SetStatusKeeps(s, t, Waiting);
        }
    }
  }

  // sys_exit, first: the status is written.
  lemma WrittenKeeps(s: State, t: Tid, status: int)
    requires Inv(s) && t in s.procs && s.procs[t].status != Hanging
    ensures Inv(Written(s, t, status))
  {
    var s' := Written(s, t, status);
    assert PidsFit(s') by {
      PidsKept(s, s');
    }
    assert TreeFits(s') by {
      WrittenTree(s, t, status);
    }
    WrittenRest(s, t, status);
  }

  lemma WrittenRest(s: State, t: Tid, status: int)
    requires ListFits(s) && InitFits(s) && HistoryFits(s) && t in s.procs && s.procs[t].status != Hanging
    ensures var s' := Written(s, t, status); ListFits(s') && InitFits(s') && HistoryFits(s')
  {
  }

  lemma WrittenTree(s: State, t: Tid, status: int)
    requires TreeFits(s) && t in s.procs
    ensures TreeFits(Written(s, t, status))
  {
    var s' := Written(s, t, status);
    assert forall q, pid :: IsLiveParent(s, q, pid) ==> IsLiveParent(s', q, pid);
    assert forall c, pid :: IsChild(s, c, pid) ==> IsChild(s', c, pid);
    forall u | u in s'.procs
      ensures ParentFits(s', u) && WaitFits(s', u)
    {
      ParentKept(s, s', u);
      WaitKept(s, s', u);
    }
  }

  // Then its children, zombies included, pass to init.
  lemma AdoptTree(s: State, t: Tid)
    requires TreeFits(s) && InitFits(s) && t in s.procs && t != s.init && s.procs[t].status == Ready
    requires forall u, w :: u in s.procs && w in s.procs && s.procs[u].pid == s.procs[w].pid ==> u == w
    requires s.procs[t].pid != NO_PARENT
    ensures TreeFits(Adopt(s, s.procs[t].pid))
  {
    var pid := s.procs[t].pid;
    var s' := Adopt(s, pid);
    assert ParentFits(s, s.init) && IsLiveParent(s', s.init, INIT_PID);
    assert forall q, n :: IsLiveParent(s, q, n) ==> IsLiveParent(s', q, n);
    assert forall c, n :: IsChild(s, c, n) && n != pid ==> IsChild(s', c, n);
    forall u | u in s'.procs
      ensures ParentFits(s', u) && WaitFits(s', u)
    {
      assert ParentFits(s, u) && WaitFits(s, u);
      if s.procs[u].parent != pid {
        ParentKept(s, s', u);
      }
      if u != t && s.procs[u].status == Waiting {
        assert u != s.init ==> s.procs[u].pid != s.procs[s.init].pid;
        WaitKept(s, s', u);
      }
    }
  }

  lemma AdoptKeeps(s: State, t: Tid)
    requires Inv(s) && t in s.procs && t != s.init && s.procs[t].status == Ready
    ensures Inv(Adopt(s, s.procs[t].pid))
    ensures var pid := s.procs[t].pid; forall c :: !IsChild(Adopt(s, pid), c, pid)
  {
    var pid := s.procs[t].pid;
    var s' := Adopt(s, pid);
    assert Taken(s, pid) && s.procs[s.init].pid == INIT_PID;
    assert PidsFit(s') by {
      PidsKept(s, s');
    }
    assert TreeFits(s') by {
      AdoptTree(s, t);
    }
    AdoptRest(s, pid);
    AdoptedAll(s, pid);
  }

  lemma AdoptedAll(s: State, pid: int)
    requires pid != INIT_PID
    ensures forall c :: !IsChild(Adopt(s, pid), c, pid)
  {
  }

  lemma AdoptRest(s: State, pid: int)
    requires ListFits(s) && InitFits(s) && HistoryFits(s) && pid != NO_PARENT
    ensures var s' := Adopt(s, pid); ListFits(s') && InitFits(s') && HistoryFits(s')
  {
  }

  lemma LeavingKeeps(s: State, t: Tid, status: int)
    requires Inv(s) && t in s.procs && t != s.init && s.procs[t].status == Ready
    ensures Inv(Leaving(s, t, status))
  {
    WrittenKeeps(s, t, status);
    AdoptKeeps(Written(s, t, status), t);
  }

  lemma LeavingDoes(s: State, t: Tid, status: int)
    requires t in s.procs && s.procs[t].parent != s.procs[t].pid && s.procs[t].pid != INIT_PID
    ensures var s1 := Leaving(s, t, status); var pid := s.procs[t].pid;
      && s1 == s.(procs := s1.procs) && s1.procs.Keys == s.procs.Keys && (forall c :: !IsChild(s1, c, pid))
      && forall u :: u in s.procs ==> s1.procs[u] == s.procs[u].(
           parent := if s.procs[u].parent == pid then INIT_PID else s.procs[u].parent,
           exitStatus := if u == t then Int8(status) else s.procs[u].exitStatus)
  {
  }

  lemma CanLeave(s: State, t: Tid)
    requires Inv(s) && t in s.procs && s.procs[t].parent != NO_PARENT
    ensures t != s.init && s.procs[t].parent != s.procs[t].pid && s.procs[t].pid != INIT_PID
  {
    assert ParentFits(s, t);
  }

  // pid2thread finds the parent of every process that has one: it is live and has not exited.
  lemma ParentIsFound(s: State, t: Tid)
    requires ListFits(s) && t in s.procs && ParentFits(s, t) && s.procs[t].parent != NO_PARENT
    requires forall u, w :: u in s.procs && w in s.procs && s.procs[u].pid == s.procs[w].pid ==> u == w
    ensures var r := Pid2Thread(s, s.procs[t].parent);
      && r.Some? && IsLiveParent(s, r.value, s.procs[t].parent)
      && forall q :: HasPid(s, q, s.procs[t].parent) ==> q == r.value
  {
    var pid := s.procs[t].parent;
    var q :| IsLiveParent(s, q, pid);
    assert HasPid(s, q, pid) && q in s.all;
  }

  // Then the parent, found by pid, is woken from sys_wait.
  lemma WakeParentKeeps(s: State, t: Tid)
    requires Inv(s) && t in s.procs && s.procs[t].parent != NO_PARENT
    ensures Inv(WakeParent(s, s.procs[t].parent))
  {
    assert ParentFits(s, t);
    ParentIsFound(s, t);
    var q := Pid2Thread(s, s.procs[t].parent).value;
    if s.procs[q].status == Waiting {
      SetStatusKeeps(s, q, Ready);
    }
  }

  lemma WakeParentDoes(s: State, t: Tid)
    requires ListFits(s) && t in s.procs && ParentFits(s, t) && s.procs[t].parent != NO_PARENT
    requires forall u, w :: u in s.procs && w in s.procs && s.procs[u].pid == s.procs[w].pid ==> u == w
    ensures var parent := s.procs[t].parent; var s' := WakeParent(s, parent);
      && s' == s.(procs := s'.procs) && s'.procs.Keys == s.procs.Keys
      && forall u :: u in s.procs ==>
           s'.procs[u] == s.procs[u].(status := if s.procs[u].pid == parent && s.procs[u].status == Waiting then Ready
               else s.procs[u].status)
  {
    ParentIsFound(s, t);
    assert forall u :: u in s.procs && s.procs[u].pid == s.procs[t].parent ==> HasPid(s, u, s.procs[t].parent);
  }

  // Then it becomes a zombie: no child names it, and its parent is not in sys_wait.
  lemma HangTree(s: State, t: Tid)
    requires TreeFits(s) && t in s.procs && s.procs[t].status == Ready && s.procs[t].parent != NO_PARENT
    requires var pid := s.procs[t].pid; forall c :: !IsChild(s, c, pid)
    requires var parent := s.procs[t].parent; forall q :: HasPid(s, q, parent) ==> s.procs[q].status != Waiting
    ensures TreeFits(SetStatus(s, t, Hanging))
  {
    var s' := SetStatus(s, t, Hanging);
    assert forall q, n :: IsLiveParent(s, q, n) && q != t ==> IsLiveParent(s', q, n);
    assert forall c, n :: IsChild(s, c, n) ==> IsChild(s', c, n);
    forall u | u in s'.procs
      ensures ParentFits(s', u) && WaitFits(s', u)
    {
      assert ParentFits(s, u) && WaitFits(s, u) && !IsChild(s, u, s.procs[t].pid);
      if s.procs[u].parent != NO_PARENT {
        var q :| IsLiveParent(s, q, s.procs[u].parent);
        assert IsLiveParent(s', q, s.procs[u].parent);
      }
      if u != t && s.procs[u].status == Waiting {
        assert HasPid(s, u, s.procs[u].pid);
        WaitKept(s, s', u);
      }
    }
  }

  lemma HangRest(s: State, t: Tid)
    requires ListFits(s) && InitFits(s) && HistoryFits(s) && t in s.procs && s.procs[t].status == Ready
    ensures var s' := SetStatus(s, t, Hanging).(exited := s.exited[t := s.procs[t].exitStatus]);
      ListFits(s') && InitFits(s') && HistoryFits(s')
  {
  }

  lemma HangKeeps(s: State, t: Tid)
    requires Inv(s) && t in s.procs && s.procs[t].status == Ready && s.procs[t].parent != NO_PARENT
    requires var pid := s.procs[t].pid; forall c :: !IsChild(s, c, pid)
    requires var parent := s.procs[t].parent; forall q :: HasPid(s, q, parent) ==> s.procs[q].status != Waiting
    ensures Inv(SetStatus(s, t, Hanging).(exited := s.exited[t := s.procs[t].exitStatus]))
  {
    var s' := SetStatus(s, t, Hanging).(exited := s.exited[t := s.procs[t].exitStatus]);
    assert PidsFit(s') by {
      PidsKept(s, s');
    }
    assert TreeFits(s') by {
      HangTree(s, t);
      SameTree(SetStatus(s, t, Hanging), s');
    }
    HangRest(s, t);
  }

  // What sys_exit leaves of u when t exits: t is a zombie with its status, t's children are init's,
  // and t's parent is no longer in sys_wait.
  function Exited(s: State, t: Tid, status: int, u: Tid): Proc
    requires t in s.procs && u in s.procs
  {
    var p := s.procs[u];
    if u == t then p.(status := Hanging, exitStatus := Int8(status))
    else p.(
      parent := if p.parent == s.procs[t].pid then INIT_PID else p.parent,
      status := if p.pid == s.procs[t].parent && p.status == Waiting then Ready else p.status)
  }

  lemma WokenKeeps(s: State, t: Tid, status: int)
    requires Inv(s) && t in s.procs && s.procs[t].status == Ready && s.procs[t].parent != NO_PARENT
    ensures Inv(Woken(s, t, status))
  {
    CanLeave(s, t);
    LeavingKeeps(s, t, status);
    LeavingDoes(s, t, status);
    WakeParentKeeps(Leaving(s, t, status), t);
  }

  // Everyone before t itself becomes a zombie.
  ghost predicate AllWoken(s: State, s2: State, t: Tid, status: int)
    requires t in s.procs
  {
    && s2.procs.Keys == s.procs.Keys
    && forall u :: u in s.procs ==>
         s2.procs[u] == Exited(s, t, status, u).(status := if u == t then Ready else Exited(s, t, status, u).status)
  }

  // What WakeParentDoes needs of the state in which t has left its children to init.
  lemma LeavingFits(s: State, t: Tid, status: int)
    requires Inv(s) && t in s.procs && s.procs[t].status == Ready && s.procs[t].parent != NO_PARENT
    ensures var s1 := Leaving(s, t, status);
      && ListFits(s1) && ParentFits(s1, t)
      && forall u, w :: u in s1.procs && w in s1.procs && s1.procs[u].pid == s1.procs[w].pid ==> u == w
  {
    CanLeave(s, t);
    LeavingKeeps(s, t, status);
  }

  lemma WokenDoes(s: State, t: Tid, status: int)
    requires Inv(s) && t in s.procs && s.procs[t].status == Ready && s.procs[t].parent != NO_PARENT
    ensures var s2 := Woken(s, t, status);
      s2 == s.(procs := s2.procs) && AllWoken(s, s2, t, status)
  {
    LeavingFits(s, t, status);
    CanLeave(s, t);
    WokenIs(s, t, status);
  }

  lemma WokenIs(s: State, t: Tid, status: int)
    requires t in s.procs && s.procs[t].status == Ready && s.procs[t].parent != NO_PARENT
    requires s.procs[t].parent != s.procs[t].pid && s.procs[t].pid != INIT_PID
    requires var s1 := Leaving(s, t, status);
      && ListFits(s1) && ParentFits(s1, t)
      && forall u, w :: u in s1.procs && w in s1.procs && s1.procs[u].pid == s1.procs[w].pid ==> u == w
    ensures var s2 := Woken(s, t, status);
      s2 == s.(procs := s2.procs) && AllWoken(s, s2, t, status)
  {
    LeavingDoes(s, t, status);
    WakeParentDoes(Leaving(s, t, status), t);
  }

  lemma WokenReady(s: State, t: Tid, status: int)
    requires Inv(s) && t in s.procs && s.procs[t].status == Ready && s.procs[t].parent != NO_PARENT
    ensures var s2 := Woken(s, t, status);
      && t in s2.procs && s2.procs[t] == s.procs[t].(exitStatus := Int8(status)) && s2.exited == s.exited
      && (var pid := s2.procs[t].pid; forall c :: !IsChild(s2, c, pid))
      && (var parent := s2.procs[t].parent; forall q :: HasPid(s2, q, parent) ==> s2.procs[q].status != Waiting)
  {
    CanLeave(s, t);
    WokenDoes(s, t, status);
  }

  lemma ExitKeeps(s: State, t: Tid, status: int)
    requires Inv(s) && t in s.procs && s.procs[t].status == Ready && s.procs[t].parent != NO_PARENT
    ensures Inv(DoExit(s, t, status))
  {
    WokenKeeps(s, t, status);
    WokenReady(s, t, status);
    HangKeeps(Woken(s, t, status), t);
  }

  lemma ApplyKeepsInv(s: State, t: Tid, a: Act)
    requires Inv(s) && Enabled(s, t, a)
    ensures Inv(Apply(s, t, a))
  {
    match a {
      case Fork(child) =>
        assert IsLiveParent(s, t, s.procs[t].pid) && Taken(s, s.procs[t].pid);
        EnterKeeps(s, child, s.procs[t].pid, true, s.procs[t].exitStatus);
      case Exit(status) => ExitKeeps(s, t, status);
      case Wait => WaitKeeps(s, t);
      case StartThread(u) => EnterKeeps(s, u, NO_PARENT, false, 0);
      case EndThread =>
        assert ParentFits(s, t) && forall u :: u in s.procs ==> Taken(s, s.procs[u].pid);
        DropKeeps(s, t);
      case Sleep => SetStatusKeeps(s, t, Blocked);
      case WakeUp(u) => SetStatusKeeps(s, u, Ready);
    }
  }

  // ---- runs ----

  ghost predicate IsRun(s: State, run: seq<(Tid, Act)>)
    requires Inv(s)
    decreases |run|
  {
    run == [] ||
    (Enabled(s, run[0].0, run[0].1) &&
     (ApplyKeepsInv(s, run[0].0, run[0].1); IsRun(Apply(s, run[0].0, run[0].1), run[1..])))
  }

  ghost function After(s: State, run: seq<(Tid, Act)>): State
    requires Inv(s) && IsRun(s, run)
    decreases |run|
  {
    if run == [] then s
    else
      ApplyKeepsInv(s, run[0].0, run[0].1);
      After(Apply(s, run[0].0, run[0].1), run[1..])
  }

  // thread_init: init, main and idle, with pids 1, 2 and 3.
  function Boot(init: Tid, main: Tid, idle: Tid): State {
    State(
      map[init := Proc(1, NO_PARENT, Ready, 0, true), main := Proc(2, NO_PARENT, Ready, 0, false),
        idle := Proc(3, NO_PARENT, Ready, 0, false)],
      [init, main, idle], seq(PID_CNT, i => i < 3), init, {init, main, idle}, map[], [])
  }

  lemma BootInv(init: Tid, main: Tid, idle: Tid)
    requires init != main && main != idle && idle != init
    ensures Inv(Boot(init, main, idle))
  {
    var s := Boot(init, main, idle);
    assert ListFits(s) by {
      assert s.all[0] == init && s.all[1] == main && s.all[2] == idle;
    }
    assert PidsFit(s) by {
      assert HasPid(s, init, 1) && HasPid(s, main, 2) && HasPid(s, idle, 3);
    }
  }

  // The process tree over every run from boot: live pids are distinct; every process with a parent
  // has one that is live and has not exited, so nobody names a released pid; each exit status is
  // collected at most once and as the child left it; and a process blocked in sys_wait has a child
  // and, unless it is init, no zombie among them.
  lemma {:induction false} TreeSafe(s: State, run: seq<(Tid, Act)>)
    requires Inv(s) && IsRun(s, run)
    ensures var e := After(s, run);
      && Inv(e)
      && (forall t, u :: t in e.procs && u in e.procs && e.procs[t].pid == e.procs[u].pid ==> t == u)
      && (forall t :: t in e.procs && e.procs[t].parent != NO_PARENT ==>
            Taken(e, e.procs[t].parent) && exists q :: IsLiveParent(e, q, e.procs[t].parent))
      && (forall i, j :: 0 <= i < j < |e.collected| ==> e.collected[i].0 != e.collected[j].0)
      && (forall i :: 0 <= i < |e.collected| ==>
            e.collected[i].0 in e.exited && e.collected[i].1 == e.exited[e.collected[i].0])
      && (forall t :: t in e.procs && e.procs[t].status == Waiting && t != e.init ==>
            (exists c :: IsChild(e, c, e.procs[t].pid)) && forall c :: IsChild(e, c, e.procs[t].pid) ==>
                e.procs[c].status != Hanging)
    decreases |run|
  {
    if run != [] {
      ApplyKeepsInv(s, run[0].0, run[0].1);
      TreeSafe(Apply(s, run[0].0, run[0].1), run[1..]);
    } else {
      TreeNow(s);
    }
  }

  lemma TreeNow(s: State)
    requires Inv(s)
    ensures forall t :: t in s.procs && s.procs[t].parent != NO_PARENT ==>
      Taken(s, s.procs[t].parent) && exists q :: IsLiveParent(s, q, s.procs[t].parent)
    ensures forall t :: t in s.procs && s.procs[t].status == Waiting && t != s.init ==>
      (exists c :: IsChild(s, c, s.procs[t].pid)) && forall c :: IsChild(s, c, s.procs[t].pid) ==>
          s.procs[c].status != Hanging
  {
    forall t | t in s.procs
      ensures s.procs[t].parent != NO_PARENT ==>
          Taken(s, s.procs[t].parent) && exists q :: IsLiveParent(s, q, s.procs[t].parent)
      ensures s.procs[t].status == Waiting && t != s.init ==> forall c :: IsChild(s, c, s.procs[t].pid) ==>
          s.procs[c].status != Hanging
    {
      assert ParentFits(s, t) && WaitFits(s, t);
      if s.procs[t].parent != NO_PARENT {
        var q :| IsLiveParent(s, q, s.procs[t].parent);
        assert Taken(s, s.procs[q].pid);
      }
      assert forall c :: IsChild(s, c, s.procs[t].pid) && s.procs[c].status == Hanging ==>
          IsHangingChild(s, c, s.procs[t].pid);
    }
  }

  // One pass of sys_wait, from the fields before it: the first zombie child in the list is collected and its
  // pid free again; without a child nothing changes; with live ones only the caller sleeps.
  ghost predicate Waited(s: State, s': State, t: Tid, r: WaitResult)
    requires t in s.procs
  {
    var pid := s.procs[t].pid;
    match r
    case Child(cpid, status) => exists i :: IsFirstZombie(s, i, pid) && CollectedAt(s, s', i, cpid, status)
    case NoChild => s' == s && forall c :: !IsChild(s, c, pid)
    case Again =>
      && (exists c :: IsChild(s, c, pid)) && (forall c :: !IsHangingChild(s, c, pid))
      && s' == s.(procs := s.procs[t := s.procs[t].(status := Waiting)])
  }

  ghost predicate IsFirstZombie(s: State, i: int, pid: int) {
    0 <= i < |s.all| && IsHangingChild(s, s.all[i], pid) && forall j :: 0 <= j < i ==> !IsHangingChild(s, s.all[j], pid)
  }

  ghost predicate CollectedAt(s: State, s': State, i: nat, pid: int, status: int)
    requires i < |s.all|
  {
    var c := s.all[i];
    && c in s.procs && s.procs[c].pid == pid && s.procs[c].exitStatus == status && 1 <= pid <= |s.used|
    && s'.procs == s.procs - {c} && s'.all == s.all[..i] + s.all[i + 1..] && s'.used == s.used[pid - 1 := false]
    && s'.collected == s.collected + [(c, status)]
  }

  lemma WaitIs(s: State, t: Tid)
    requires Inv(s) && Enabled(s, t, Wait)
    ensures Waited(s, DoWait(s, t), t, WaitOutcome(s, t))
  {
    var pid := s.procs[t].pid;
    HangingChildFacts(s, pid);
    if HangingChildOf(s, pid).Some? {
      var i := FirstZombie(s, pid);
      assert Taken(s, s.procs[s.all[i]].pid);
      CollectIs(s, t, i);
    }
  }

  lemma FirstZombie(s: State, pid: int) returns (i: nat)
    requires HangingChildOf(s, pid).Some?
    ensures IsFirstZombie(s, i, pid) && HangingChildOf(s, pid) == Some(s.all[i])
  {
    var f := HangingTest(s, pid);
    i :| 0 <= i < |s.all| && s.all[i] == First(s.all, f).value && forall j :: 0 <= j < i ==> !f(s.all[j]);
    assert forall u :: f(u) == IsHangingChild(s, u, pid);
  }

  lemma CollectIs(s: State, t: Tid, i: nat)
    requires Distinct(s.all) && t in s.procs && i < |s.all| && HangingChildOf(s, s.procs[t].pid) == Some(s.all[i])
    requires s.all[i] in s.procs && 1 <= s.procs[s.all[i]].pid <= |s.used|
    ensures var c := s.all[i]; CollectedAt(s, DoWait(s, t), i, s.procs[c].pid, s.procs[c].exitStatus)
  {
    WithoutAt(s.all, i);
  }

  lemma {:induction false} WithoutAt(all: seq<Tid>, i: nat)
    requires Distinct(all) && i < |all|
    ensures Without(all, all[i]) == all[..i] + all[i + 1..]
  {
    if i == 0 {
      assert all[0] !in all[1..];
      WithoutNone(all[1..], all[0]);
    } else {
      WithoutAt(all[1..], i - 1);
      assert all[1..][i - 1] == all[i] && all[0] != all[i];
      assert all[..i] == [all[0]] + all[1..][..i - 1];
    }
  }

  lemma {:induction false} WithoutNone(all: seq<Tid>, t: Tid)
    requires t !in all
    ensures Without(all, t) == all
  {
    if all != [] {
      WithoutNone(all[1..], t);
    }
  }

  // ---- what one call means for those that follow ----

  // After a fork by t the new process is a live child of t, and nobody else has changed.
  ghost predicate ForkedBy(s: State, s': State, t: Tid, child: Tid)
    requires t in s.procs
  {
    && child !in s.procs && child in s'.procs && s'.procs == s.procs[child := s'.procs[child]]
    && s'.procs[child].parent == s.procs[t].pid && s'.procs[child].status == Ready && s'.procs[child].user
    && s'.procs[child].exitStatus == s.procs[t].exitStatus
    && s'.all == s.all + [child] && LowestFree(s, s', s'.procs[child].pid)
  }

  // pid is the lowest one free in s, and the only one taken since.
  ghost predicate LowestFree(s: State, s': State, pid: int) {
    && 1 <= pid <= |s.used| && !s.used[pid - 1] && s'.used == s.used[pid - 1 := true]
    && forall n :: 1 <= n < pid ==> Taken(s, n)
  }

  // So sys_wait does not answer -1 to the parent, and the child's exit wakes it.
  lemma ForkIs(s: State, t: Tid, child: Tid)
    requires Inv(s) && Enabled(s, t, Fork(child))
    ensures var s' := Apply(s, t, Fork(child));
      && ForkedBy(s, s', t, child) && IsChild(s', child, s.procs[t].pid)
      && Enabled(s', t, Wait) && WaitOutcome(s', t) != NoChild
  {
    var s' := Apply(s, t, Fork(child));
    ForkedNow(s, t, child);
    assert ListFits(s') by {
      ApplyKeepsInv(s, t, Fork(child));
    }
    HasChild(s', t, child);
  }

  lemma ForkedNow(s: State, t: Tid, child: Tid)
    requires ListFits(s) && Enabled(s, t, Fork(child))
    ensures ForkedBy(s, Apply(s, t, Fork(child)), t, child)
    ensures IsChild(Apply(s, t, Fork(child)), child, s.procs[t].pid) && Enabled(Apply(s, t, Fork(child)), t, Wait)
    ensures Apply(s, t, Fork(child)).procs[t] == s.procs[t]
  {
  }

  lemma HasChild(s: State, t: Tid, child: Tid)
    requires ListFits(s) && t in s.procs && IsChild(s, child, s.procs[t].pid)
    ensures WaitOutcome(s, t) != NoChild
  {
    HangingChildFacts(s, s.procs[t].pid);
  }

  // A parent without a zombie child forks, the child exits, and the parent waits: it gets the child's pid
  // and status, and processes, list and pids are what they were before the fork.
  lemma ForkExitWait(s: State, t: Tid, child: Tid, status: int)
    requires Inv(s) && Enabled(s, t, Fork(child)) && forall c :: !IsHangingChild(s, c, s.procs[t].pid)
    ensures var s1 := Apply(s, t, Fork(child));
      Enabled(s1, child, Exit(status)) &&
      var s2 := Apply(s1, child, Exit(status));
      && Enabled(s2, t, Wait) && WaitOutcome(s2, t) == Child(s1.procs[child].pid, Int8(status))
      && var s3 := Apply(s2, t, Wait); s3.procs == s.procs && s3.all == s.all && s3.used == s.used
  {
    var s1 := Apply(s, t, Fork(child));
    ForkedNow(s, t, child);
    assert Inv(s1) by {
      ApplyKeepsInv(s, t, Fork(child));
    }
    assert s.procs[t].pid != NO_PARENT by {
      assert Taken(s, s.procs[t].pid);
    }
    var s2 := Apply(s1, child, Exit(status));
    ExitForEveryone(s1, child, status);
    FreePidHasNoChild(s, s1.procs[child].pid);
    ChildExited(s, s1, s2, t, child, status);
    assert ListFits(s2) by {
      ApplyKeepsInv(s1, child, Exit(status));
    }
    ChildCollected(s, s1, s2, t, child, Int8(status));
  }

  // The wait that follows.
  lemma ChildCollected(s: State, s1: State, s2: State, t: Tid, child: Tid, status: int)
    requires t in s.procs && s.procs[t].status == Ready && s.procs[t].user && ForkedBy(s, s1, t, child)
    requires ListFits(s2) && s2 == s1.(procs := s2.procs, exited := s2.exited)
    requires s2.procs == s.procs[child := s2.procs[child]] && child in s2.procs
    requires s2.procs[child].exitStatus == status && s2.procs[child].pid == s1.procs[child].pid
    requires forall c :: IsHangingChild(s2, c, s.procs[t].pid) <==> c == child
    ensures t != child && s2.procs[t] == s.procs[t]
    ensures WaitOutcome(s2, t) == Child(s1.procs[child].pid, status)
    ensures var s3 := DoWait(s2, t); s3.procs == s.procs && s3.all == s.all && s3.used == s.used
  {
    OnlyZombie(s2, s.procs[t].pid, child);
    DropUndoes(s, s2, child);
  }

  lemma OnlyZombie(s: State, pid: int, c: Tid)
    requires ListFits(s) && forall u :: IsHangingChild(s, u, pid) <==> u == c
    ensures HangingChildOf(s, pid) == Some(c)
  {
    HangingChildFacts(s, pid);
    assert IsHangingChild(s, c, pid);
  }

  lemma DropUndoes(s: State, s2: State, c: Tid)
    requires c !in s.procs && Distinct(s2.all) && c in s2.procs && s2.procs == s.procs[c := s2.procs[c]]
    requires s2.all == s.all + [c] && 1 <= s2.procs[c].pid <= |s.used| && !s.used[s2.procs[c].pid - 1]
    requires s2.used == s.used[s2.procs[c].pid - 1 := true]
    ensures Drop(s2, c).procs == s.procs && Drop(s2, c).all == s.all && Drop(s2, c).used == s.used
  {
    assert s2.all[|s.all|] == c && s2.all[..|s.all|] + s2.all[|s.all| + 1..] == s.all;
    WithoutAt(s2.all, |s.all|);
  }

  // The exit of a new child leaves everybody else as they were, with one zombie child of t.
  lemma ChildExited(s: State, s1: State, s2: State, t: Tid, child: Tid, status: int)
    requires t in s.procs && s.procs[t].status == Ready && ForkedBy(s, s1, t, child)
    requires forall u, w :: u in s.procs && w in s.procs && s.procs[u].pid == s.procs[w].pid ==> u == w
    requires forall c :: !IsHangingChild(s, c, s.procs[t].pid) && !IsChild(s, c, s1.procs[child].pid)
    requires s2.procs.Keys == s1.procs.Keys && forall u :: u in s1.procs ==> s2.procs[u] == Exited(s1, child, status, u)
    ensures child in s2.procs && s2.procs == s.procs[child := s2.procs[child]]
    ensures s2.procs[child].exitStatus == Int8(status) && s2.procs[child].pid == s1.procs[child].pid
    ensures forall c :: IsHangingChild(s2, c, s.procs[t].pid) <==> c == child
  {
    forall u | u in s.procs
      ensures s2.procs[u] == s.procs[u]
    {
      assert s1.procs[u] == s.procs[u] && !IsChild(s, u, s1.procs[child].pid);
    }
    forall c | IsHangingChild(s2, c, s.procs[t].pid)
      ensures c == child
    {
      if c != child {
        assert IsHangingChild(s, c, s.procs[t].pid);
      }
    }
  }

  // What one pass of sys_wait answers: some zombie child with the status it left with, -1 if there
  // is no child at all, and otherwise it blocks.
  lemma WaitAnswers(s: State, t: Tid)
    requires Inv(s) && Enabled(s, t, Wait)
    ensures var pid := s.procs[t].pid; var s' := DoWait(s, t);
      match WaitOutcome(s, t)
      case Child(cpid, status) =>
        (exists c :: IsHangingChild(s, c, pid) && s.procs[c].pid == cpid && c in s.exited && s.exited[c] == status
                     && s'.procs == s.procs - {c} && !Taken(s', cpid))
      case NoChild => (forall c :: !IsChild(s, c, pid)) && s' == s
      case Again => (forall c :: !IsHangingChild(s, c, pid)) && s'.procs[t].status == Waiting
  {
    HangingChildFacts(s, s.procs[t].pid);
    if HangingChildOf(s, s.procs[t].pid).Some? {
      CollectedNow(s, t, HangingChildOf(s, s.procs[t].pid).value);
    }
  }

  lemma CollectedNow(s: State, t: Tid, c: Tid)
    requires PidsFit(s) && HistoryFits(s) && t in s.procs && IsHangingChild(s, c, s.procs[t].pid)
    ensures c in s.exited && s.exited[c] == s.procs[c].exitStatus
    ensures Drop(s, c).procs == s.procs - {c} && !Taken(Drop(s, c), s.procs[c].pid)
  {
    assert Taken(s, s.procs[c].pid);
  }

  // ---- init ----

  ghost predicate InitServed(s: State)
    requires s.init in s.procs
  {
    s.procs[s.init].status == Waiting ==> forall c :: !IsHangingChild(s, c, INIT_PID)
  }

  lemma ExitForEveryone(s: State, t: Tid, status: int)
    requires Inv(s) && Enabled(s, t, Exit(status))
    ensures var e := DoExit(s, t, status);
      && e == s.(procs := e.procs, exited := s.exited[t := Int8(status)]) && e.procs.Keys == s.procs.Keys
      && forall u :: u in s.procs ==> e.procs[u] == Exited(s, t, status, u)
  {
    WokenDoes(s, t, status);
    HungNow(s, Woken(s, t, status), t, status);
  }

  lemma HungNow(s: State, s2: State, t: Tid, status: int)
    requires t in s.procs && AllWoken(s, s2, t, status)
    ensures SetStatus(s2, t, Hanging).procs.Keys == s.procs.Keys
    ensures forall u :: u in s.procs ==> SetStatus(s2, t, Hanging).procs[u] == Exited(s, t, status, u)
  {
  }

  ghost predicate Orphans(s: State, t: Tid)
    requires t in s.procs && s.init in s.procs
  {
    var pid := s.procs[t].pid;
    s.procs[s.init].status == Waiting && s.procs[t].parent != INIT_PID && exists c :: IsHangingChild(s, c, pid)
  }

  // init_adopt_a_child wakes nobody. Exactly when a process that is not init's child exits, leaving
  // zombies, while init is in sys_wait, init stays blocked with a zombie to collect.
  lemma InitServedAfterExit(s: State, t: Tid, status: int)
    requires Inv(s) && Enabled(s, t, Exit(status)) && InitServed(s)
    ensures DoExit(s, t, status).init in DoExit(s, t, status).procs
    ensures InitServed(DoExit(s, t, status)) <==> !Orphans(s, t)
  {
    ExitForEveryone(s, t, status);
    assert ParentFits(s, t);
    InitServedAfter(s, DoExit(s, t, status), t, status);
  }

  lemma InitServedAfter(s: State, e: State, t: Tid, status: int)
    requires InitFits(s) && InitServed(s) && t in s.procs && t != s.init && s.procs[t].parent != s.procs[t].pid
    requires e.procs.Keys == s.procs.Keys && e.init == s.init
    requires forall u :: u in s.procs ==> e.procs[u] == Exited(s, t, status, u)
    ensures InitServed(e) <==> !Orphans(s, t)
  {
    var pid := s.procs[t].pid;
    if Orphans(s, t) {
      var c :| IsHangingChild(s, c, pid);
      assert IsHangingChild(e, c, INIT_PID);
    } else {
      assert forall c :: IsHangingChild(e, c, INIT_PID) && c != t ==>
        IsHangingChild(s, c, INIT_PID) || IsHangingChild(s, c, pid);
    }
  }

  // No other step leaves a zombie to an init that waits.
  lemma InitServedOn(s: State, t: Tid, a: Act)
    requires Inv(s) && Enabled(s, t, a) && InitServed(s)
    ensures Apply(s, t, a).init in Apply(s, t, a).procs
    ensures InitServed(Apply(s, t, a)) <==> !(a.Exit? && Orphans(s, t))
  {
    if a.Exit? {
      InitServedAfterExit(s, t, a.status);
    } else if a.Wait? {
      HangingChildFacts(s, s.procs[t].pid);
      InitServedAfterWait(s, t);
    } else {
      InitServedAfterOthers(s, t, a);
    }
  }

  lemma InitServedAfterOthers(s: State, t: Tid, a: Act)
    requires ListFits(s) && InitFits(s) && InitServed(s) && Enabled(s, t, a) && !a.Exit? && !a.Wait?
    ensures Apply(s, t, a).init in Apply(s, t, a).procs && InitServed(Apply(s, t, a))
  {
    forall c | IsHangingChild(Apply(s, t, a), c, INIT_PID)
      ensures IsHangingChild(s, c, INIT_PID)
    {
    }
  }

  lemma InitServedAfterWait(s: State, t: Tid)
    requires InitFits(s) && InitServed(s) && t in s.procs && s.procs[t].status != Waiting
    requires var c := HangingChildOf(s, s.procs[t].pid);
      if c.Some? then IsHangingChild(s, c.value, s.procs[t].pid) else forall c :: !IsHangingChild(s, c, s.procs[t].pid)
    requires s.procs[s.init].parent != s.procs[t].pid
    ensures DoWait(s, t).init in DoWait(s, t).procs && InitServed(DoWait(s, t))
  {
    forall c | IsHangingChild(DoWait(s, t), c, INIT_PID)
      ensures IsHangingChild(s, c, INIT_PID)
    {
    }
  }

  // So over a whole run without such an exit, init never sleeps over a zombie.
  lemma {:induction false} InitServedAlways(s: State, run: seq<(Tid, Act)>)
    requires Inv(s) && IsRun(s, run) && InitServed(s) && NoOrphaning(s, run)
    ensures After(s, run).init in After(s, run).procs && InitServed(After(s, run))
    decreases |run|
  {
    if run != [] {
      InitServedOn(s, run[0].0, run[0].1);
      ApplyKeepsInv(s, run[0].0, run[0].1);
      InitServedAlways(Apply(s, run[0].0, run[0].1), run[1..]);
    }
  }

  ghost predicate NoOrphaning(s: State, run: seq<(Tid, Act)>)
    requires Inv(s) && IsRun(s, run)
    decreases |run|
  {
    run != [] ==>
      !(run[0].1.Exit? && Orphans(s, run[0].0)) &&
      (ApplyKeepsInv(s, run[0].0, run[0].1); NoOrphaning(Apply(s, run[0].0, run[0].1), run[1..]))
  }

  // Such a state: init waits, its child 20 has the child 30, and 30's zombie child is 40.
  function Orphaning(): State {
    State(
      map[1 := Proc(1, NO_PARENT, Waiting, 0, true), 20 := Proc(4, 1, Ready, 0, true),
        30 := Proc(5, 4, Ready, 0, true), 40 := Proc(6, 5, Hanging, 7, true)],
      [1, 20, 30, 40], seq(PID_CNT, i => i in {0, 3, 4, 5}), 1, {1, 20, 30, 40}, map[40 := 7], [])
  }

  lemma InitMissesAZombie()
    ensures Inv(Orphaning()) && InitServed(Orphaning()) && Enabled(Orphaning(), 30, Exit(0))
    ensures !InitServed(DoExit(Orphaning(), 30, 0))
  {
    OrphaningTree();
    OrphaningRest();
    OrphaningPids();
    OrphaningServed();
    InitServedAfterExit(Orphaning(), 30, 0);
  }

  lemma OrphaningServed()
    ensures InitServed(Orphaning()) && Enabled(Orphaning(), 30, Exit(0)) && Orphans(Orphaning(), 30)
  {
    assert IsHangingChild(Orphaning(), 40, 5);
  }

  lemma OrphaningTree()
    ensures TreeFits(Orphaning())
  {
    var s := Orphaning();
    assert IsLiveParent(s, 1, 1) && IsLiveParent(s, 20, 4) && IsLiveParent(s, 30, 5);
    assert IsChild(s, 20, 1);
  }

  lemma OrphaningRest()
    ensures ListFits(Orphaning()) && InitFits(Orphaning()) && HistoryFits(Orphaning())
  {
    var s := Orphaning();
    assert s.all[0] == 1 && s.all[1] == 20 && s.all[2] == 30 && s.all[3] == 40;
  }

  lemma OrphaningPids()
    ensures PidsFit(Orphaning())
  {
    var s := Orphaning();
    forall pid
      ensures Taken(s, pid) <==> pid == 1 || pid == 4 || pid == 5 || pid == 6
    {
      TakenThere(pid);
    }
    assert HasPid(s, 1, 1) && HasPid(s, 20, 4) && HasPid(s, 30, 5) && HasPid(s, 40, 6);
    assert s.procs.Keys == {1, 20, 30, 40};
  }

  lemma TakenThere(pid: int)
    ensures Taken(Orphaning(), pid) <==> pid in {1, 4, 5, 6}
  {
    assert pid in {1, 4, 5, 6} <==> pid - 1 in {0, 3, 4, 5};
  }

  // ---- the system calls as the kernel runs them ----

  class ProcTable {
    var procs: map<Tid, Proc>
    var all: seq<Tid>
    var used: seq<bool>
    const init: Tid
    ghost var born: set<Tid>
    ghost var exited: map<Tid, int>
    ghost var collected: seq<(Tid, int)>

    ghost function Abs(): State
      reads this
    {
      State(procs, all, used, init, born, exited, collected)
    }

    constructor (init: Tid, main: Tid, idle: Tid)
      requires init != main && main != idle && idle != init
      ensures Abs() == Boot(init, main, idle) && Inv(Abs())
    {
      this.init := init;
      procs := map[init := Proc(1, NO_PARENT, Ready, 0, true), main := Proc(2, NO_PARENT, Ready, 0, false),
        idle := Proc(3, NO_PARENT, Ready, 0, false)];
      all := [init, main, idle];
      used := seq(PID_CNT, i => i < 3);
      born, exited, collected := {init, main, idle}, map[], [];
      BootInv(init, main, idle);
    }

    method AllocatePid() returns (pid: int)
      requires false in used
      modifies this`used
      ensures pid == 1 + FirstClear(old(used)) && used == old(used)[FirstClear(old(used)) := true]
    {
      var bit := FirstClear(used);    // bitmap_scan
      used := used[bit := true];
      pid := 1 + bit;
    }

    method ReleasePid(pid: int)
      requires 1 <= pid <= |used|
      modifies this`used
      ensures used == old(used)[pid - 1 := false]
    {
      used := used[pid - 1 := false];
    }

    // list_traversal(&thread_all_list, f, arg).
    method Traverse(f: Tid -> bool) returns (r: Option<Tid>)
      ensures r == First(all, f)
    {
      var i := 0;
      while i < |all|
        invariant 0 <= i <= |all|
        invariant First(all, f) == First(all[i..], f)
      {
        assert all[i..][1..] == all[i + 1..];
        if f(all[i]) {
          return Some(all[i]);
        }
        i := i + 1;
      }
      return None;
    }

    // thread_exit on a thread that is not running.
    method ThreadExit(t: Tid)
      requires t in procs && 1 <= procs[t].pid <= |used|
      modifies this`procs, this`all, this`used
      ensures Abs() == Drop(old(Abs()), t)
    {
      all := Without(all, t);
      var pid := procs[t].pid;
      procs := procs - {t};
      ReleasePid(pid);
    }

    method SysFork(t: Tid, child: Tid) returns (pid: int)
      requires Inv(Abs()) && Enabled(Abs(), t, Fork(child))
      modifies this
      ensures Abs() == Apply(old(Abs()), t, Fork(child)) && Inv(Abs()) && pid == procs[child].pid
      ensures ForkedBy(old(Abs()), Abs(), t, child)
    {
      ForkIs(Abs(), t, child);
      ApplyKeepsInv(Abs(), t, Fork(child));
      pid := AddChild(t, child);
    }

    method AddChild(t: Tid, child: Tid) returns (pid: int)
      requires ListFits(Abs()) && Enabled(Abs(), t, Fork(child))
      modifies this
      ensures Abs() == Apply(old(Abs()), t, Fork(child)) && pid == procs[child].pid
    {
      var tcb := procs[t];
      pid := AllocatePid();
      tcb := tcb.(pid := pid, status := Ready, parent := tcb.pid, user := true);
      assert child !in all;
      procs := procs[child := tcb];
      all := all + [child];
      born := born + {child};
    }

    method FindThread(pid: int) returns (r: Option<Tid>)
      ensures r == Pid2Thread(Abs(), pid)
    {
      var p := procs;
      var f := (t: Tid) => t in p && p[t].pid == pid;
      r := Traverse(f);
      FirstSame(all, f, PidTest(Abs(), pid));
    }

    method FindHangingChild(pid: int) returns (r: Option<Tid>)
      ensures r == HangingChildOf(Abs(), pid)
    {
      var p := procs;
      var f := (t: Tid) => t in p && p[t].parent == pid && p[t].status == Hanging;
      r := Traverse(f);
      FirstSame(all, f, HangingTest(Abs(), pid));
    }

    method FindChild(pid: int) returns (r: Option<Tid>)
      ensures r == ChildOf(Abs(), pid)
    {
      var p := procs;
      var f := (t: Tid) => t in p && p[t].parent == pid;
      r := Traverse(f);
      FirstSame(all, f, ChildTest(Abs(), pid));
    }

    // sys_exit: store the status, give the children to init, wake the parent, become a zombie.
    method SysExit(t: Tid, status: int)
      requires Inv(Abs()) && Enabled(Abs(), t, Exit(status))
      modifies this
      ensures Abs() == DoExit(old(Abs()), t, status) && Inv(Abs())
      ensures procs.Keys == old(procs).Keys && all == old(all) && used == old(used)
      ensures forall u :: u in procs ==> procs[u] == Exited(old(Abs()), t, status, u)
    {
      ExitForEveryone(Abs(), t, status);
      ApplyKeepsInv(Abs(), t, Exit(status));
      Leave(t, status);
    }

    method Leave(t: Tid, status: int)
      requires ListFits(Abs()) && t in procs
      modifies this
      ensures Abs() == DoExit(old(Abs()), t, status)
    {
      LeaveChildren(t, status);
      WakeUpParent(procs[t].parent);
      procs := procs[t := procs[t].(status := Hanging)];
      exited := exited[t := Int8(status)];
    }

    method LeaveChildren(t: Tid, status: int)
      requires ListFits(Abs()) && t in procs
      modifies this`procs
      ensures Abs() == Leaving(old(Abs()), t, status) && ListFits(Abs())
    {
      procs := procs[t := procs[t].(exitStatus := Int8(status))];
      AdoptAll(procs[t].pid);
    }

    method WakeUpParent(pid: int)
      requires ListFits(Abs())
      modifies this`procs
      ensures Abs() == WakeParent(old(Abs()), pid)
    {
      var q := FindThread(pid);
      if q.Some? && procs[q.value].status == Waiting {
        procs := procs[q.value := procs[q.value].(status := Ready)];
      }
    }

    // One pass of the loop of sys_wait.
    method SysWait(t: Tid) returns (r: WaitResult)
      requires Inv(Abs()) && Enabled(Abs(), t, Wait)
      modifies this
      ensures Abs() == DoWait(old(Abs()), t) && Inv(Abs()) && r == WaitOutcome(old(Abs()), t)
      ensures Waited(old(Abs()), Abs(), t, r)
    {
      WaitIs(Abs(), t);
      ApplyKeepsInv(Abs(), t, Wait);
      r := TryWait(t);
    }

    method TryWait(t: Tid) returns (r: WaitResult)
      requires PidsFit(Abs()) && t in procs
      modifies this
      ensures Abs() == DoWait(old(Abs()), t) && r == WaitOutcome(old(Abs()), t)
    {
      var c := FindHangingChild(procs[t].pid);
      if c.Some? {
        r := Collect(c.value);
        return;
      }
      c := FindChild(procs[t].pid);
      if c.None? {
        return NoChild;
      }
      procs := procs[t := procs[t].(status := Waiting)];
      return Again;
    }

    method Collect(c: Tid) returns (r: WaitResult)
      requires c in procs && PidsFit(Abs())
      modifies this
      ensures Abs() == Drop(old(Abs()), c).(collected := old(collected) + [(c, old(procs)[c].exitStatus)])
      ensures r == Child(old(procs)[c].pid, old(procs)[c].exitStatus)
    {
      var status, pid := procs[c].exitStatus, procs[c].pid;
      assert Taken(Abs(), pid);
      ThreadExit(c);
      collected := collected + [(c, status)];
      return Child(pid, status);
    }

    // list_traversal(&thread_all_list, init_adopt_a_child, pid).
    method AdoptAll(pid: int)
      requires ListFits(Abs())
      modifies this`procs
      ensures Abs() == Adopt(old(Abs()), pid)
    {
      var i := 0;
      while i < |all|
        invariant 0 <= i <= |all| && procs.Keys == old(procs).Keys
        invariant forall j :: 0 <= j < i ==> procs[all[j]] == Adopted(old(procs)[all[j]], pid)
        invariant forall j :: i <= j < |all| ==> procs[all[j]] == old(procs)[all[j]]
      {
        if procs[all[i]].parent == pid {
          procs := procs[all[i] := procs[all[i]].(parent := INIT_PID)];
        }
        i := i + 1;
      }
    }
  }

  lemma FirstSame(all: seq<Tid>, f: Tid -> bool, g: Tid -> bool)
    requires forall t :: f(t) == g(t)
    ensures First(all, f) == First(all, g)
  {
  }
}
