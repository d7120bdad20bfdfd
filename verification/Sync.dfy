// thread/sync.c: semaphores and mutexes as steps that a timer interrupt can separate.
module Sync {
  import opened Options
  import opened Scheduler
  import opened Seqs

  type LockId = nat

  // One semaphore_t, and the rest of the mutex_t around it when isMutex. owner and depth are history:
  // the thread between leaving sema_down and finishing sema_up, and for every thread the number of
  // its completed mutex_acquire calls minus its completed mutex_release calls.
  datatype Lock = Lock(
    isMutex: bool, value: nat, waiters: seq<Tid>, holder: Option<Tid>, nr: nat,
    owner: Option<Tid>, depth: map<Tid, nat>)
  {
    function Depth(t: Tid): nat {
      if t in depth then depth[t] else 0
    }
  }

  // Where a thread stands. At every place but Asleep the timer may interrupt it: sema_down keeps
  // interrupts off from its test of value to the next.
  datatype Place =
    | Outside                 // in no operation of this file
    | AtDown(m: LockId)       // about to enter sema_down
    | Asleep(m: LockId)       // inside sema_down, past thread_block or blocked in it
    | SetHolder(m: LockId)    // mutex_acquire, back from sema_down
    | SetNr(m: LockId)        // mutex_acquire, holder written
    | IncNr(m: LockId)        // mutex_acquire by the holder
    | DecNr(m: LockId)        // mutex_release of an inner acquire
    | ClearHolder(m: LockId)  // mutex_release, before holder = NULL
    | ClearNr(m: LockId)      // mutex_release, after it
    | AtUp(m: LockId)         // mutex_release, about to enter sema_up
    | Parked                  // in a thread_block of some other file
    | IdleLoop                // the idle thread
    | Gone                    // exited

  // The locks, where every thread stands, and who sleeps: calm is the status of every thread but
  // idle, with READY standing for RUNNING too.
  datatype Sites = Sites(locks: map<LockId, Lock>, place: map<Tid, Place>, calm: map<Tid, Status>)

  datatype Step =
    | Timer | YieldCpu | Park(status: Status) | Unpark(t: Tid) | Spawn(t: Tid, slice: nat) | Leave
    | Acquire(m: LockId) | Release(m: LockId)   // entering mutex_acquire, mutex_release
    | Down(m: LockId) | Up(m: LockId)           // a plain semaphore; Up also from an interrupt handler
    | Go                                        // the current thread's next step from where it stands

  // What the caller c of a step owes: a mutex_release balances an acquire of the same thread, and a
  // plain semaphore is raised only when it is 0.
  predicate CanStep(v: Sites, c: Tid, step: Step) {
    c in v.place && AtKnownLock(v, v.place[c]) &&
    var p := v.place[c];
    match step
    case Timer => !p.Asleep?
    case YieldCpu => p == Outside
    case Park(status) => p == Outside && status in {Blocked, Hanging, Waiting}
    case Unpark(t) => !p.Asleep? && t in v.place && v.place[t] == Parked && t in v.calm
        && v.calm[t] in {Blocked, Hanging, Waiting}
    case Spawn(t, _) => p == Outside && t !in v.place
    case Leave => p == Outside
    case Acquire(m) => p == Outside && m in v.locks && v.locks[m].isMutex
    case Release(m) => p == Outside && m in v.locks && v.locks[m].isMutex && v.locks[m].Depth(c) > 0
    case Down(m) => p == Outside && m in v.locks && !v.locks[m].isMutex
    case Up(m) => !p.Asleep? && m in v.locks && !v.locks[m].isMutex && v.locks[m].value == 0
    case Go => p != Outside && p != Gone
  }

  // The lock a Go step works on.
  function LockAt(p: Place): Option<LockId> {
    match p
    case AtDown(m) => Some(m)
    case Asleep(m) => Some(m)
    case SetHolder(m) => Some(m)
    case SetNr(m) => Some(m)
    case IncNr(m) => Some(m)
    case DecNr(m) => Some(m)
    case ClearHolder(m) => Some(m)
    case ClearNr(m) => Some(m)
    case AtUp(m) => Some(m)
    case _ => None
  }

  predicate AtKnownLock(v: Sites, p: Place) {
    LockAt(p).Some? ==> LockAt(p).value in v.locks
  }

  // ---- the step function, one component at a time ----

  function WakeFirst(l: Lock): Option<Act> {
    if l.waiters == [] then None else Some(Wake(l.waiters[0]))
  }

  // What the step asks of the scheduler.
  function ActOf(v: Sites, c: Tid, step: Step): Option<Act>
    requires CanStep(v, c, step)
  {
    match step
    case Timer => Some(Tick)
    case YieldCpu => Some(Yield)
    case Park(status) => Some(Block(status))
    case Unpark(t) => Some(Wake(t))
    case Spawn(t, slice) => Some(Start(t, slice))
    case Leave => Some(Exit)
    case Up(m) => WakeFirst(v.locks[m])
    case Go =>
      var p := v.place[c];
      if p.AtDown? || p.Asleep? then if v.locks[LockAt(p).value].value == 0 then Some(Block(Blocked)) else None
      else if p.AtUp? then WakeFirst(v.locks[LockAt(p).value])
      else if p.IdleLoop? then Some(Block(Blocked))
      else None
    case _ => None
  }

  // One pass of sema_down's loop by thread c.
  function DownLock(l: Lock, c: Tid): Lock {
    if l.value == 0 then l.(waiters := l.waiters + [c])
    else l.(value := l.value - 1, owner := if l.isMutex then Some(c) else None)
  }

  function UpLock(l: Lock): Lock {
    l.(waiters := if l.waiters == [] then [] else l.waiters[1..], value := l.value + 1, owner := None)
  }

  function Less(n: nat): nat {
    if n > 0 then n - 1 else 0
  }

  // What the current thread c does to the lock it stands at.
  function GoLock(l: Lock, p: Place, c: Tid): Lock {
    match p
    case AtDown(_) => DownLock(l, c)
    case Asleep(_) => DownLock(l, c)
    case SetHolder(_) => l.(holder := Some(c))
    case SetNr(_) => l.(nr := 1, depth := l.depth[c := l.Depth(c) + 1])
    case IncNr(_) => l.(nr := l.nr + 1, depth := l.depth[c := l.Depth(c) + 1])
    case DecNr(_) => l.(nr := Less(l.nr), depth := l.depth[c := Less(l.Depth(c))])
    case ClearHolder(_) => l.(holder := None)
    case ClearNr(_) => l.(nr := 0)
    case AtUp(_) => UpLock(l).(depth := l.depth[c := Less(l.Depth(c))])
    case _ => l
  }

  function GoPlace(l: Lock, p: Place): Place {
    match p
    case AtDown(m) => if l.value == 0 then Asleep(m) else if l.isMutex then SetHolder(m) else Outside
    case Asleep(m) => if l.value == 0 then Asleep(m) else if l.isMutex then SetHolder(m) else Outside
    case SetHolder(m) => SetNr(m)
    case ClearHolder(m) => ClearNr(m)
    case ClearNr(m) => AtUp(m)
    case _ => Outside
  }

  // The lock the step changes, if any.
  function Touched(v: Sites, c: Tid, step: Step): Option<LockId>
    requires CanStep(v, c, step)
  {
    match step
    case Up(m) => Some(m)
    case Go => LockAt(v.place[c])
    case _ => None
  }

  function LockAfter(v: Sites, c: Tid, step: Step, m: LockId): Lock
    requires CanStep(v, c, step) && m in v.locks
  {
    if Touched(v, c, step) != Some(m) then v.locks[m]
    else if step.Up? then UpLock(v.locks[m])
    else GoLock(v.locks[m], v.place[c], c)
  }

  // The thread whose place the step changes, and its new place.
  function Moved(c: Tid, step: Step): Tid {
    if step.Spawn? then step.t else c
  }

  function NewPlace(v: Sites, c: Tid, step: Step): Place
    requires CanStep(v, c, step)
  {
    var p := v.place[c];
    match step
    case Park(_) => Parked
    case Spawn(_, _) => Outside
    case Leave => Gone
    case Acquire(m) => if v.locks[m].holder == Some(c) then IncNr(m) else AtDown(m)
    case Release(m) => if v.locks[m].nr > 1 then DecNr(m) else ClearHolder(m)
    case Down(m) => AtDown(m)
    case Go => if LockAt(p).Some? then GoPlace(v.locks[LockAt(p).value], p) else if p == Parked then Outside else p
    case _ => p
  }

  // Who sleeps after a scheduler step by c.
  function CalmNext(calm: map<Tid, Status>, c: Tid, a: Option<Act>): map<Tid, Status> {
    match a
    case None => calm
    case Some(Block(status)) => if c in calm then calm[c := status] else calm
    case Some(Exit) => if c in calm then calm[c := Died] else calm
    case Some(Wake(t)) => if t in calm then calm[t := Ready] else calm
    case Some(Start(t, _)) => calm[t := Ready]
    case Some(Reap(t)) => if t in calm then calm[t := Died] else calm
    case Some(_) => calm
  }

  function NextSites(v: Sites, c: Tid, step: Step): Sites
    requires CanStep(v, c, step)
  {
    Sites(map m | m in v.locks :: LockAfter(v, c, step, m),
      v.place[Moved(c, step) := NewPlace(v, c, step)],
      CalmNext(v.calm, c, ActOf(v, c, step)))
  }

  // ---- the invariant ----

  // A thread's status is what its place asks for.
  ghost predicate StatusFits(v: Sites, t: Tid)
    requires t in v.place && t in v.calm
  {
    AtKnownLock(v, v.place[t]) &&
    match v.place[t]
    case Asleep(m) => v.calm[t] == Ready || (v.calm[t] == Blocked && t in v.locks[m].waiters)
    case Parked => v.calm[t] in {Ready, Blocked, Waiting, Hanging}
    case IdleLoop => false
    case Gone => v.calm[t] == Died
    case _ => v.calm[t] == Ready
  }

  ghost predicate WaitsIn(v: Sites, t: Tid, m: LockId) {
    t in v.place && t in v.calm && v.place[t] == Asleep(m) && v.calm[t] == Blocked
  }

  // Every waiter sleeps in this semaphore, and is listed once.
  ghost predicate QueueFits(v: Sites, m: LockId)
    requires m in v.locks
  {
    var w := v.locks[m].waiters;
    && Distinct(w)
    && (forall t :: t in w ==> WaitsIn(v, t, m))
  }

  // Between mutex_acquire and mutex_release: holder is the thread, and holder_repeat_nr is the
  // number of acquires it has yet to balance.
  ghost predicate Holds(l: Lock, t: Tid) {
    l.holder == Some(t) && l.nr == l.Depth(t) && l.nr >= 1
  }

  // Where the owner of mutex m stands decides its fields.
  ghost predicate OwnerFits(l: Lock, m: LockId, t: Tid, p: Place) {
    if LockAt(p) != Some(m) then Holds(l, t)
    else match p
      case SetHolder(_) => l.holder == None && l.nr == 0 && l.Depth(t) == 0
      case SetNr(_) => l.holder == Some(t) && l.nr == 0 && l.Depth(t) == 0
      case IncNr(_) => Holds(l, t)
      case DecNr(_) => Holds(l, t) && l.nr > 1
      case ClearHolder(_) => Holds(l, t) && l.nr == 1
      case ClearNr(_) => l.holder == None && l.nr == 1 && l.Depth(t) == 1
      case AtUp(_) => l.holder == None && l.nr == 0 && l.Depth(t) == 1
      case _ => false
  }

  // Between leaving sema_down and finishing sema_up on mutex m.
  ghost predicate InSection(v: Sites, t: Tid, m: LockId)
    requires m in v.locks && t in v.place
  {
    v.locks[m].Depth(t) > 0 || PastDown(v.place[t], m)
  }

  predicate PastDown(p: Place, m: LockId) {
    p in {SetHolder(m), SetNr(m), IncNr(m), DecNr(m), ClearHolder(m), ClearNr(m), AtUp(m)}
  }

  ghost predicate LockFits(v: Sites, m: LockId)
    requires m in v.locks
  {
    var l := v.locks[m];
    && l.value <= 1
    && (l.isMutex ==> (l.value == 0 <==> l.owner.Some?))
    && (l.owner == None ==> l.holder == None && l.nr == 0)
    && (l.owner.Some? ==>
        l.isMutex && l.owner.value in v.place && OwnerFits(l, m, l.owner.value, v.place[l.owner.value]))
    && (forall t :: t in l.depth && l.depth[t] > 0 ==> l.owner == Some(t))
    && (forall t :: t in v.place && PastDown(v.place[t], m) ==> l.owner == Some(t))
  }

  // No lost wakeup: if the semaphore is up and threads still wait, some thread that was woken from
  // it has not yet tested value again, and is runnable.
  ghost predicate SomeoneComes(v: Sites, m: LockId)
    requires m in v.locks
  {
    v.locks[m].value == 1 && v.locks[m].waiters != [] ==>
      exists t :: t in v.place && t in v.calm && v.place[t] == Asleep(m) && v.calm[t] == Ready
  }

  ghost predicate SitesInv(v: Sites) {
    && (forall t :: t in v.calm ==> t in v.place && StatusFits(v, t))
    && (forall m :: m in v.locks ==> QueueFits(v, m) && LockFits(v, m) && SomeoneComes(v, m))
  }

  // ---- every step keeps the invariant ----

  // The thread a step wakes, if any.
  function Woken(v: Sites, c: Tid, step: Step): Option<Tid>
    requires CanStep(v, c, step)
  {
    var a := ActOf(v, c, step);
    if a.Some? && a.value.Wake? then Some(a.value.t) else None
  }

  // A waiter that the step does not wake stays in its queue.
  lemma StillWaiting(v: Sites, c: Tid, step: Step, t: Tid, m: LockId)
    requires CanStep(v, c, step) && m in v.locks && t in v.locks[m].waiters
    requires Woken(v, c, step) != Some(t)
    ensures t in LockAfter(v, c, step, m).waiters
  {
  }

  lemma WokenSlept(v: Sites, c: Tid, step: Step)
    requires CanStep(v, c, step)
    requires Touched(v, c, step).Some? ==> QueueFits(v, Touched(v, c, step).value)
    ensures var t := Woken(v, c, step);
      t.Some? ==>
        (t.value in v.place && t.value in v.calm && v.calm[t.value] in {Blocked, Waiting, Hanging}
         && (v.place[t.value] == Parked || v.place[t.value].Asleep?))
  {
    if Touched(v, c, step).Some? {
      var w := v.locks[Touched(v, c, step).value].waiters;
      assert w != [] ==> w[0] in w;
    }
  }

  lemma CalmElsewhere(v: Sites, c: Tid, step: Step, t: Tid)
    requires CanStep(v, c, step) && t in v.calm && t != Moved(c, step)
    ensures t in CalmNext(v.calm, c, ActOf(v, c, step))
    ensures t != c ==>
        CalmNext(v.calm, c, ActOf(v, c, step))[t] == if Woken(v, c, step) == Some(t) then Ready else v.calm[t]
  {
  }

  lemma StatusStays(v: Sites, c: Tid, step: Step, t: Tid)
    requires CanStep(v, c, step) && t in v.calm && t in v.place && StatusFits(v, t) && t != Moved(c, step) && t != c
    requires Woken(v, c, step) == Some(t) ==> v.place[t] == Parked || v.place[t].Asleep?
    ensures t in NextSites(v, c, step).place && t in NextSites(v, c, step).calm
    ensures StatusFits(NextSites(v, c, step), t)
  {
    CalmElsewhere(v, c, step, t);
    if v.place[t].Asleep? && v.calm[t] == Blocked && Woken(v, c, step) != Some(t) {
      StillWaiting(v, c, step, t, v.place[t].m);
    }
  }

  lemma StatusOfCaller(v: Sites, c: Tid, step: Step)
    requires CanStep(v, c, step) && c in v.calm && StatusFits(v, c) && v.calm[c] == Ready
    requires Woken(v, c, step) != Some(c)
    ensures var v' := NextSites(v, c, step);
      c in v'.place && c in v'.calm && StatusFits(v', c)
    ensures step.Spawn? ==> var v' := NextSites(v, c, step);
      step.t in v'.place && step.t in v'.calm && StatusFits(v', step.t)
  {
  }

  // The caller is not in any queue; if it is about to enter one it is not idle.
  ghost predicate CallerAwake(v: Sites, c: Tid) {
    c in v.place && if c in v.calm then v.calm[c] == Ready else v.place[c] == IdleLoop
  }

  // A thread still queued on m after the step is not the one the step woke.
  lemma QueuedNotWoken(v: Sites, c: Tid, step: Step, m: LockId, t: Tid)
    requires CanStep(v, c, step) && m in v.locks && QueueFits(v, m)
    requires Touched(v, c, step).Some? ==> QueueFits(v, Touched(v, c, step).value)
    requires t in v.locks[m].waiters && t in LockAfter(v, c, step, m).waiters
    ensures Woken(v, c, step) != Some(t) && v.place[t] == Asleep(m)
  {
    assert WaitsIn(v, t, m);
    if Touched(v, c, step).Some? {
      var n := Touched(v, c, step).value;
      var w := v.locks[n].waiters;
      if w != [] {
        assert WaitsIn(v, w[0], n);
        assert n == m ==> forall u :: u in w[1..] ==> u != w[0];
      }
    }
  }

  lemma QueueStays(v: Sites, c: Tid, step: Step, m: LockId)
    requires CanStep(v, c, step) && CallerAwake(v, c) && m in v.locks && QueueFits(v, m)
    requires Touched(v, c, step).Some? ==> QueueFits(v, Touched(v, c, step).value)
    ensures QueueFits(NextSites(v, c, step), m)
  {
    var v' := NextSites(v, c, step);
    var w, w' := v.locks[m].waiters, v'.locks[m].waiters;
    assert c !in w;
    forall t | t in w'
      ensures WaitsIn(v', t, m)
    {
      if t in w {
        assert WaitsIn(v, t, m) && t != Moved(c, step);
        QueuedNotWoken(v, c, step, m, t);
        CalmElsewhere(v, c, step, t);
      } else {
        assert t == c && v'.place[c] == Asleep(m);
      }
    }
  }

  // What LockFits asks of a mutex or semaphore, without the threads that stand elsewhere.
  ghost predicate LockCore(l: Lock) {
    && l.value <= 1
    && (l.isMutex ==> (l.value == 0 <==> l.owner.Some?))
    && (l.owner == None ==> l.holder == None && l.nr == 0)
    && (l.owner.Some? ==> l.isMutex)
    && (forall t :: t in l.depth && l.depth[t] > 0 ==> l.owner == Some(t))
  }

  // One step of thread c at lock m, seen from m.
  lemma LockUnderStep(l: Lock, m: LockId, p: Place, c: Tid)
    requires LockCore(l) && LockAt(p) == Some(m) && (PastDown(p, m) ==> l.owner == Some(c))
    requires l.owner == Some(c) ==> OwnerFits(l, m, c, p)
    ensures LockCore(GoLock(l, p, c))
    ensures PastDown(GoPlace(l, p), m) ==> GoLock(l, p, c).owner == Some(c)
    ensures GoLock(l, p, c).owner == Some(c) ==> OwnerFits(GoLock(l, p, c), m, c, GoPlace(l, p))
    ensures forall t, q :: t != c && GoLock(l, p, c).owner == Some(t) ==>
      (l.owner == Some(t) && (OwnerFits(l, m, t, q) ==> OwnerFits(GoLock(l, p, c), m, t, q)))
    ensures forall t :: t != c && l.owner == Some(t) ==> GoLock(l, p, c).owner == Some(t)
  {
  }

  lemma LockStaysUnderGo(v: Sites, c: Tid, m: LockId)
    requires CanStep(v, c, Go) && m in v.locks && LockFits(v, m) && LockAt(v.place[c]) == Some(m)
    ensures LockFits(NextSites(v, c, Go), m)
  {
    var l, p := v.locks[m], v.place[c];
    LockUnderStep(l, m, p, c);
    var v' := NextSites(v, c, Go);
    assert v'.place == v.place[c := GoPlace(l, p)] && v'.locks[m] == GoLock(l, p, c);
  }

  // Where the caller goes, seen from a lock it is not at.
  lemma MoveElsewhere(v: Sites, c: Tid, step: Step, m: LockId)
    requires CanStep(v, c, step) && m in v.locks && LockFits(v, m) && Touched(v, c, step) != Some(m)
    requires Moved(c, step) == c
    ensures var p' := NewPlace(v, c, step); var l := v.locks[m];
      && (PastDown(p', m) ==> l.owner == Some(c))
      && (l.owner == Some(c) ==> OwnerFits(l, m, c, p'))
  {
  }

  lemma LockStays(v: Sites, c: Tid, step: Step, m: LockId)
    requires CanStep(v, c, step) && m in v.locks && LockFits(v, m)
    ensures LockFits(NextSites(v, c, step), m)
  {
    var v' := NextSites(v, c, step);
    if Touched(v, c, step) == Some(m) && step.Go? {
      LockStaysUnderGo(v, c, m);
    } else if step.Spawn? {
      assert v'.place == v.place[step.t := Outside] && v'.locks[m] == v.locks[m];
    } else if step.Up? && step.m == m {
      assert v'.place == v.place && v'.locks[m] == UpLock(v.locks[m]);
    } else {
      MoveElsewhere(v, c, step, m);
      assert v'.place == v.place[c := NewPlace(v, c, step)] && v'.locks[m] == v.locks[m];
    }
  }

  lemma SomeoneStillComes(v: Sites, c: Tid, step: Step, m: LockId)
    requires CanStep(v, c, step) && CallerAwake(v, c) && m in v.locks
    requires SomeoneComes(v, m) && QueueFits(v, m) && LockFits(v, m)
    ensures SomeoneComes(NextSites(v, c, step), m)
  {
    var v' := NextSites(v, c, step);
    if v'.locks[m].value == 1 && v'.locks[m].waiters != [] {
      if v.locks[m].value == 1 {
        var t :| t in v.place && t in v.calm && v.place[t] == Asleep(m) && v.calm[t] == Ready;
        assert t != c;
        CalmElsewhere(v, c, step, t);
        assert v'.place[t] == Asleep(m) && v'.calm[t] == Ready;
      } else {
        var t := v.locks[m].waiters[0];
        assert t in v.locks[m].waiters && WaitsIn(v, t, m);
        CalmElsewhere(v, c, step, t);
        assert v'.place[t] == Asleep(m) && v'.calm[t] == Ready;
      }
    }
  }

  lemma LocksStay(v: Sites, c: Tid, step: Step)
    requires CanStep(v, c, step) && CallerAwake(v, c)
    requires forall m :: m in v.locks ==> QueueFits(v, m) && LockFits(v, m) && SomeoneComes(v, m)
    ensures var v' := NextSites(v, c, step);
      forall m :: m in v'.locks ==> QueueFits(v', m) && LockFits(v', m) && SomeoneComes(v', m)
  {
    var v' := NextSites(v, c, step);
    forall m | m in v'.locks
      ensures QueueFits(v', m) && LockFits(v', m) && SomeoneComes(v', m)
    {
      QueueStays(v, c, step, m);
      LockStays(v, c, step, m);
      SomeoneStillComes(v, c, step, m);
    }
  }

  lemma StatusesStay(v: Sites, c: Tid, step: Step)
    requires CanStep(v, c, step) && CallerAwake(v, c)
    requires Touched(v, c, step).Some? ==> QueueFits(v, Touched(v, c, step).value)
    requires forall t :: t in v.calm ==> t in v.place && StatusFits(v, t)
    ensures var v' := NextSites(v, c, step);
      forall t :: t in v'.calm ==> t in v'.place && StatusFits(v', t)
  {
    var v' := NextSites(v, c, step);
    WokenSlept(v, c, step);
    forall t | t in v'.calm
      ensures t in v'.place && StatusFits(v', t)
    {
      if t == c || t == Moved(c, step) {
        if c in v.calm {
          StatusOfCaller(v, c, step);
        }
      } else {
        StatusStays(v, c, step, t);
      }
    }
  }

  lemma SitesStay(v: Sites, c: Tid, step: Step)
    requires SitesInv(v) && CanStep(v, c, step) && CallerAwake(v, c)
    ensures SitesInv(NextSites(v, c, step))
  {
    LocksStay(v, c, step);
    StatusesStay(v, c, step);
  }

  // ---- the whole system: the scheduler, the locks, and where every thread stands ----

  datatype Sys = Sys(k: State, locks: map<LockId, Lock>, place: map<Tid, Place>)

  function CalmOf(k: State): map<Tid, Status> {
    map t | t in k.tasks && t != k.idle :: Calm(k.tasks[t].status)
  }

  function SitesOf(s: Sys): Sites {
    Sites(s.locks, s.place, CalmOf(s.k))
  }

  ghost predicate SyncInv(s: Sys) {
    && Inv(s.k)
    && s.place.Keys == s.k.tasks.Keys && s.place[s.k.idle] == IdleLoop
    && SitesInv(SitesOf(s))
  }

  predicate CanDo(s: Sys, step: Step) {
    CanStep(SitesOf(s), s.k.cur, step)
  }

  lemma ActIsEnabled(s: Sys, step: Step)
    requires SyncInv(s) && CanDo(s, step)
    ensures CallerAwake(SitesOf(s), s.k.cur)
    ensures var a := ActOf(SitesOf(s), s.k.cur, step); a.Some? ==> Enabled(s.k, a.value)
  {
    WokenSlept(SitesOf(s), s.k.cur, step);
    assert s.k.cur in s.k.tasks;
  }

  function ApplyIf(k: State, a: Option<Act>): State
    requires Inv(k) && (a.Some? ==> Enabled(k, a.value))
  {
    if a == None then k else Apply(k, a.value)
  }

  function Next(s: Sys, step: Step): Sys
    requires SyncInv(s) && CanDo(s, step)
  {
    ActIsEnabled(s, step);
    var v' := NextSites(SitesOf(s), s.k.cur, step);
    Sys(ApplyIf(s.k, ActOf(SitesOf(s), s.k.cur, step)), v'.locks, v'.place)
  }

  lemma ApplyCalmKeys(k: State, a: Act)
    requires Inv(k) && Enabled(k, a) && !a.Reap?
    ensures Inv(Apply(k, a)) && Apply(k, a).idle == k.idle
    ensures CalmOf(Apply(k, a)).Keys == CalmNext(CalmOf(k), k.cur, Some(a)).Keys
    ensures Apply(k, a).tasks.Keys == (if a.Start? then k.tasks.Keys + {a.t} else k.tasks.Keys)
  {
    ApplyKeepsInv(k, a);
    ApplyKeys(k, a);
  }

  lemma CalmNextAt(k: State, a: Act, t: Tid)
    requires Enabled(k, a) && t in k.tasks && t != k.idle
    ensures t in CalmNext(CalmOf(k), k.cur, Some(a)) && CalmNext(CalmOf(k), k.cur, Some(a))[t] == CalmAfter(k, a, t)
  {
  }

  lemma ApplyCalmAt(k: State, a: Act, t: Tid)
    requires Inv(k) && Enabled(k, a) && !a.Reap? && t in CalmOf(Apply(k, a))
    ensures t in CalmNext(CalmOf(k), k.cur, Some(a)) && CalmOf(Apply(k, a))[t] == CalmNext(CalmOf(k), k.cur, Some(a))[t]
  {
    ApplyKeys(k, a);
    if t in k.tasks {
      CalmNextAt(k, a, t);
      ApplyCalm(k, a, t);
    }
  }

  lemma ApplyCalmMap(k: State, a: Act)
    requires Inv(k) && Enabled(k, a) && !a.Reap?
    ensures CalmOf(Apply(k, a)) == CalmNext(CalmOf(k), k.cur, Some(a))
  {
    var calm, calm' := CalmNext(CalmOf(k), k.cur, Some(a)), CalmOf(Apply(k, a));
    assert calm.Keys == calm'.Keys by {
      ApplyCalmKeys(k, a);
    }
    forall t | t in calm'
      ensures calm[t] == calm'[t]
    {
      ApplyCalmAt(k, a, t);
    }
  }

  lemma ActKind(s: Sys, step: Step)
    requires SyncInv(s) && CanDo(s, step)
    ensures var a := ActOf(SitesOf(s), s.k.cur, step);
      && (a.Some? ==> !a.value.Reap? && Enabled(s.k, a.value))
      && (step.Spawn? ==> a == Some(Start(step.t, step.slice)))
      && (!step.Spawn? ==> a == None || !a.value.Start?)
    ensures Moved(s.k.cur, step) in s.place || step.Spawn?
  {
    ActIsEnabled(s, step);
  }

  lemma NextIsNextSites(s: Sys, step: Step)
    requires SyncInv(s) && CanDo(s, step)
    ensures SitesOf(Next(s, step)) == NextSites(SitesOf(s), s.k.cur, step)
  {
    ActKind(s, step);
    var a := ActOf(SitesOf(s), s.k.cur, step);
    if a.Some? {
      ApplyCalmMap(s.k, a.value);
    }
  }

  lemma NextTasks(s: Sys, step: Step)
    requires SyncInv(s) && CanDo(s, step)
    ensures Inv(Next(s, step).k) && Next(s, step).k.idle == s.k.idle
    ensures Next(s, step).k.tasks.Keys == (if step.Spawn? then s.place.Keys + {step.t} else s.place.Keys)
  {
    ActKind(s, step);
    var a := ActOf(SitesOf(s), s.k.cur, step);
    if a.Some? {
      ApplyCalmKeys(s.k, a.value);
    }
  }

  lemma IdleStays(s: Sys, step: Step)
    requires SyncInv(s) && CanDo(s, step)
    ensures s.k.idle in Next(s, step).place && Next(s, step).place[s.k.idle] == IdleLoop
  {
    ActIsEnabled(s, step);
    assert s.k.idle in s.place;
  }

  lemma NextKeepsInv(s: Sys, step: Step)
    requires SyncInv(s) && CanDo(s, step)
    ensures SyncInv(Next(s, step))
  {
    assert SitesInv(SitesOf(Next(s, step))) by {
      ActIsEnabled(s, step);
      NextIsNextSites(s, step);
      SitesStay(SitesOf(s), s.k.cur, step);
    }
    NextTasks(s, step);
    IdleStays(s, step);
  }

  // ---- runs ----

  ghost predicate IsSyncRun(s: Sys, steps: seq<Step>)
    requires SyncInv(s)
    decreases |steps|
  {
    steps == [] ||
    (CanDo(s, steps[0]) && (NextKeepsInv(s, steps[0]); IsSyncRun(Next(s, steps[0]), steps[1..])))
  }

  ghost function AfterSteps(s: Sys, steps: seq<Step>): Sys
    requires SyncInv(s) && IsSyncRun(s, steps)
    decreases |steps|
  {
    if steps == [] then s
    else
      NextKeepsInv(s, steps[0]);
      AfterSteps(Next(s, steps[0]), steps[1..])
  }

  // Boot: every lock as mutex_init or sema_init leaves it, nobody in any of them.
  ghost predicate Fresh(s: Sys) {
    && Inv(s.k) && s.place.Keys == s.k.tasks.Keys
    && (forall t :: t in s.place ==> s.place[t] == if t == s.k.idle then IdleLoop else Outside)
    && (forall t :: t in s.k.tasks && t != s.k.idle ==> Awake(s.k.tasks[t].status))
    && (forall m :: m in s.locks ==>
          var l := s.locks[m];
          l == Lock(l.isMutex, l.value, [], None, 0, None, map[]) && l.value <= 1 && (l.isMutex ==> l.value == 1))
  }

  lemma FreshInv(s: Sys)
    requires Fresh(s)
    ensures SyncInv(s)
  {
    var v := SitesOf(s);
    forall m | m in v.locks
      ensures QueueFits(v, m) && LockFits(v, m) && SomeoneComes(v, m)
    {
    }
    forall t | t in v.calm
      ensures t in v.place && StatusFits(v, t)
    {
      assert t in s.k.tasks;
    }
  }

  // At most one thread is inside a mutex, and value is 0 exactly then; recursive acquires are counted.
  ghost predicate MutexSafe(v: Sites, m: LockId)
    requires m in v.locks
  {
    var l := v.locks[m];
    && (l.isMutex ==>
          forall t, u :: t in v.place && u in v.place && InSection(v, t, m) && InSection(v, u, m) ==> t == u)
    && (l.isMutex ==> (l.value == 0 <==> exists t :: t in v.place && InSection(v, t, m)))
    && (forall t :: t in v.place && v.place[t] == Outside && l.Depth(t) > 0 ==>
          l.holder == Some(t) && l.nr == l.Depth(t))
  }

  // If a semaphore is up and threads wait, a woken one is runnable and about to test value again.
  ghost predicate NoLostWakeup(s: Sys, m: LockId)
    requires m in s.locks
  {
    s.locks[m].value == 1 && s.locks[m].waiters != [] ==> exists t :: Comes(s, m, t)
  }

  ghost predicate Comes(s: Sys, m: LockId, t: Tid)
    requires m in s.locks
  {
    && t in s.place && s.place[t] == Asleep(m) && t !in s.locks[m].waiters
    && t in s.k.tasks && Awake(s.k.tasks[t].status)
  }

  // The lock invariant under every preemptive interleaving: in every state reached from boot, for
  // every mutex m, at most one thread is between leaving sema_down and finishing sema_up, and there
  // is one exactly while value is 0; a thread inside with no operation under way is the holder and
  // holder_repeat_nr is the number of acquires it has still to balance; and if value is 1 while
  // threads wait, one that was woken is runnable and still has to test value.
  lemma {:induction false} LocksSafe(s: Sys, steps: seq<Step>, m: LockId)
    requires SyncInv(s) && IsSyncRun(s, steps) && m in AfterSteps(s, steps).locks
    ensures var s' := AfterSteps(s, steps);
      && Inv(s'.k) && MutexSafe(SitesOf(s'), m) && NoLostWakeup(s', m)
      && forall t :: t in s'.locks[m].waiters ==> OnlyList(s', t, m)
    decreases |steps|
  {
    if steps != [] {
      NextKeepsInv(s, steps[0]);
      LocksSafe(Next(s, steps[0]), steps[1..], m);
    } else {
      LockSafe(s, m);
      TagsOnOneList(s, m);
    }
  }

  // The general_tag of t, which waits for m, is on no other list.
  ghost predicate OnlyList(s: Sys, t: Tid, m: LockId) {
    t !in s.k.ready && forall n :: n in s.locks && n != m ==> t !in s.locks[n].waiters
  }

  lemma TagsOnOneList(s: Sys, m: LockId)
    requires SyncInv(s) && m in s.locks
    ensures forall t :: t in s.locks[m].waiters ==> OnlyList(s, t, m)
  {
    var v := SitesOf(s);
    assert QueueFits(v, m);
    forall t | t in s.locks[m].waiters
      ensures OnlyList(s, t, m)
    {
      assert WaitsIn(v, t, m);
      forall n | n in s.locks && n != m
        ensures t !in s.locks[n].waiters
      {
        assert QueueFits(v, n);
        assert t in s.locks[n].waiters ==> WaitsIn(v, t, n);
      }
    }
  }

  lemma LockIsSafe(v: Sites, m: LockId)
    requires m in v.locks && LockFits(v, m)
    ensures MutexSafe(v, m)
  {
    var l := v.locks[m];
    if l.isMutex && l.value == 0 {
      assert InSection(v, l.owner.value, m);
    }
  }

  lemma WakeupIsNotLost(s: Sys, m: LockId)
    requires m in s.locks && QueueFits(SitesOf(s), m) && SomeoneComes(SitesOf(s), m)
    ensures NoLostWakeup(s, m)
  {
    var v, l := SitesOf(s), s.locks[m];
    if l.value == 1 && l.waiters != [] {
      var t :| t in v.place && t in v.calm && v.place[t] == Asleep(m) && v.calm[t] == Ready;
      assert Comes(s, m, t);
    }
  }

  lemma LockSafe(s: Sys, m: LockId)
    requires SyncInv(s) && m in s.locks
    ensures MutexSafe(SitesOf(s), m) && NoLostWakeup(s, m)
  {
    var v := SitesOf(s);
    assert QueueFits(v, m) && LockFits(v, m) && SomeoneComes(v, m);
    LockIsSafe(v, m);
    WakeupIsNotLost(s, m);
  }

  // ---- first come, first woken ----

  // t is asleep in semaphore m.
  ghost predicate Sleeps(s: Sys, t: Tid, m: LockId) {
    t in s.place && s.place[t] == Asleep(m) && t in s.k.tasks && s.k.tasks[t].status == Blocked
  }

  // The waiters list of a semaphore holds exactly the threads asleep in it.
  lemma SleepersAreWaiters(s: Sys, m: LockId)
    requires SyncInv(s) && m in s.locks
    ensures Distinct(s.locks[m].waiters)
    ensures forall t :: Sleeps(s, t, m) <==> t in s.locks[m].waiters
  {
    var v := SitesOf(s);
    assert QueueFits(v, m);
    forall t
      ensures Sleeps(s, t, m) <==> t in s.locks[m].waiters
    {
      assert t in s.locks[m].waiters ==> WaitsIn(v, t, m);
      if Sleeps(s, t, m) {
        assert StatusFits(v, t);
      }
    }
  }

  // Who is asleep in m in s' and was not in s.
  ghost function Joining(s: Sys, s': Sys, m: LockId): seq<Tid> {
    if exists t :: Joins(s, s', m, t) then
      var t :| Joins(s, s', m, t);
      [t]
    else []
  }

  ghost predicate Joins(s: Sys, s': Sys, m: LockId, t: Tid) {
    !Sleeps(s, t, m) && Sleeps(s', t, m)
  }

  // In the order of a run: who falls asleep in m, and who is woken from it.
  ghost function AsleepIn(s: Sys, steps: seq<Step>, m: LockId): seq<Tid>
    requires SyncInv(s) && IsSyncRun(s, steps)
    decreases |steps|
  {
    if steps == [] then []
    else
      NextKeepsInv(s, steps[0]);
      Joining(s, Next(s, steps[0]), m) + AsleepIn(Next(s, steps[0]), steps[1..], m)
  }

  ghost function WokenIn(s: Sys, steps: seq<Step>, m: LockId): seq<Tid>
    requires SyncInv(s) && IsSyncRun(s, steps)
    decreases |steps|
  {
    if steps == [] then []
    else
      NextKeepsInv(s, steps[0]);
      Joining(Next(s, steps[0]), s, m) + WokenIn(Next(s, steps[0]), steps[1..], m)
  }

  // One step leaves a queue as it is, puts the caller behind it, or takes its first off.
  lemma QueueStep(v: Sites, c: Tid, step: Step, m: LockId)
    requires CanStep(v, c, step) && CallerAwake(v, c) && m in v.locks && QueueFits(v, m)
    ensures var w, w' := v.locks[m].waiters, NextSites(v, c, step).locks[m].waiters;
      w' == w || (w' == w + [c] && c !in w) || (w != [] && w' == w[1..])
  {
    assert c in v.locks[m].waiters ==> WaitsIn(v, c, m);
  }

  lemma QueueMoves(s: Sys, s': Sys, m: LockId, c: Tid)
    requires m in s.locks && m in s'.locks && Distinct(s.locks[m].waiters) && Distinct(s'.locks[m].waiters)
    requires forall t :: Sleeps(s, t, m) <==> t in s.locks[m].waiters
    requires forall t :: Sleeps(s', t, m) <==> t in s'.locks[m].waiters
    requires var w, w' := s.locks[m].waiters, s'.locks[m].waiters;
      w' == w || (w' == w + [c] && c !in w) || (w != [] && w' == w[1..])
    ensures s.locks[m].waiters + Joining(s, s', m) == Joining(s', s, m) + s'.locks[m].waiters
  {
    var w, w' := s.locks[m].waiters, s'.locks[m].waiters;
    forall t
      ensures Joins(s, s', m, t) <==> t !in w && t in w'
      ensures Joins(s', s, m, t) <==> t in w && t !in w'
    {
    }
    if w' == w + [c] && c !in w {
      assert Joins(s, s', m, c);
    } else if w != [] && w' == w[1..] {
      assert w == [w[0]] + w';
      assert w[0] !in w' && Joins(s', s, m, w[0]);
    }
  }

  // Waiters of a semaphore are woken in the order in which they fell asleep: over every run, those waiting
  // at its start and then those that fall asleep are those woken and then those waiting at its end.
  lemma {:induction false} FirstComeFirstWoken(s: Sys, steps: seq<Step>, m: LockId)
    requires SyncInv(s) && IsSyncRun(s, steps) && m in s.locks
    ensures var e := AfterSteps(s, steps);
      m in e.locks && s.locks[m].waiters + AsleepIn(s, steps, m) == WokenIn(s, steps, m) + e.locks[m].waiters
    decreases |steps|
  {
    if steps != [] {
      var s1 := Next(s, steps[0]);
      OneStepInOrder(s, steps[0], m);
      FirstComeFirstWoken(s1, steps[1..], m);
      Chain(s.locks[m].waiters, Joining(s, s1, m), AsleepIn(s1, steps[1..], m), Joining(s1, s, m), s1.locks[m].waiters,
        WokenIn(s1, steps[1..], m), AfterSteps(s1, steps[1..]).locks[m].waiters);
    }
  }

  lemma OneStepInOrder(s: Sys, step: Step, m: LockId)
    requires SyncInv(s) && CanDo(s, step) && m in s.locks
    ensures var s1 := Next(s, step);
      SyncInv(s1) && m in s1.locks
          && s.locks[m].waiters + Joining(s, s1, m) == Joining(s1, s, m) + s1.locks[m].waiters
  {
    NextKeepsInv(s, step);
    ActIsEnabled(s, step);
    SleepersAreWaiters(s, m);
    SleepersAreWaiters(Next(s, step), m);
    assert QueueFits(SitesOf(s), m);
    QueueStep(SitesOf(s), s.k.cur, step, m);
    QueueMoves(s, Next(s, step), m, s.k.cur);
  }

  lemma Chain(w: seq<Tid>, j: seq<Tid>, js: seq<Tid>, l: seq<Tid>, w1: seq<Tid>, ls: seq<Tid>, w2: seq<Tid>)
    requires w + j == l + w1 && w1 + js == ls + w2
    ensures w + (j + js) == (l + ls) + w2
  {
    assert w + (j + js) == (w + j) + js == l + (w1 + js);
    assert (l + ls) + w2 == l + (ls + w2);
  }

  // ---- the file's code, step by step; each assert is an ASSERT of the source ----

  lemma StepOnLock(v: Sites, c: Tid, step: Step, m: LockId)
    requires CanStep(v, c, step) && m in v.locks && (Touched(v, c, step).Some? ==> Touched(v, c, step).value == m)
    ensures NextSites(v, c, step).locks == v.locks[m := LockAfter(v, c, step, m)]
  {
  }

  class Locks {
    const kernel: Kernel
    var locks: map<LockId, Lock>
    var place: map<Tid, Place>

    ghost function Abs(): Sys
      reads this, kernel
    {
      Sys(kernel.Abs(), locks, place)
    }

    constructor (kernel: Kernel, locks: map<LockId, Lock>, place: map<Tid, Place>)
      requires Fresh(Sys(kernel.Abs(), locks, place))
      ensures this.kernel == kernel && Abs() == Sys(kernel.Abs(), locks, place) && SyncInv(Abs())
    {
      this.kernel, this.locks, this.place := kernel, locks, place;
      FreshInv(Sys(kernel.Abs(), locks, place));
    }

    // One pass of the loop of sema_down, from its entry or from the return of thread_block.
    method SemaDown(m: LockId)
      requires SyncInv(Abs()) && kernel.cur in place && place[kernel.cur] in {AtDown(m), Asleep(m)} && m in locks
      modifies this, kernel
      ensures CanDo(old(Abs()), Go) && Abs() == Next(old(Abs()), Go) && SyncInv(Abs())
    {
      ghost var s := Abs();
      var c, l := kernel.cur, locks[m];
      DownFacts(s, m);
      if l.value == 0 {
        assert c !in l.waiters;
        locks := locks[m := l.(waiters := l.waiters + [c])];
        place := place[c := Asleep(m)];
        kernel.ThreadBlock(Blocked);
      } else {
        locks := locks[m := l.(value := l.value - 1, owner := if l.isMutex then Some(c) else None)];
        assert locks[m].value == 0;
        place := place[c := if l.isMutex then SetHolder(m) else Outside];
      }
    }
  
    // The body of sema_up: wake the first waiter, raise value.
    method Raise(l: Lock) returns (r: Lock)
      requires AtSchedule(kernel.Abs()) && l.value == 0
      requires l.waiters != [] ==> CanWake(kernel.Abs(), l.waiters[0])
      modifies kernel
      ensures r == UpLock(l)
      ensures kernel.Abs() == if l.waiters == [] then old(kernel.Abs()) else Unblock(old(kernel.Abs()), l.waiters[0])
    {
      r := l;
      if r.waiters != [] {
        var blocked := r.waiters[0];
        r := r.(waiters := r.waiters[1..]);
        kernel.ThreadUnblock(blocked);
      }
      r := r.(value := r.value + 1, owner := None);
      assert r.value == 1;
    }

    // sema_up on a plain semaphore, from a thread or an interrupt handler.
    method SemaUp(m: LockId)
      requires SyncInv(Abs()) && CanDo(Abs(), Up(m))
      modifies this, kernel
      ensures Abs() == Next(old(Abs()), Up(m)) && SyncInv(Abs())
    {
      ghost var s := Abs();
      UpNeeds(s, m, Up(m));
      assert locks[m].value == 0;
      var l := Raise(locks[m]);
      locks := locks[m := l];
      UpFacts(s, m, Up(m));
      NextKeepsInv(s, Up(m));
    }

    // sema_up as the last step of mutex_release.
    method ReleaseUp(m: LockId)
      requires SyncInv(Abs()) && CanDo(Abs(), Go) && m in locks && place[kernel.cur] == AtUp(m)
      modifies this, kernel
      ensures Abs() == Next(old(Abs()), Go) && SyncInv(Abs())
    {
      ghost var s := Abs();
      var c := kernel.cur;
      UpNeeds(s, m, Go);
      assert locks[m].value == 0;
      var l := Raise(locks[m]);
      locks := locks[m := l.(depth := l.depth[c := Less(l.Depth(c))])];
      place := place[c := Outside];
      UpFacts(s, m, Go);
      NextKeepsInv(s, Go);
    }

    method MutexAcquire(m: LockId)
      requires SyncInv(Abs()) && CanDo(Abs(), Acquire(m))
      modifies this
      ensures Abs() == Next(old(Abs()), Acquire(m)) && SyncInv(Abs())
    {
      NextKeepsInv(Abs(), Acquire(m));
      EnterFacts(Abs(), m, Acquire(m));
      if locks[m].holder != Some(kernel.cur) {
        place := place[kernel.cur := AtDown(m)];
      } else {
        place := place[kernel.cur := IncNr(m)];
      }
    }

    // The writes of mutex_acquire after sema_down, one at a time.
    method AcquireWrite(m: LockId)
      requires SyncInv(Abs()) && kernel.cur in place && place[kernel.cur] in {SetHolder(m), SetNr(m), IncNr(m)}
      requires m in locks
      modifies this
      ensures CanDo(old(Abs()), Go) && Abs() == Next(old(Abs()), Go) && SyncInv(Abs())
    {
      ghost var s := Abs();
      WriteFacts(s, m);
      var l, p := AcquireOne(kernel.cur, m, locks[m], place[kernel.cur]);
      locks := locks[m := l];
      place := place[kernel.cur := p];
      assert Abs() == Next(s, Go);
    }

    method AcquireOne(c: Tid, m: LockId, l: Lock, p: Place) returns (l': Lock, p': Place)
      requires p in {SetHolder(m), SetNr(m), IncNr(m)} && (p.SetNr? ==> l.nr == 0)
      ensures l' == GoLock(l, p, c) && p' == GoPlace(l, p)
    {
      if p == SetHolder(m) {
        l' := l.(holder := Some(c));
        p' := SetNr(m);
      } else if p == SetNr(m) {
        assert l.nr == 0;
        l' := l.(nr := 1, depth := l.depth[c := l.Depth(c) + 1]);
        p' := Outside;
      } else {
        l' := l.(nr := l.nr + 1, depth := l.depth[c := l.Depth(c) + 1]);
        p' := Outside;
      }
    }

    method MutexRelease(m: LockId)
      requires SyncInv(Abs()) && CanDo(Abs(), Release(m))
      modifies this
      ensures Abs() == Next(old(Abs()), Release(m)) && SyncInv(Abs())
    {
      NextKeepsInv(Abs(), Release(m));
      EnterFacts(Abs(), m, Release(m));
      assert locks[m].holder == Some(kernel.cur);
      if locks[m].nr > 1 {
        place := place[kernel.cur := DecNr(m)];
      } else {
        assert locks[m].nr == 1;
        place := place[kernel.cur := ClearHolder(m)];
      }
    }

    // The writes of mutex_release before sema_up, one at a time.
    method ReleaseWrite(m: LockId)
      requires SyncInv(Abs()) && kernel.cur in place && place[kernel.cur] in {DecNr(m), ClearHolder(m), ClearNr(m)}
      requires m in locks
      modifies this
      ensures CanDo(old(Abs()), Go) && Abs() == Next(old(Abs()), Go) && SyncInv(Abs())
    {
      ghost var s := Abs();
      WriteFacts(s, m);
      var l, p := ReleaseOne(kernel.cur, m, locks[m], place[kernel.cur]);
      locks := locks[m := l];
      place := place[kernel.cur := p];
      assert Abs() == Next(s, Go);
    }

    method ReleaseOne(c: Tid, m: LockId, l: Lock, p: Place) returns (l': Lock, p': Place)
      requires p in {DecNr(m), ClearHolder(m), ClearNr(m)} && (p.DecNr? ==> l.nr > 1 && l.Depth(c) > 1)
      ensures l' == GoLock(l, p, c) && p' == GoPlace(l, p)
    {
      if p == DecNr(m) {
        l' := l.(nr := l.nr - 1, depth := l.depth[c := l.Depth(c) - 1]);
        p' := Outside;
      } else if p == ClearHolder(m) {
        l' := l.(holder := None);
        p' := ClearNr(m);
      } else {
        l' := l.(nr := 0);
        p' := AtUp(m);
      }
    }
  }

  // The new state of each step, written out.
  lemma DownFacts(s: Sys, m: LockId)
    requires SyncInv(s) && m in s.locks && s.place[s.k.cur] in {AtDown(m), Asleep(m)}
    ensures CanDo(s, Go) && SyncInv(Next(s, Go))
    ensures s.k.cur !in s.locks[m].waiters && s.locks[m].value <= 1 && s.k.cur != s.k.idle
    ensures var l := s.locks[m];
      Next(s, Go) == Sys(if l.value == 0 then Apply(s.k, Block(Blocked)) else s.k,
        s.locks[m := DownLock(l, s.k.cur)],
        s.place[s.k.cur := if l.value == 0 then Asleep(m) else if l.isMutex then SetHolder(m) else Outside])
  {
    var v := SitesOf(s);
    assert CallerAwake(v, s.k.cur);
    assert LockFits(v, m) && QueueFits(v, m);
    NextKeepsInv(s, Go);
    StepOnLock(v, s.k.cur, Go, m);
  }

  lemma UpSites(v: Sites, c: Tid, step: Step, m: LockId)
    requires CanStep(v, c, step) && m in v.locks
    requires if step.Go? then v.place[c] == AtUp(m) else step == Up(m)
    ensures var l := v.locks[m]; var v' := NextSites(v, c, step);
      && ActOf(v, c, step) == (if l.waiters == [] then None else Some(Wake(l.waiters[0])))
      && v'.locks == v.locks[m := if step.Go? then UpLock(l).(depth := l.depth[c := Less(l.Depth(c))]) else UpLock(l)]
      && v'.place == if step.Go? then v.place[c := Outside] else v.place
  {
    StepOnLock(v, c, step, m);
  }

  lemma UpValue(v: Sites, c: Tid, step: Step, m: LockId)
    requires CanStep(v, c, step) && m in v.locks && LockFits(v, m)
    requires if step.Go? then v.place[c] == AtUp(m) else step == Up(m)
    ensures v.locks[m].value == 0 && (step.Up? ==> v.place[c] != AtUp(m))
  {
  }

  lemma FirstCanWake(s: Sys, m: LockId)
    requires m in s.locks && QueueFits(SitesOf(s), m) && s.locks[m].waiters != []
    ensures CanWake(s.k, s.locks[m].waiters[0])
  {
    var w := s.locks[m].waiters;
    assert w[0] in w && WaitsIn(SitesOf(s), w[0], m);
  }

  lemma UpNeeds(s: Sys, m: LockId, step: Step)
    requires SyncInv(s) && CanDo(s, step) && m in s.locks
    requires if step.Go? then s.place[s.k.cur] == AtUp(m) else step == Up(m)
    ensures s.locks[m].value == 0
    ensures s.locks[m].waiters != [] ==> CanWake(s.k, s.locks[m].waiters[0])
    ensures step.Up? ==> s.place[s.k.cur] != AtUp(m)
  {
    var v := SitesOf(s);
    assert LockFits(v, m) && QueueFits(v, m);
    UpValue(v, s.k.cur, step, m);
    if s.locks[m].waiters != [] {
      FirstCanWake(s, m);
    }
  }

  lemma UpFacts(s: Sys, m: LockId, step: Step)
    requires SyncInv(s) && CanDo(s, step) && m in s.locks
    requires if step.Go? then s.place[s.k.cur] == AtUp(m) else step == Up(m)
    ensures s.locks[m].waiters != [] ==> s.locks[m].waiters[0] in s.k.tasks
    ensures var l, c := s.locks[m], s.k.cur;
      Next(s, step) == Sys(if l.waiters == [] then s.k else Unblock(s.k, l.waiters[0]),
        s.locks[m := if step.Go? then UpLock(l).(depth := l.depth[c := Less(l.Depth(c))]) else UpLock(l)],
        if step.Go? then s.place[c := Outside] else s.place)
  {
    var v := SitesOf(s);
    UpSites(v, s.k.cur, step, m);
    UpNeeds(s, m, step);
    ActIsEnabled(s, step);
    assert ActOf(v, s.k.cur, step) == WakeFirst(s.locks[m]);
  }

  lemma WriteFacts(s: Sys, m: LockId)
    requires SyncInv(s) && m in s.locks && LockAt(s.place[s.k.cur]) == Some(m)
    requires !s.place[s.k.cur].AtDown? && !s.place[s.k.cur].Asleep? && !s.place[s.k.cur].AtUp?
    ensures CanDo(s, Go) && SyncInv(Next(s, Go))
    ensures var l, c := s.locks[m], s.k.cur;
      Next(s, Go) == Sys(s.k, s.locks[m := GoLock(l, s.place[c], c)], s.place[c := GoPlace(l, s.place[c])])
    ensures s.place[s.k.cur].SetNr? ==> s.locks[m].nr == 0
    ensures s.place[s.k.cur].DecNr? ==> s.locks[m].nr > 1 && s.locks[m].Depth(s.k.cur) > 1
  {
    var v := SitesOf(s);
    assert CallerAwake(v, s.k.cur);
    assert LockFits(v, m);
    NextKeepsInv(s, Go);
    StepOnLock(v, s.k.cur, Go, m);
  }

  lemma EnterSites(v: Sites, c: Tid, step: Step, m: LockId)
    requires CanStep(v, c, step) && step in {Acquire(m), Release(m)}
    ensures NextSites(v, c, step) == v.(place := v.place[c := NewPlace(v, c, step)]) && ActOf(v, c, step) == None
  {
    assert NextSites(v, c, step).locks == v.locks;
  }

  lemma EnterFacts(s: Sys, m: LockId, step: Step)
    requires SyncInv(s) && CanDo(s, step) && step in {Acquire(m), Release(m)}
    ensures m in s.locks && step.Release? ==> s.locks[m].holder == Some(s.k.cur) && s.locks[m].nr >= 1
    ensures Next(s, step) == s.(place := s.place[s.k.cur := NewPlace(SitesOf(s), s.k.cur, step)])
  {
    EnterSites(SitesOf(s), s.k.cur, step, m);
    assert step.Release? ==> LockFits(SitesOf(s), m);
  }

  // ---- what an acquire does, and what a release undoes ----

  // Lock m and the place of thread c after n of its steps at m that nothing comes between.
  function Steps(l: Lock, p: Place, c: Tid, n: nat): (Lock, Place)
    decreases n
  {
    if n == 0 then (l, p) else Steps(GoLock(l, p, c), GoPlace(l, p), c, n - 1)
  }

  // What LockFits says of a mutex that thread c, being in no operation, holds or does not hold.
  lemma HeldBy(v: Sites, c: Tid, m: LockId)
    requires m in v.locks && LockFits(v, m) && c in v.place && v.place[c] == Outside && v.locks[m].isMutex
    ensures var l := v.locks[m];
      if l.owner == Some(c) then l.value == 0 && l.holder == Some(c) && l.nr == l.Depth(c) >= 1
      else l.Depth(c) == 0 && l.holder != Some(c)
    ensures var l := v.locks[m];
      if l.owner == None then l.value == 1 && l.holder == None && l.nr == 0 else l.value == 0
  {
    var l := v.locks[m];
    if l.owner.Some? && l.owner.value != c {
      assert OwnerFits(l, m, l.owner.value, v.place[l.owner.value]);
    }
  }

  // mutex_acquire of a free mutex: after three steps the caller is its holder with a count of 1.
  lemma AcquireTakes(v: Sites, c: Tid, m: LockId)
    requires CanStep(v, c, Acquire(m)) && LockFits(v, m) && v.locks[m].value == 1
    ensures var l := v.locks[m];
      Steps(l, NewPlace(v, c, Acquire(m)), c, 3) ==
      (l.(value := 0, owner := Some(c), holder := Some(c), nr := 1, depth := l.depth[c := 1]), Outside)
  {
    HeldBy(v, c, m);
    AcquireSteps(v.locks[m], m, c);
  }

  lemma AcquireSteps(l: Lock, m: LockId, c: Tid)
    requires l.isMutex && l.value == 1 && l.Depth(c) == 0
    ensures Steps(l, AtDown(m), c, 3) ==
      (l.(value := 0, owner := Some(c), holder := Some(c), nr := 1, depth := l.depth[c := 1]), Outside)
  {
    var l2 := l.(value := 0, owner := Some(c));
    var l3 := l2.(holder := Some(c));
    assert Steps(l, AtDown(m), c, 3) == Steps(l2, SetHolder(m), c, 2);
    assert Steps(l2, SetHolder(m), c, 2) == Steps(l3, SetNr(m), c, 1);
    assert Steps(l3, SetNr(m), c, 1) == Steps(GoLock(l3, SetNr(m), c), Outside, c, 0);
  }

  // The mutex_release that balances the first acquire: after three steps the mutex is free again, and
  // whoever waited longest is off the list.
  lemma ReleaseGivesBack(v: Sites, c: Tid, m: LockId)
    requires CanStep(v, c, Release(m)) && LockFits(v, m) && v.locks[m].Depth(c) == 1
    ensures var l, w := v.locks[m], v.locks[m].waiters;
      Steps(l, NewPlace(v, c, Release(m)), c, 3) ==
      (l.(value := 1, owner := None, holder := None, nr := 0, depth := l.depth[c := 0],
        waiters := if w == [] then [] else w[1..]), Outside)
  {
    HeldBy(v, c, m);
    ReleaseSteps(v.locks[m], m, c);
  }

  lemma ReleaseSteps(l: Lock, m: LockId, c: Tid)
    requires l.value == 0 && l.Depth(c) == 1
    ensures Steps(l, ClearHolder(m), c, 3) ==
      (l.(value := 1, owner := None, holder := None, nr := 0, depth := l.depth[c := 0],
        waiters := if l.waiters == [] then [] else l.waiters[1..]), Outside)
  {
    var l2 := l.(holder := None);
    var l3 := l2.(nr := 0);
    assert Steps(l, ClearHolder(m), c, 3) == Steps(l2, ClearNr(m), c, 2);
    assert Steps(l2, ClearNr(m), c, 2) == Steps(l3, AtUp(m), c, 1);
    assert Steps(l3, AtUp(m), c, 1) == Steps(GoLock(l3, AtUp(m), c), Outside, c, 0);
  }

  // The holder takes its mutex again in one step that does not test value, and one step of the
  // mutex_release that follows changes it back.
  lemma HolderTakesAgain(v: Sites, c: Tid, m: LockId)
    requires CanStep(v, c, Acquire(m)) && LockFits(v, m) && v.locks[m].Depth(c) > 0
    ensures var l := v.locks[m]; var n := l.Depth(c);
      var again := l.(nr := n + 1, depth := l.depth[c := n + 1]); var v' := v.(locks := v.locks[m := again]);
      && Steps(l, NewPlace(v, c, Acquire(m)), c, 1) == (again, Outside)
      && CanStep(v', c, Release(m)) && Steps(again, NewPlace(v', c, Release(m)), c, 1) == (l, Outside)
  {
    HeldBy(v, c, m);
    var l := v.locks[m];
    var n := l.Depth(c);
    var again := l.(nr := n + 1, depth := l.depth[c := n + 1]);
    assert Steps(l, IncNr(m), c, 1) == Steps(GoLock(l, IncNr(m), c), Outside, c, 0);
    assert Steps(again, DecNr(m), c, 1) == Steps(GoLock(again, DecNr(m), c), Outside, c, 0);
    assert again.depth[c := n] == l.depth;
  }

  // A plain semaphore that nobody waits for: a raise and then a take leave it as it was.
  lemma TakeUndoesRaise(l: Lock, m: LockId, c: Tid)
    requires !l.isMutex && l.value == 0 && l.owner == None && l.waiters == []
    ensures UpLock(l) == l.(value := 1) && Steps(UpLock(l), AtDown(m), c, 1) == (l, Outside)
  {
    assert Steps(UpLock(l), AtDown(m), c, 1) == Steps(l, Outside, c, 0);
  }
}
