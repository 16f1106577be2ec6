/** Exclusive sections of vCPU threads: cpu_exec_start, cpu_exec_end, start_exclusive and
    end_exclusive, one atomic step for every access to shared memory, in every interleaving.

    Thread `t` drives CPU `t`.  The two condition variables are modelled by the threads asleep on
    them; a sleeper may also wake on its own. */
module Exclusive {

  datatype Pc =
    | Idle
      // cpu_exec_start
    | StartRead                          // `running` is set; read pending_cpus
    | StartLock                          // pending_cpus was not 0; take the lock
    | StartTest                          // lock held; look at has_waiter
    | StartIdle                          // lock held, `running` cleared; exclusive_idle looks at pending_cpus
    | StartSleep                         // asleep on exclusive_resume
    | StartWake                          // woken; take the lock back
    | StartResume                        // lock held, pending_cpus is 0; set `running`
    | StartUnlock                        // lock held; release it
    | InExec                             // cpu_exec_start has returned
      // cpu_exec_end
    | EndRead                            // `running` is cleared; read pending_cpus
    | EndLock
    | EndTest                            // lock held; look at has_waiter
    | EndDec                             // lock held, has_waiter cleared; decrement pending_cpus
    | EndSignal                          // lock held; signal exclusive_cond if pending_cpus is 1
    | EndUnlock
      // start_exclusive
    | ExclLock
    | ExclIdle                           // lock held; exclusive_idle looks at pending_cpus
    | ExclIdleSleep                      // asleep on exclusive_resume
    | ExclIdleWake
    | ExclSet                            // lock held, pending_cpus is 0; set it to 1
    | ExclScan(next: nat, count: nat)    // lock held; read `running` of CPU `next`
    | ExclMark(next: nat, count: nat)    // lock held; set has_waiter of CPU `next`
    | ExclPublish(count: nat)            // lock held; set pending_cpus to count + 1
    | ExclWait                           // lock held; look at pending_cpus
    | ExclSleep                          // asleep on exclusive_cond
    | ExclWake
    | ExclUnlock
    | InExclusive                        // start_exclusive has returned
      // end_exclusive
    | FinLock
    | FinReset                           // lock held; set pending_cpus to 0
    | FinBroadcast                       // lock held; wake everybody on exclusive_resume
    | FinUnlock

  /** `owner` is bookkeeping of the model: the thread whose start_exclusive set pending_cpus, or -1.
      No step looks at it. */
  datatype State = State(pc: seq<Pc>, running: set<nat>, waiters: set<nat>, pending: int, lock: int, owner: int) {
    function At(t: nat, p: Pc): State
      requires t < |pc|
    {
      this.(pc := pc[t := p])
    }
  }

  datatype Action =
    | ExecStart(t: nat)                  // call cpu_exec_start
    | ExecEnd(t: nat)                    // call cpu_exec_end
    | StartExclusive(t: nat)             // call start_exclusive
    | EndExclusive(t: nat)               // call end_exclusive
    | Step(t: nat, wakes: nat)           // next step of the call in progress; a signal goes to `wakes`
    | Spurious(t: nat)                   // a sleeper wakes on its own

  predicate TakesLock(p: Pc) {
    (p.StartLock? || p.StartWake? || p.EndLock? || p.ExclLock? || p.ExclIdleWake? || p.ExclWake? || p.FinLock?)
  }

  predicate Asleep(p: Pc) {
    (p.StartSleep? || p.ExclIdleSleep? || p.ExclSleep?)
  }

  predicate Outside(p: Pc) {
    (p.Idle? || p.InExec? || p.InExclusive?)
  }

  /** Which actions can happen. */
  predicate Enabled(s: State, a: Action) {
    a.t < |s.pc| &&
    match a
    case ExecStart(t) => s.pc[t] == Idle
    case ExecEnd(t) => s.pc[t] == InExec
    case StartExclusive(t) => s.pc[t] == Idle
    case EndExclusive(t) => s.pc[t] == InExclusive
    case Spurious(t) => Asleep(s.pc[t])
    case Step(t, u) =>
      && !Outside(s.pc[t]) && !Asleep(s.pc[t])
      && (TakesLock(s.pc[t]) ==> s.lock == -1)
      && SignalReaches(s, t, u)
  }

  /** A signal on exclusive_cond wakes one of the threads asleep on it, if there is one. */
  predicate SignalReaches(s: State, t: nat, u: nat)
    requires t < |s.pc|
  {
    s.pc[t] == EndSignal && s.pending == 1 && (exists v :: 0 <= v < |s.pc| && s.pc[v] == ExclSleep) ==>
      u < |s.pc| && s.pc[u] == ExclSleep
  }

  function Resumed(p: Pc): Pc {
    if p.StartSleep? then StartWake else if p.ExclIdleSleep? then ExclIdleWake else p
  }

  /** A broadcast on exclusive_resume. */
  function WakeResume(pc: seq<Pc>): (r: seq<Pc>)
    ensures |r| == |pc|
    ensures forall i :: 0 <= i < |pc| ==> r[i] == Resumed(pc[i])
  {
    seq(|pc|, i requires 0 <= i < |pc| => Resumed(pc[i]))
  }

  /** cpu_exec_start, after setting `running` */
  function StepStart(s: State, t: nat): State
    requires t < |s.pc|
  {
    match s.pc[t]
    case StartRead => s.At(t, if s.pending != 0 then StartLock else InExec)
    case StartLock => s.(lock := t).At(t, StartTest)
    case StartTest => if t in s.waiters then s.At(t, StartUnlock) else s.(running := s.running - {t}).At(t, StartIdle)
    case StartIdle => if s.pending != 0 then s.(lock := -1).At(t, StartSleep) else s.At(t, StartResume)
    case StartWake => s.(lock := t).At(t, StartIdle)
    case StartResume => s.(running := s.running + {t}).At(t, StartUnlock)
    case StartUnlock => s.(lock := -1).At(t, InExec)
    case _ => s
  }

  /** cpu_exec_end, after clearing `running` */
  function StepEnd(s: State, t: nat, u: nat): State
    requires t < |s.pc|
  {
    match s.pc[t]
    case EndRead => s.At(t, if s.pending != 0 then EndLock else Idle)
    case EndLock => s.(lock := t).At(t, EndTest)
    case EndTest => if t in s.waiters then s.(waiters := s.waiters - {t}).At(t, EndDec) else s.At(t, EndUnlock)
    case EndDec => s.(pending := s.pending - 1).At(t, EndSignal)
    case EndSignal =>
      if s.pending == 1 && u < |s.pc| && s.pc[u] == ExclSleep then s.At(u, ExclWake).At(t, EndUnlock)
      else s.At(t, EndUnlock)
    case EndUnlock => s.(lock := -1).At(t, Idle)
    case _ => s
  }

  /** start_exclusive, up to the end of exclusive_idle */
  function StepEnter(s: State, t: nat): State
    requires t < |s.pc|
  {
    match s.pc[t]
    case ExclLock => s.(lock := t).At(t, ExclIdle)
    case ExclIdle => if s.pending != 0 then s.(lock := -1).At(t, ExclIdleSleep) else s.At(t, ExclSet)
    case ExclIdleWake => s.(lock := t).At(t, ExclIdle)
    case ExclSet => s.(pending := 1, owner := t).At(t, ExclScan(0, 0))
    case _ => s
  }

  /** start_exclusive, counting the running CPUs and waiting for them */
  function StepOwner(s: State, t: nat): State
    requires t < |s.pc|
  {
    match s.pc[t]
    case ExclScan(k, c) =>
      s.At(t, if k >= |s.pc| then ExclPublish(c) else if k in s.running then ExclMark(k, c) else ExclScan(k + 1, c))
    case ExclMark(k, c) => s.(waiters := s.waiters + {k}).At(t, ExclScan(k + 1, c + 1))
    case ExclPublish(c) => s.(pending := c + 1).At(t, ExclWait)
    case ExclWait => if s.pending > 1 then s.(lock := -1).At(t, ExclSleep) else s.At(t, ExclUnlock)
    case ExclWake => s.(lock := t).At(t, ExclWait)
    case ExclUnlock => s.(lock := -1).At(t, InExclusive)
    case _ => s
  }

  /** end_exclusive */
  function StepFin(s: State, t: nat): State
    requires t < |s.pc|
  {
    match s.pc[t]
    case FinLock => s.(lock := t).At(t, FinReset)
    case FinReset => s.(pending := 0, owner := -1).At(t, FinBroadcast)
    case FinBroadcast => s.(pc := WakeResume(s.pc)).At(t, FinUnlock)
    case FinUnlock => s.(lock := -1).At(t, Idle)
    case _ => s
  }

  predicate OfStart(p: Pc) {
    p.StartRead? || p.StartLock? || p.StartTest? || p.StartIdle? || p.StartWake? || p.StartResume? || p.StartUnlock?
  }

  predicate OfEnd(p: Pc) {
    p.EndRead? || p.EndLock? || p.EndTest? || p.EndDec? || p.EndSignal? || p.EndUnlock?
  }

  predicate OfEnter(p: Pc) {
    p.ExclLock? || p.ExclIdle? || p.ExclIdleWake? || p.ExclSet?
  }

  predicate OfFin(p: Pc) {
    p.FinLock? || p.FinReset? || p.FinBroadcast? || p.FinUnlock?
  }

  predicate OfOwner(p: Pc) {
    p.ExclScan? || p.ExclMark? || p.ExclPublish? || p.ExclWait? || p.ExclWake? || p.ExclUnlock?
  }

  function Do(s: State, a: Action): State
    requires Enabled(s, a)
  {
    match a
    case ExecStart(t) => s.(running := s.running + {t}).At(t, StartRead)
    case ExecEnd(t) => s.(running := s.running - {t}).At(t, EndRead)
    case StartExclusive(t) => s.At(t, ExclLock)
    case EndExclusive(t) => s.At(t, FinLock)
    case Spurious(t) =>
      s.At(t, if s.pc[t] == StartSleep then StartWake else if s.pc[t] == ExclSleep then ExclWake else ExclIdleWake)
    case Step(t, u) =>
      if OfStart(s.pc[t]) then StepStart(s, t)
      else if OfEnd(s.pc[t]) then StepEnd(s, t, u)
      else if OfEnter(s.pc[t]) then StepEnter(s, t)
      else if OfOwner(s.pc[t]) then StepOwner(s, t)
      else StepFin(s, t)
  }

  /** qemu_init_cpu_list, with any number of CPUs that are not executing. */
  function Start(n: nat): State {
    State(seq(n, _ => Idle), {}, {}, 0, -1, -1)
  }

  ghost predicate Next(s: State, s': State) {
    exists a :: Enabled(s, a) && s' == Do(s, a)
  }

  /** A run: any interleaving of any calls, from any number of idle CPUs. */
  ghost predicate Run(run: seq<State>, n: nat) {
    && |run| > 0 && run[0] == Start(n)
    && forall i :: 0 <= i < |run| - 1 ==> Next(run[i], run[i + 1])
  }

  // ---------------------------------------------------------------- what every step keeps

  predicate HasLock(p: Pc) {
    p.ExclScan? || p.ExclMark? || p.ExclPublish? ||
    (p.StartTest? || p.StartIdle? || p.StartResume? || p.StartUnlock? ||
     p.EndTest? || p.EndDec? || p.EndSignal? || p.EndUnlock? ||
     p.ExclIdle? || p.ExclSet? || p.ExclWait? || p.ExclUnlock? ||
     p.FinReset? || p.FinBroadcast? || p.FinUnlock?)
  }

  predicate SetsRunning(p: Pc) {
    (p.StartRead? || p.StartLock? || p.StartTest? || p.StartUnlock? || p.InExec?)
  }

  /** Between setting pending_cpus to 1 and publishing the count. */
  predicate Counting(p: Pc) {
    p.ExclScan? || p.ExclMark? || p.ExclPublish?
  }

  /** After publishing the count and before resetting it. */
  predicate Counted(p: Pc) {
    (p.ExclWait? || p.ExclSleep? || p.ExclWake? || p.ExclUnlock? || p.InExclusive? || p.FinLock? || p.FinReset?)
  }

  /** Between the decision that nobody is left running and the reset. */
  predicate Alone(p: Pc) {
    (p.ExclUnlock? || p.InExclusive? || p.FinLock? || p.FinReset?)
  }

  /** Where a CPU with has_waiter set can be: on its way to the decrement. */
  predicate OwesDecrement(p: Pc) {
    (p.StartRead? || p.StartLock? || p.StartTest? || p.StartUnlock? || p.InExec? || p.EndRead? || p.EndLock? ||
     p.EndTest?)
  }

  /** Where a CPU seen running can be until it is marked: it needs the lock to go further. */
  predicate MayBeMarked(p: Pc) {
    p.StartRead? || p.StartLock? || p.InExec? || p.EndRead? || p.EndLock?
  }

  /** The owner's scan has looked at CPU `c`. */
  predicate Scanned(p: Pc, c: nat) {
    if p.ExclScan? || p.ExclMark? then c < p.next else true
  }

  predicate Locks(s: State) {
    && -1 <= s.lock < |s.pc|
    && forall t :: 0 <= t < |s.pc| ==> (HasLock(s.pc[t]) <==> s.lock == t)
  }

  predicate Owners(s: State) {
    && -1 <= s.owner < |s.pc|
    && (forall t :: 0 <= t < |s.pc| ==> (Counting(s.pc[t]) || Counted(s.pc[t]) <==> s.owner == t))
    && (s.pending == 0 <==> s.owner == -1)
    && (forall t :: 0 <= t < |s.pc| && (s.pc[t] == StartResume || s.pc[t] == ExclSet) ==> s.pending == 0)
  }

  predicate Flags(s: State) {
    && (forall t :: t in s.running ==> t < |s.pc|)
    && (forall t :: 0 <= t < |s.pc| ==> (t in s.running <==> SetsRunning(s.pc[t])))
    && (forall t :: t in s.waiters ==> t < |s.pc| && OwesDecrement(s.pc[t]))
  }

  function Decrementing(s: State): nat {
    if 0 <= s.lock < |s.pc| && s.pc[s.lock] == EndDec then 1 else 0
  }

  /** pending_cpus counts the CPUs that owe a decrement. */
  predicate Counts(s: State) {
    Numbers(s) && Marks(s)
  }

  predicate Numbers(s: State) {
    if !(0 <= s.owner < |s.pc|) then s.waiters == {} && Decrementing(s) == 0
    else
      var p := s.pc[s.owner];
      if Counting(p) then s.pending == 1 && Decrementing(s) == 0 && |s.waiters| == p.count
      else s.pending == 1 + |s.waiters| + Decrementing(s) && (Alone(p) ==> s.pending == 1)
  }

  /** While the owner scans, it has marked only CPUs it has passed, and one that it is about to
      mark has not got away. */
  predicate Marks(s: State) {
    0 <= s.owner < |s.pc| ==>
      var p := s.pc[s.owner];
      && (p.ExclScan? || p.ExclMark? ==> forall t :: t in s.waiters ==> t < p.next)
      && (p.ExclMark? ==> p.next < |s.pc| && MayBeMarked(s.pc[p.next]))
  }

  /** A CPU inside its execution loop that the owner has looked at is counted. */
  predicate Seen(s: State) {
    0 <= s.owner < |s.pc| ==>
      forall t :: 0 <= t < |s.pc| && (s.pc[t] == InExec || s.pc[t] == StartUnlock) && Scanned(s.pc[s.owner], t) ==>
        t in s.waiters
  }

  /** Nobody sleeps unless somebody is about to wake them. */
  predicate NoLostWakeup(s: State) {
    && (forall t :: 0 <= t < |s.pc| && s.pc[t] == ExclSleep ==>
          s.pending > 1 || (0 <= s.lock < |s.pc| && s.pc[s.lock] == EndSignal && s.pending == 1))
    && (forall t :: 0 <= t < |s.pc| && (s.pc[t] == StartSleep || s.pc[t] == ExclIdleSleep) ==>
          s.pending != 0 || (0 <= s.lock < |s.pc| && s.pc[s.lock] == FinBroadcast))
  }

  predicate Core(s: State) {
    Locks(s) && Owners(s) && Flags(s) && Counts(s)
  }

  predicate Inv(s: State) {
    Core(s) && Seen(s) && NoLostWakeup(s)
  }

  predicate Ready(s: State, t: nat) {
    t < |s.pc| && (TakesLock(s.pc[t]) ==> s.lock == -1)
  }

  // Calls, and sleepers waking on their own

  lemma CallKeepsLocks(s: State, a: Action)
    requires Locks(s) && Enabled(s, a) && !a.Step?
    ensures Locks(Do(s, a))
  {}

  lemma CallKeepsOwners(s: State, a: Action)
    requires Locks(s) && Owners(s) && Enabled(s, a) && !a.Step?
    ensures Owners(Do(s, a))
  {}

  lemma CallKeepsFlags(s: State, a: Action)
    requires Flags(s) && Enabled(s, a) && !a.Step?
    ensures Flags(Do(s, a))
  {}

  lemma CallKeepsCounts(s: State, a: Action)
    requires Core(s) && Enabled(s, a) && !a.Step?
    ensures Counts(Do(s, a))
  {
    hide Numbers, Marks;
    CallKeepsNumbers(s, a);
    CallKeepsMarks(s, a);
  }

  lemma CallKeepsNumbers(s: State, a: Action)
    requires Core(s) && Enabled(s, a) && !a.Step?
    ensures Numbers(Do(s, a))
  {}

  lemma CallKeepsMarks(s: State, a: Action)
    requires Core(s) && Enabled(s, a) && !a.Step?
    ensures Marks(Do(s, a))
  {}

  lemma CallKeepsSeen(s: State, a: Action)
    requires Owners(s) && Seen(s) && Enabled(s, a) && !a.Step?
    ensures Seen(Do(s, a))
  {}

  lemma CallKeepsNoLostWakeup(s: State, a: Action)
    requires Locks(s) && NoLostWakeup(s) && Enabled(s, a) && !a.Step?
    ensures NoLostWakeup(Do(s, a))
  {}

  // Steps of cpu_exec_start

  lemma StartKeepsLocks(s: State, t: nat)
    requires Locks(s) && Ready(s, t) && OfStart(s.pc[t])
    ensures Locks(StepStart(s, t))
  {}

  lemma StartKeepsOwners(s: State, t: nat)
    requires Locks(s) && Owners(s) && Ready(s, t) && OfStart(s.pc[t])
    ensures Owners(StepStart(s, t))
  {
    hide Locks, Owners;
    ElsewhereKeepsOwners(s, t, StepStart(s, t).pc[t], StepStart(s, t));
  }

  lemma StartKeepsFlags(s: State, t: nat)
    requires Locks(s) && Flags(s) && Ready(s, t) && OfStart(s.pc[t])
    ensures Flags(StepStart(s, t))
  {}

  lemma StartKeepsCounts(s: State, t: nat)
    requires Core(s) && Ready(s, t) && OfStart(s.pc[t])
    ensures Counts(StepStart(s, t))
  {}

  lemma StartKeepsSeen(s: State, t: nat)
    requires Locks(s) && Owners(s) && Seen(s) && Ready(s, t) && OfStart(s.pc[t])
    ensures Seen(StepStart(s, t))
  {}

  lemma StartKeepsNoLostWakeup(s: State, t: nat)
    requires Locks(s) && NoLostWakeup(s) && Ready(s, t) && OfStart(s.pc[t])
    ensures NoLostWakeup(StepStart(s, t))
  {}

  // Steps of cpu_exec_end

  lemma EndKeepsLocks(s: State, t: nat, u: nat)
    requires Locks(s) && Ready(s, t) && OfEnd(s.pc[t])
    ensures Locks(StepEnd(s, t, u))
  {}

  lemma EndKeepsOwners(s: State, t: nat, u: nat)
    requires Locks(s) && Owners(s) && Numbers(s) && Ready(s, t) && OfEnd(s.pc[t])
    ensures Owners(StepEnd(s, t, u))
  {
    hide Locks, Owners, Numbers;
    if s.pc[t].EndDec? {
      DecKeepsOwners(s, t, u);
    } else {
      var woken := s.pc[t].EndSignal? && s.pending == 1 && u < |s.pc| && s.pc[u] == ExclSleep;
      var s' := if woken then s.At(u, ExclWake) else s;
      if woken {
        ElsewhereKeepsOwners(s, u, ExclWake, s');
      }
      ElsewhereKeepsOwners(s', t, StepEnd(s, t, u).pc[t], StepEnd(s, t, u));
    }
  }

  lemma DecKeepsOwners(s: State, t: nat, u: nat)
    requires Locks(s) && Owners(s) && Numbers(s) && t < |s.pc| && s.pc[t].EndDec?
    ensures Owners(StepEnd(s, t, u))
  {}

  lemma EndKeepsFlags(s: State, t: nat, u: nat)
    requires Owners(s) && Flags(s) && Numbers(s) && Ready(s, t) && OfEnd(s.pc[t])
    ensures Flags(StepEnd(s, t, u))
  {}

  lemma EndKeepsCounts(s: State, t: nat, u: nat)
    requires Core(s) && Ready(s, t) && OfEnd(s.pc[t])
    ensures Counts(StepEnd(s, t, u))
  {
    hide Numbers, Marks;
    EndKeepsNumbers(s, t, u);
    EndKeepsMarks(s, t, u);
  }

  lemma EndKeepsNumbers(s: State, t: nat, u: nat)
    requires Core(s) && Ready(s, t) && OfEnd(s.pc[t])
    ensures Numbers(StepEnd(s, t, u))
  {
    hide Flags, Marks, Locks;
    EndingAlone(s, t);
  }

  /** Who ends its execution does not own the section, and decrements only with the lock. */
  lemma EndingAlone(s: State, t: nat)
    requires Core(s) && Ready(s, t) && OfEnd(s.pc[t])
    ensures s.owner != t && (HasLock(s.pc[t]) <==> s.lock == t)
    ensures s.lock == t && 0 <= s.owner < |s.pc| ==> !Counting(s.pc[s.owner])
  {}

  lemma EndKeepsMarks(s: State, t: nat, u: nat)
    requires Core(s) && Ready(s, t) && OfEnd(s.pc[t])
    ensures Marks(StepEnd(s, t, u))
  {}

  lemma EndKeepsSeen(s: State, t: nat, u: nat)
    requires Owners(s) && Seen(s) && Ready(s, t) && OfEnd(s.pc[t])
    ensures Seen(StepEnd(s, t, u))
  {}

  lemma EndKeepsNoLostWakeup(s: State, t: nat, u: nat)
    requires Locks(s) && Owners(s) && Numbers(s) && NoLostWakeup(s) && Ready(s, t) && OfEnd(s.pc[t])
    requires SignalReaches(s, t, u)
    ensures NoLostWakeup(StepEnd(s, t, u))
  {}

  // Steps of start_exclusive before it owns the section

  lemma EnterKeepsLocks(s: State, t: nat)
    requires Locks(s) && Ready(s, t) && OfEnter(s.pc[t])
    ensures Locks(StepEnter(s, t))
  {}

  lemma EnterKeepsOwners(s: State, t: nat)
    requires Locks(s) && Owners(s) && Ready(s, t) && OfEnter(s.pc[t])
    ensures Owners(StepEnter(s, t))
  {}

  lemma EnterKeepsFlags(s: State, t: nat)
    requires Flags(s) && Ready(s, t) && OfEnter(s.pc[t])
    ensures Flags(StepEnter(s, t))
  {}

  lemma EnterKeepsCounts(s: State, t: nat)
    requires Core(s) && Ready(s, t) && OfEnter(s.pc[t])
    ensures Counts(StepEnter(s, t))
  {}

  lemma EnterKeepsSeen(s: State, t: nat)
    requires Owners(s) && Seen(s) && Ready(s, t) && OfEnter(s.pc[t])
    ensures Seen(StepEnter(s, t))
  {}

  lemma EnterKeepsNoLostWakeup(s: State, t: nat)
    requires Locks(s) && Owners(s) && NoLostWakeup(s) && Ready(s, t) && OfEnter(s.pc[t])
    ensures NoLostWakeup(StepEnter(s, t))
  {}

  // Steps of start_exclusive while it counts and waits

  lemma OwnerKeepsLocks(s: State, t: nat)
    requires Locks(s) && Ready(s, t) && OfOwner(s.pc[t])
    ensures Locks(StepOwner(s, t))
  {}

  lemma OwnerKeepsOwners(s: State, t: nat)
    requires Locks(s) && Owners(s) && Ready(s, t) && OfOwner(s.pc[t])
    ensures Owners(StepOwner(s, t))
  {}

  lemma OwnerKeepsFlags(s: State, t: nat)
    requires Owners(s) && Flags(s) && Marks(s) && Ready(s, t) && OfOwner(s.pc[t])
    ensures Flags(StepOwner(s, t))
  {}

  lemma OwnerKeepsCounts(s: State, t: nat)
    requires Core(s) && Ready(s, t) && OfOwner(s.pc[t])
    ensures Counts(StepOwner(s, t))
  {
    hide Numbers, Marks;
    OwnerKeepsNumbers(s, t);
    OwnerKeepsMarks(s, t);
  }

  lemma OwnerKeepsNumbers(s: State, t: nat)
    requires Core(s) && Ready(s, t) && OfOwner(s.pc[t])
    ensures Numbers(StepOwner(s, t))
  {
    hide Flags, Locks, Owners;
    OwnerLock(s, t);
  }

  lemma OwnerLock(s: State, t: nat)
    requires Locks(s) && Owners(s) && Ready(s, t) && OfOwner(s.pc[t])
    ensures s.owner == t && (HasLock(s.pc[t]) <==> s.lock == t)
  {}

  lemma OwnerKeepsMarks(s: State, t: nat)
    requires Core(s) && Ready(s, t) && OfOwner(s.pc[t])
    ensures Marks(StepOwner(s, t))
  {}

  lemma OwnerKeepsSeen(s: State, t: nat)
    requires Owners(s) && Flags(s) && Seen(s) && Ready(s, t) && OfOwner(s.pc[t])
    ensures Seen(StepOwner(s, t))
  {
    hide Owners;
    OwnerIs(s, t);
  }

  lemma OwnerIs(s: State, t: nat)
    requires Owners(s) && t < |s.pc| && OfOwner(s.pc[t])
    ensures s.owner == t
  {}

  lemma OwnerKeepsNoLostWakeup(s: State, t: nat)
    requires Locks(s) && Owners(s) && NoLostWakeup(s) && Ready(s, t) && OfOwner(s.pc[t])
    ensures NoLostWakeup(StepOwner(s, t))
  {}

  // Steps of end_exclusive

  lemma FinKeepsLocks(s: State, t: nat)
    requires Locks(s) && Ready(s, t) && OfFin(s.pc[t])
    ensures Locks(StepFin(s, t))
  {}

  lemma FinKeepsOwners(s: State, t: nat)
    requires Locks(s) && Owners(s) && Ready(s, t) && OfFin(s.pc[t])
    ensures Owners(StepFin(s, t))
  {
    hide Locks, Owners, WakeResume, OfFin;
    match s.pc[t]
    case FinReset => ResetKeepsOwners(s, t);
    case FinBroadcast => BroadcastKeepsOwners(s, t);
    case FinLock => ElsewhereKeepsOwners(s, t, FinReset, StepFin(s, t));
    case FinUnlock => ElsewhereKeepsOwners(s, t, Idle, StepFin(s, t));
    case _ =>
  }

  lemma ResetKeepsOwners(s: State, t: nat)
    requires Locks(s) && Owners(s) && t < |s.pc| && s.pc[t].FinReset?
    ensures Owners(StepFin(s, t))
  {}

  lemma BroadcastKeepsOwners(s: State, t: nat)
    requires Owners(s) && t < |s.pc| && s.pc[t].FinBroadcast?
    ensures Owners(StepFin(s, t))
  {
    hide WakeResume, Resumed, Owners;
    var s' := s.(pc := WakeResume(s.pc));
    WokenKeepsOwners(s, s');
    ResumedKeeps(s.pc[t]);
    ElsewhereKeepsOwners(s', t, FinUnlock, StepFin(s, t));
  }

  lemma WokenKeepsOwners(s: State, s': State)
    requires Owners(s) && s' == s.(pc := WakeResume(s.pc))
    ensures Owners(s')
  {
    hide WakeResume, Resumed, Counting, Counted;
    forall v | 0 <= v < |s.pc|
      ensures Counting(s'.pc[v]) || Counted(s'.pc[v]) <==> Counting(s.pc[v]) || Counted(s.pc[v])
      ensures s'.pc[v] == StartResume || s'.pc[v] == ExclSet ==> s'.pc[v] == s.pc[v]
    {
      ResumedKeeps(s.pc[v]);
    }
  }

  /** Being woken by the broadcast is not about the section. */
  lemma ResumedKeeps(p: Pc)
    ensures Counting(Resumed(p)) || Counted(Resumed(p)) <==> Counting(p) || Counted(p)
    ensures Resumed(p) == StartResume || Resumed(p) == ExclSet ==> Resumed(p) == p
  {}

  /** A step that is not about the section. */
  lemma ElsewhereKeepsOwners(s: State, t: nat, p: Pc, s': State)
    requires Owners(s) && t < |s.pc| && (Counting(s.pc[t]) || Counted(s.pc[t]) <==> Counting(p) || Counted(p))
    requires p.StartResume? || p.ExclSet? ==> s.pending == 0
    requires s'.pc == s.pc[t := p] && s'.owner == s.owner && s'.pending == s.pending
    ensures Owners(s')
  {}

  lemma FinKeepsFlags(s: State, t: nat)
    requires Flags(s) && Ready(s, t) && OfFin(s.pc[t])
    ensures Flags(StepFin(s, t))
  {}

  lemma FinKeepsCounts(s: State, t: nat)
    requires Core(s) && Ready(s, t) && OfFin(s.pc[t])
    ensures Counts(StepFin(s, t))
  {}

  lemma FinKeepsSeen(s: State, t: nat)
    requires Owners(s) && Seen(s) && Ready(s, t) && OfFin(s.pc[t])
    ensures Seen(StepFin(s, t))
  {}

  lemma FinKeepsNoLostWakeup(s: State, t: nat)
    requires Locks(s) && Owners(s) && NoLostWakeup(s) && Ready(s, t) && OfFin(s.pc[t])
    ensures NoLostWakeup(StepFin(s, t))
  {
    if s.pc[t].FinBroadcast? {
      BroadcastKeepsNoLostWakeup(s, t);
    }
  }

  lemma BroadcastKeepsNoLostWakeup(s: State, t: nat)
    requires Locks(s) && NoLostWakeup(s) && t < |s.pc| && s.pc[t].FinBroadcast?
    ensures NoLostWakeup(StepFin(s, t))
  {}

  /** Every action keeps the invariant. */
  lemma ActionKeeps(s: State, a: Action)
    requires Inv(s) && Enabled(s, a)
    ensures Inv(Do(s, a))
  {
    hide Locks, Owners, Flags, Numbers, Marks, Seen, NoLostWakeup, StepStart, StepEnd, StepEnter, StepOwner, StepFin;
    if !a.Step? {
      CallKeepsLocks(s, a);
      CallKeepsOwners(s, a);
      CallKeepsFlags(s, a);
      CallKeepsCounts(s, a);
      CallKeepsSeen(s, a);
      CallKeepsNoLostWakeup(s, a);
    } else {
      var t, u := a.t, a.wakes;
      if OfStart(s.pc[t]) {
        StartKeepsLocks(s, t);
        StartKeepsOwners(s, t);
        StartKeepsFlags(s, t);
        StartKeepsCounts(s, t);
        StartKeepsSeen(s, t);
        StartKeepsNoLostWakeup(s, t);
      } else if OfEnd(s.pc[t]) {
        EndKeepsLocks(s, t, u);
        EndKeepsOwners(s, t, u);
        EndKeepsFlags(s, t, u);
        EndKeepsCounts(s, t, u);
        EndKeepsSeen(s, t, u);
        EndKeepsNoLostWakeup(s, t, u);
      } else if OfEnter(s.pc[t]) {
        EnterKeepsLocks(s, t);
        EnterKeepsOwners(s, t);
        EnterKeepsFlags(s, t);
        EnterKeepsCounts(s, t);
        EnterKeepsSeen(s, t);
        EnterKeepsNoLostWakeup(s, t);
      } else if OfOwner(s.pc[t]) {
        OwnerKeepsLocks(s, t);
        OwnerKeepsOwners(s, t);
        OwnerKeepsFlags(s, t);
        OwnerKeepsCounts(s, t);
        OwnerKeepsSeen(s, t);
        OwnerKeepsNoLostWakeup(s, t);
      } else {
        FinKeepsLocks(s, t);
        FinKeepsOwners(s, t);
        FinKeepsFlags(s, t);
        FinKeepsCounts(s, t);
        FinKeepsSeen(s, t);
        FinKeepsNoLostWakeup(s, t);
      }
    }
  }

  /** The invariant holds in every state of every run. */
  lemma {:induction false} RunKeeps(run: seq<State>, n: nat, i: nat)
    requires Run(run, n) && i < |run|
    ensures Inv(run[i]) && |run[i].pc| == n
    decreases i
  {
    if i == 0 {
      StartHolds(n);
    } else {
      RunKeeps(run, n, i - 1);
      assert Next(run[i - 1], run[i]);
      var a :| Enabled(run[i - 1], a) && run[i] == Do(run[i - 1], a);
      ActionKeeps(run[i - 1], a);
      SameThreads(run[i - 1], a);
    }
  }

  lemma StartHolds(n: nat)
    ensures Inv(Start(n))
  {}

  lemma SameThreads(s: State, a: Action)
    requires Enabled(s, a)
    ensures |Do(s, a).pc| == |s.pc|
  {}

  // ---------------------------------------------------------------- what runs never do

  /** Between the return of start_exclusive and the reset inside end_exclusive. */
  predicate Holds(p: Pc) {
    p.InExclusive? || p.FinLock? || p.FinReset?
  }

  predicate Exclusion(s: State) {
    forall t, u :: 0 <= t < |s.pc| && 0 <= u < |s.pc| && t != u && Holds(s.pc[t]) ==>
      !s.pc[u].InExec? && !Holds(s.pc[u])
  }

  /** In every state of every run: while a thread is exclusive, no CPU is inside its execution
      loop and no other thread is exclusive. */
  lemma RunsAreExclusive(run: seq<State>, n: nat, i: nat)
    requires Run(run, n) && i < |run|
    ensures Exclusion(run[i])
  {
    RunKeeps(run, n, i);
    InvExcludes(run[i]);
  }

  lemma InvExcludes(s: State)
    requires Inv(s)
    ensures Exclusion(s)
  {
    forall t, u | 0 <= t < |s.pc| && 0 <= u < |s.pc| && t != u && Holds(s.pc[t])
      ensures !s.pc[u].InExec? && !Holds(s.pc[u])
    {
      assert s.owner == t;
      assert s.waiters == {};
    }
  }

  /** Whenever the lock is free, pending_cpus is 0 and no has_waiter is set, or it is one more than
      the number of CPUs with has_waiter set. */
  lemma PendingIsCount(run: seq<State>, n: nat, i: nat)
    requires Run(run, n) && i < |run| && run[i].lock == -1
    ensures if run[i].pending == 0 then run[i].waiters == {} else run[i].pending == 1 + |run[i].waiters|
  {
    RunKeeps(run, n, i);
    var s := run[i];
    if s.owner != -1 {
      assert Counting(s.pc[s.owner]) || Counted(s.pc[s.owner]);
      assert !HasLock(s.pc[s.owner]);
    }
  }

  // ---------------------------------------------------------------- no wakeup is lost

  /** `acts` lead from one state to another, and no sleeper wakes on its own on the way. */
  ghost predicate Leads(s: State, acts: seq<Action>, s': State)
    decreases |acts|
  {
    if acts == [] then s == s'
    else Enabled(s, acts[0]) && !acts[0].Spurious? && Leads(Do(s, acts[0]), acts[1..], s')
  }

  lemma {:induction false} LeadsOn(s: State, acts: seq<Action>, s1: State, acts': seq<Action>, s2: State)
    requires Leads(s, acts, s1) && Leads(s1, acts', s2)
    ensures Leads(s, acts + acts', s2)
    decreases |acts|
  {
    hide Enabled, Do;
    if acts == [] {
      assert acts + acts' == acts';
    } else {
      LeadsOn(Do(s, acts[0]), acts[1..], s1, acts', s2);
      assert (acts + acts')[1..] == acts[1..] + acts';
    }
  }

  lemma OneMore(s: State, a: Action, acts: seq<Action>, s': State)
    requires Enabled(s, a) && !a.Spurious? && Leads(Do(s, a), acts, s')
    ensures Leads(s, [a] + acts, s')
  {
    assert ([a] + acts)[1..] == acts;
  }

  /** Steps left for a counted CPU until it is idle again. */
  function ToIdle(p: Pc): nat {
    match p
    case StartRead => 11 case StartLock => 10 case StartTest => 9 case StartUnlock => 8 case InExec => 7
    case EndRead => 6 case EndLock => 5 case EndTest => 4 case EndDec => 3 case EndSignal => 2 case EndUnlock => 1
    case _ => 0
  }

  /** The CPU is counted, or in the middle of discounting itself. */
  predicate Discounting(s: State, c: nat) {
    && c < |s.pc| && (s.lock == -1 || s.lock == c)
    && (c in s.waiters || s.pc[c].EndDec? || s.pc[c].EndSignal? || s.pc[c].EndUnlock?)
  }

  /** The thread a signal of CPU `c` would go to. */
  function Target(s: State): nat {
    if s.owner >= 0 then s.owner else 0
  }

  /** What driving one CPU to idle leaves behind. */
  ghost predicate Discounted(s: State, c: nat, s': State) {
    && |s'.pc| == |s.pc| && s'.lock == -1 && s'.waiters == s.waiters - {c} && s'.owner == s.owner
    && forall v :: 0 <= v < |s.pc| && v != c ==> s'.pc[v] == s.pc[v] || (s.pc[v].ExclSleep? && s'.pc[v].ExclWake?)
  }

  /** A counted CPU, left to run, decrements pending_cpus and releases the lock. */
  lemma {:induction false} Discount(s: State, c: nat) returns (acts: seq<Action>, s': State)
    requires Inv(s) && Discounting(s, c) && s.owner != c && 0 <= s.owner && Counted(s.pc[s.owner])
    ensures Leads(s, acts, s') && Inv(s') && Discounted(s, c, s')
    decreases ToIdle(s.pc[c])
  {
    hide Inv, Enabled, Do, ToIdle;
    var a := if s.pc[c].InExec? then ExecEnd(c) else Step(c, Target(s));
    DiscountStep(s, c, a);
    var s1 := Do(s, a);
    ActionKeeps(s, a);
    if s1.pc[c].Idle? {
      acts, s' := [a], s1;
      assert Leads(s1, [], s1);
      OneMore(s, a, [], s1);
    } else {
      acts, s' := Discount(s1, c);
      OneMore(s, a, acts, s');
      acts := [a] + acts;
    }
  }

  lemma DiscountStep(s: State, c: nat, a: Action)
    requires Inv(s) && Discounting(s, c) && s.owner != c && 0 <= s.owner && Counted(s.pc[s.owner])
    requires a == if s.pc[c].InExec? then ExecEnd(c) else Step(c, Target(s))
    ensures Enabled(s, a)
    ensures var s1 := Do(s, a);
            && |s1.pc| == |s.pc| && s1.owner == s.owner && Counted(s1.pc[s.owner])
            && s1.waiters - {c} == s.waiters - {c}
            && (forall v :: 0 <= v < |s.pc| && v != c ==>
                  s1.pc[v] == s.pc[v] || (s.pc[v].ExclSleep? && s1.pc[v].ExclWake?))
            && (if s1.pc[c].Idle? then s1.lock == -1 && c !in s1.waiters
                else Discounting(s1, c) && ToIdle(s1.pc[c]) < ToIdle(s.pc[c]))
  {
    hide Inv, Do, Enabled, Discounting;
    DiscountOthers(s, c, a);
    DiscountSelf(s, c, a);
  }

  lemma DiscountOthers(s: State, c: nat, a: Action)
    requires Inv(s) && Discounting(s, c) && s.owner != c && 0 <= s.owner && Counted(s.pc[s.owner])
    requires a == if s.pc[c].InExec? then ExecEnd(c) else Step(c, Target(s))
    ensures Enabled(s, a)
    ensures var s1 := Do(s, a);
            && |s1.pc| == |s.pc| && s1.owner == s.owner && Counted(s1.pc[s.owner])
            && s1.waiters - {c} == s.waiters - {c}
            && (forall v :: 0 <= v < |s.pc| && v != c ==>
                  s1.pc[v] == s.pc[v] || (s.pc[v].ExclSleep? && s1.pc[v].ExclWake?))
  {}

  lemma DiscountSelf(s: State, c: nat, a: Action)
    requires Inv(s) && Discounting(s, c) && s.owner != c && 0 <= s.owner && Counted(s.pc[s.owner])
    requires a == if s.pc[c].InExec? then ExecEnd(c) else Step(c, Target(s))
    ensures var s1 := Do(s, a);
            && |s1.pc| == |s.pc|
            && (if s1.pc[c].Idle? then s1.lock == -1 && c !in s1.waiters
                else Discounting(s1, c) && ToIdle(s1.pc[c]) < ToIdle(s.pc[c]))
  {}

  /** A thread waiting for the counted CPUs is woken, and enters, once they have run to idle: from
      any lock-free state, by steps of those CPUs and of the thread itself alone. */
  lemma {:induction false} WaiterGetsIn(s: State, t: nat) returns (acts: seq<Action>, s': State)
    requires Inv(s) && s.lock == -1 && t < |s.pc| && (s.pc[t].ExclSleep? || s.pc[t].ExclWake?)
    ensures Leads(s, acts, s') && Inv(s') && |s'.pc| == |s.pc| && s'.lock == -1 && s'.pc[t].InExclusive?
    ensures forall v :: 0 <= v < |s.pc| && (s.pc[v].StartSleep? || s.pc[v].ExclIdleSleep?) ==> s'.pc[v] == s.pc[v]
    decreases |s.waiters|
  {
    OwnerOf(s, t);
    if s.waiters == {} {
      acts, s' := TakesOver(s, t);
    } else {
      var c :| c in s.waiters;
      assert OwesDecrement(s.pc[c]);
      var acts1, s1 := Discount(s, c);
      assert |s.waiters - {c}| < |s.waiters|;
      var acts2;
      acts2, s' := WaiterGetsIn(s1, t);
      LeadsOn(s, acts1, s1, acts2, s');
      acts := acts1 + acts2;
    }
  }

  lemma OwnerOf(s: State, t: nat)
    requires Inv(s) && t < |s.pc| && Counted(s.pc[t])
    ensures s.owner == t && s.pending == 1 + |s.waiters| + Decrementing(s)
  {}

  lemma MustBeAwake(s: State, t: nat)
    requires Inv(s) && s.lock == -1 && t < |s.pc| && (s.pc[t].ExclSleep? || s.pc[t].ExclWake?) && s.waiters == {}
    ensures s.pc[t].ExclWake? && s.pending == 1
  {}

  /** With nobody left to wait for, the thread is awake, and three steps take it in. */
  lemma TakesOver(s: State, t: nat) returns (acts: seq<Action>, s': State)
    requires Inv(s) && s.lock == -1 && t < |s.pc| && (s.pc[t].ExclSleep? || s.pc[t].ExclWake?) && s.waiters == {}
    ensures Leads(s, acts, s') && Inv(s') && s'.lock == -1 && s'.pc == s.pc[t := InExclusive]
  {
    hide Inv;
    MustBeAwake(s, t);
    var a := Step(t, 0);
    var s1 := Do(s, a);
    var s2 := Do(s1, a);
    s' := Do(s2, a);
    ActionKeeps(s, a);
    ActionKeeps(s1, a);
    ActionKeeps(s2, a);
    ThreeSteps(s, a, s');
    acts := [a, a, a];
    assert s'.pc == s.pc[t := InExclusive];
  }

  // ---------------------------------------------------------------- a thread left to run

  /** Where the call that a thread is in returns to. */
  function Returns(p: Pc): Pc {
    if OfStart(p) || p.StartSleep? || p.InExec? then InExec
    else if OfEnter(p) || OfOwner(p) || p.ExclIdleSleep? || p.ExclSleep? || p.InExclusive? then InExclusive
    else Idle
  }

  /** Steps left, at most, until the call returns or its thread falls asleep, among `n` threads. */
  function StepsLeft(p: Pc, n: nat): nat {
    match p
    case StartRead => 6 case StartLock => 5 case StartTest => 4 case StartWake => 4 case StartIdle => 3
    case StartResume => 2 case StartUnlock => 1
    case EndRead => 6 case EndLock => 5 case EndTest => 4 case EndDec => 3 case EndSignal => 2 case EndUnlock => 1
    case ExclLock => 7 + 2 * n case ExclIdleWake => 7 + 2 * n case ExclIdle => 6 + 2 * n case ExclSet => 5 + 2 * n
    case ExclScan(k, _) => 4 + (if k < n then 2 * (n - k) else 0)
    case ExclMark(k, _) => 3 + (if k < n then 2 * (n - k) else 0)
    case ExclPublish(_) => 3 case ExclWake => 3 case ExclWait => 2 case ExclUnlock => 1
    case FinLock => 4 case FinReset => 3 case FinBroadcast => 2 case FinUnlock => 1
    case _ => 0
  }

  predicate Stopped(p: Pc) {
    Outside(p) || Asleep(p)
  }

  /** Nobody but thread `t` holds the lock. */
  predicate MayRun(s: State, t: nat) {
    t < |s.pc| && (s.lock == -1 || s.lock == t)
  }

  /** Other threads are where they were, or were woken inside their calls. */
  ghost predicate OthersStay(s: State, t: nat, s': State) {
    && |s'.pc| == |s.pc|
    && forall v :: 0 <= v < |s.pc| && v != t ==> s'.pc[v] == s.pc[v] || Woken(s.pc[v], s'.pc[v])
  }

  predicate Woken(p: Pc, p': Pc) {
    p' == Resumed(p) || (p.ExclSleep? && p'.ExclWake?)
  }

  /** What one step of thread `t` does to it: it stays in its call, releases the lock when it stops, and gets
      closer to stopping; it does not go to sleep on exclusive_resume once pending_cpus was seen to be 0. */
  ghost predicate StepsOn(s: State, t: nat, s': State) {
    && t < |s.pc| && OthersStay(s, t, s') && Returns(s'.pc[t]) == Returns(s.pc[t])
    && (if Stopped(s'.pc[t]) then s'.lock == -1
        else MayRun(s', t) && StepsLeft(s'.pc[t], |s.pc|) < StepsLeft(s.pc[t], |s.pc|))
    && (Unhindered(s, t) ==> Unhindered(s', t))
    && (Counted(s.pc[t]) && Returns(s.pc[t]).Idle? ==> s'.owner == -1 || (Counted(s'.pc[t]) && !Stopped(s'.pc[t])))
    && (!Counted(s.pc[t]) && !Returns(s.pc[t]).InExclusive? ==> s'.owner == s.owner && !Counted(s'.pc[t]))
  }

  /** Thread `t` will not sleep on exclusive_resume. */
  predicate Unhindered(s: State, t: nat) {
    t < |s.pc| && !s.pc[t].StartSleep? && !s.pc[t].ExclIdleSleep? &&
    (s.pending == 0 || Counting(s.pc[t]) || Counted(s.pc[t]) || s.pc[t].StartUnlock? || Outside(s.pc[t]))
  }

  /** What a running thread can tell from its place. */
  ghost predicate KnowsPlace(s: State, t: nat) {
    && t < |s.pc| && (HasLock(s.pc[t]) <==> s.lock == t)
    && (Counting(s.pc[t]) || Counted(s.pc[t]) <==> s.owner == t)
    && (s.pc[t].EndDec? ==> s.pending != 0)
    && (s.pc[t].StartResume? || s.pc[t].ExclSet? ==> s.pending == 0)
    && (s.pc[t].ExclMark? ==> s.pc[t].next < |s.pc|)
  }

  lemma InPlace(s: State, t: nat)
    requires Inv(s) && t < |s.pc|
    ensures KnowsPlace(s, t)
  {
    hide Flags, Seen, NoLostWakeup;
  }

  lemma SignalsOwner(s: State, t: nat)
    requires Inv(s) && t < |s.pc|
    ensures SignalReaches(s, t, Target(s))
  {
    hide Locks, Flags, Counts, Seen, NoLostWakeup;
  }

  lemma OnlyMoves(s: State, t: nat, p: Pc, s': State)
    requires t < |s.pc| && s'.pc == s.pc[t := p]
    ensures OthersStay(s, t, s')
  {}

  lemma EndOthers(s: State, t: nat, u: nat)
    requires t < |s.pc| && OfEnd(s.pc[t])
    ensures OthersStay(s, t, StepEnd(s, t, u))
  {}

  lemma FinOthers(s: State, t: nat)
    requires t < |s.pc| && OfFin(s.pc[t])
    ensures OthersStay(s, t, StepFin(s, t))
  {
    hide Resumed;
  }

  lemma StartStepsOn(s: State, t: nat)
    requires KnowsPlace(s, t) && MayRun(s, t) && OfStart(s.pc[t])
    ensures Ready(s, t) && StepsOn(s, t, StepStart(s, t))
  {
    hide OthersStay;
    OnlyMoves(s, t, StepStart(s, t).pc[t], StepStart(s, t));
  }

  lemma EndStepsOn(s: State, t: nat, u: nat)
    requires KnowsPlace(s, t) && MayRun(s, t) && OfEnd(s.pc[t])
    ensures Ready(s, t) && StepsOn(s, t, StepEnd(s, t, u))
  {
    hide OthersStay;
    EndOthers(s, t, u);
  }

  lemma EnterStepsOn(s: State, t: nat)
    requires KnowsPlace(s, t) && MayRun(s, t) && OfEnter(s.pc[t])
    ensures Ready(s, t) && StepsOn(s, t, StepEnter(s, t))
  {
    hide OthersStay;
    OnlyMoves(s, t, StepEnter(s, t).pc[t], StepEnter(s, t));
  }

  lemma OwnerStepsOn(s: State, t: nat)
    requires KnowsPlace(s, t) && MayRun(s, t) && OfOwner(s.pc[t])
    ensures Ready(s, t) && StepsOn(s, t, StepOwner(s, t))
  {
    hide OthersStay;
    OnlyMoves(s, t, StepOwner(s, t).pc[t], StepOwner(s, t));
  }

  lemma FinStepsOn(s: State, t: nat)
    requires KnowsPlace(s, t) && MayRun(s, t) && OfFin(s.pc[t])
    ensures Ready(s, t) && StepsOn(s, t, StepFin(s, t))
  {
    hide OthersStay, WakeResume;
    FinOthers(s, t);
  }

  lemma OwnStep(s: State, t: nat)
    requires Inv(s) && MayRun(s, t) && !Stopped(s.pc[t])
    ensures Enabled(s, Step(t, Target(s))) && StepsOn(s, t, Do(s, Step(t, Target(s))))
  {
    hide Inv, KnowsPlace, StepsOn, StepStart, StepEnd, StepEnter, StepOwner, StepFin;
    InPlace(s, t);
    SignalsOwner(s, t);
    if OfStart(s.pc[t]) {
      StartStepsOn(s, t);
    } else if OfEnd(s.pc[t]) {
      EndStepsOn(s, t, Target(s));
    } else if OfEnter(s.pc[t]) {
      EnterStepsOn(s, t);
    } else if OfOwner(s.pc[t]) {
      OwnerStepsOn(s, t);
    } else {
      FinStepsOn(s, t);
    }
  }

  /** What the steps of thread `t` alone lead to. */
  ghost predicate Ran(s: State, t: nat, s': State) {
    && t < |s.pc| && OthersStay(s, t, s') && Returns(s'.pc[t]) == Returns(s.pc[t]) && Stopped(s'.pc[t]) && s'.lock == -1
    && (Unhindered(s, t) ==> Unhindered(s', t))
    && (Returns(s.pc[t]).Idle? && (Counted(s.pc[t]) || s.owner == -1) ==> s'.owner == -1)
  }

  lemma RanOne(s: State, t: nat, s': State)
    requires StepsOn(s, t, s') && Stopped(s'.pc[t])
    ensures Ran(s, t, s')
  {}

  lemma RanMore(s: State, t: nat, s1: State, s': State)
    requires StepsOn(s, t, s1) && !Stopped(s1.pc[t]) && Ran(s1, t, s')
    ensures Ran(s, t, s')
  {}

  /** A thread that is inside a call and awake, while nobody else holds the lock, comes by its own steps to the
      call's return or to sleep, and releases the lock. */
  lemma {:induction false} RunsOn(s: State, t: nat) returns (acts: seq<Action>, s': State)
    requires Inv(s) && MayRun(s, t) && !Stopped(s.pc[t])
    ensures Leads(s, acts, s') && Inv(s') && Ran(s, t, s')
    ensures forall a :: a in acts ==> a.Step? && a.t == t
    decreases StepsLeft(s.pc[t], |s.pc|)
  {
    hide Inv, Do, Enabled, StepsLeft, Ran, Leads;
    var a := Step(t, Target(s));
    OwnStep(s, t);
    ActionKeeps(s, a);
    var s1 := Do(s, a);
    if Stopped(s1.pc[t]) {
      RanOne(s, t, s1);
      acts, s' := [], s1;
      LeadsNowhere(s1);
    } else {
      acts, s' := RunsOn(s1, t);
      RanMore(s, t, s1, s');
    }
    OneMore(s, a, acts, s');
    acts := [a] + acts;
  }

  lemma LeadsNowhere(s: State)
    ensures Leads(s, [], s)
  {}

  /** With the lock free, nobody is asleep unless pending_cpus is not 0. */
  lemma AsleepMeansPending(s: State, u: nat)
    requires Inv(s) && s.lock == -1 && u < |s.pc| && Asleep(s.pc[u])
    ensures s.pending != 0 && 0 <= s.owner < |s.pc|
    ensures s.pc[s.owner].ExclSleep? || s.pc[s.owner].ExclWake? || s.pc[s.owner].InExclusive? || s.pc[s.owner].FinLock?
    ensures !s.pc[u].ExclSleep? ==> s.owner != u
  {}

  lemma NobodyOwns(s: State)
    requires Inv(s) && s.owner == -1
    ensures s.pending == 0
  {}

  /** A thread asleep on exclusive_resume is woken once the exclusive thread has come and gone. */
  lemma ResumeWakes(s: State, u: nat) returns (acts: seq<Action>, s': State)
    requires Inv(s) && s.lock == -1 && u < |s.pc| && (s.pc[u].StartSleep? || s.pc[u].ExclIdleSleep?)
    ensures Leads(s, acts, s') && Inv(s') && s'.lock == -1 && s'.pending == 0 && |s'.pc| == |s.pc|
    ensures s'.pc[u] == Resumed(s.pc[u])
  {
    hide Inv, Do, Leads;
    AsleepMeansPending(s, u);
    var t := s.owner;
    var s1;
    acts, s1 := [], s;
    LeadsNowhere(s);
    if s.pc[t].ExclSleep? || s.pc[t].ExclWake? {
      acts, s1 := WaiterGetsIn(s, t);
    }
    var acts2;
    acts2, s' := Leaves(s1, t, u);
    LeadsOn(s, acts, s1, acts2, s');
    acts := acts + acts2;
  }

  /** end_exclusive, run without interruption, wakes every sleeper on exclusive_resume. */
  lemma Leaves(s: State, t: nat, u: nat) returns (acts: seq<Action>, s': State)
    requires Inv(s) && s.lock == -1 && t < |s.pc| && u < |s.pc| && t != u && (s.pc[t].InExclusive? || s.pc[t].FinLock?)
    requires s.pc[u].StartSleep? || s.pc[u].ExclIdleSleep?
    ensures Leads(s, acts, s') && Inv(s') && s'.lock == -1 && s'.pending == 0 && |s'.pc| == |s.pc|
    ensures s'.pc[u] == Resumed(s.pc[u])
    decreases s.pc[t].InExclusive?
  {
    hide Inv, Leads;
    if s.pc[t].InExclusive? {
      var a := EndExclusive(t);
      ActionKeeps(s, a);
      acts, s' := Leaves(Do(s, a), t, u);
      OneMore(s, a, acts, s');
      acts := [a] + acts;
    } else {
      acts, s' := RunsOn(s, t);
      NobodyOwns(s');
      if Asleep(s'.pc[u]) {
        AsleepMeansPending(s', u);
      }
    }
  }

  lemma ThreeSteps(s: State, a: Action, s': State)
    requires Enabled(s, a) && Enabled(Do(s, a), a) && Enabled(Do(Do(s, a), a), a) && !a.Spurious?
    requires s' == Do(Do(Do(s, a), a), a)
    ensures Leads(s, [a, a, a], s')
  {
    hide Enabled, Do;
    var s1 := Do(s, a);
    var s2 := Do(s1, a);
    assert Leads(s', [], s');
    OneMore(s2, a, [], s');
    OneMore(s1, a, [a], s');
    OneMore(s, a, [a, a], s');
    assert [a] + [] == [a] && [a] + [a] == [a, a] && [a] + [a, a] == [a, a, a];
  }

  /** In every run: a thread asleep on exclusive_cond while the lock is free has a counted CPU to
      wake it, and a continuation without any wakeup of its own in which it becomes exclusive. */
  lemma NoWakeupIsLost(run: seq<State>, n: nat, i: nat, t: nat) returns (c: nat, acts: seq<Action>, s': State)
    requires Run(run, n) && i < |run| && run[i].lock == -1
    requires t < |run[i].pc| && run[i].pc[t].ExclSleep?
    ensures c in run[i].waiters && c < |run[i].pc| && OwesDecrement(run[i].pc[c])
    ensures Leads(run[i], acts, s') && t < |s'.pc| && s'.pc[t].InExclusive?
  {
    RunKeeps(run, n, i);
    OwnerOf(run[i], t);
    assert run[i].pending > 1;
    c :| c in run[i].waiters;
    acts, s' := WaiterGetsIn(run[i], t);
  }

  /** In every run: a thread asleep on exclusive_resume while the lock is free has a continuation
      without any wakeup of its own in which end_exclusive wakes it. */
  lemma NoResumeIsLost(run: seq<State>, n: nat, i: nat, u: nat) returns (acts: seq<Action>, s': State)
    requires Run(run, n) && i < |run| && run[i].lock == -1
    requires u < |run[i].pc| && (run[i].pc[u].StartSleep? || run[i].pc[u].ExclIdleSleep?)
    ensures Leads(run[i], acts, s') && u < |s'.pc| && (s'.pc[u].StartWake? || s'.pc[u].ExclIdleWake?)
  {
    RunKeeps(run, n, i);
    acts, s' := ResumeWakes(run[i], u);
  }

  // ---------------------------------------------------------------- every call can return

  /** In every run: while no exclusive section is pending and the lock is free, cpu_exec_start, cpu_exec_end and
      end_exclusive return by the steps of their own thread. */
  lemma CallsReturnAlone(run: seq<State>, n: nat, i: nat, t: nat) returns (acts: seq<Action>, s': State)
    requires Run(run, n) && i < |run| && run[i].lock == -1 && run[i].pending == 0
    requires t < |run[i].pc| && !Outside(run[i].pc[t]) && !Returns(run[i].pc[t]).InExclusive?
    ensures Leads(run[i], acts, s') && t < |s'.pc| && s'.pc[t] == Returns(run[i].pc[t])
    ensures forall a :: a in acts ==> a.Step? && a.t == t
  {
    RunKeeps(run, n, i);
    hide Inv, Leads;
    if Asleep(run[i].pc[t]) {
      AsleepMeansPending(run[i], t);
    }
    acts, s' := RunsOn(run[i], t);
  }

  /** In every run: every call has a continuation without any wakeup of its own in which it returns. */
  lemma CallsReturn(run: seq<State>, n: nat, i: nat, t: nat) returns (acts: seq<Action>, s': State)
    requires Run(run, n) && i < |run| && t < |run[i].pc| && !Outside(run[i].pc[t])
    ensures Leads(run[i], acts, s') && Inv(s') && t < |s'.pc| && s'.pc[t] == Returns(run[i].pc[t])
  {
    hide Inv, Leads, Returns;
    RunKeeps(run, n, i);
    acts, s' := ReturnFrom(run[i], t);
  }

  /** Where a call comes back. */
  function Served(a: Action): Pc {
    if a.ExecStart? then InExec else if a.StartExclusive? then InExclusive else Idle
  }

  /** In every run: any call that a thread may make can be made and return. */
  lemma CallsAreServed(run: seq<State>, n: nat, i: nat, a: Action) returns (acts: seq<Action>, s': State)
    requires Run(run, n) && i < |run| && !a.Step? && !a.Spurious? && Enabled(run[i], a)
    ensures Leads(run[i], [a] + acts, s') && Inv(s') && a.t < |s'.pc| && s'.pc[a.t] == Served(a)
  {
    hide Inv, Leads;
    RunKeeps(run, n, i);
    var s1 := Do(run[i], a);
    ActionKeeps(run[i], a);
    acts, s' := ReturnFrom(s1, a.t);
    OneMore(run[i], a, acts, s');
  }

  lemma ReturnFrom(s: State, t: nat) returns (acts: seq<Action>, s': State)
    requires Inv(s) && t < |s.pc| && !Outside(s.pc[t])
    ensures Leads(s, acts, s') && Inv(s') && t < |s'.pc| && s'.pc[t] == Returns(s.pc[t])
  {
    hide Inv, Leads, Returns;
    if s.lock == -1 {
      acts, s' := Return(s, t);
    } else {
      acts, s' := ReturnAfterHolder(s, t);
    }
  }

  /** First whoever holds the lock releases it. */
  lemma ReturnAfterHolder(s: State, t: nat) returns (acts: seq<Action>, s': State)
    requires Inv(s) && s.lock != -1 && t < |s.pc| && !Outside(s.pc[t])
    ensures Leads(s, acts, s') && Inv(s') && t < |s'.pc| && s'.pc[t] == Returns(s.pc[t])
  {
    hide Inv, Leads, Woken, Unhindered, Counted;
    HolderIsAwake(s);
    var s1;
    acts, s1 := RunsOn(s, s.lock);
    WokenKeeps(s.pc[t], s1.pc[t]);
    s' := s1;
    if !Outside(s1.pc[t]) {
      var acts2;
      acts2, s' := Return(s1, t);
      LeadsOn(s, acts, s1, acts2, s');
      acts := acts + acts2;
    }
  }

  lemma WokenKeeps(p: Pc, p': Pc)
    ensures Woken(p, p') ==> Returns(p') == Returns(p) && (Outside(p') <==> Outside(p))
  {}

  lemma HolderIsAwake(s: State)
    requires Inv(s) && s.lock != -1
    ensures 0 <= s.lock < |s.pc| && !Stopped(s.pc[s.lock])
  {}

  lemma Return(s: State, t: nat) returns (acts: seq<Action>, s': State)
    requires Inv(s) && s.lock == -1 && t < |s.pc| && !Outside(s.pc[t])
    ensures Leads(s, acts, s') && Inv(s') && t < |s'.pc| && s'.pc[t] == Returns(s.pc[t])
  {
    hide Inv, Leads;
    if Asleep(s.pc[t]) {
      acts, s' := ReturnFromSleep(s, t);
    } else {
      var s1;
      acts, s1 := RunsOn(s, t);
      s' := s1;
      if Asleep(s1.pc[t]) {
        var acts2;
        acts2, s' := ReturnFromSleep(s1, t);
        LeadsOn(s, acts, s1, acts2, s');
        acts := acts + acts2;
      }
    }
  }

  lemma ReturnFromSleep(s: State, t: nat) returns (acts: seq<Action>, s': State)
    requires Inv(s) && s.lock == -1 && t < |s.pc| && Asleep(s.pc[t])
    ensures Leads(s, acts, s') && Inv(s') && t < |s'.pc| && s'.pc[t] == Returns(s.pc[t])
  {
    hide Inv, Leads;
    if s.pc[t].ExclSleep? {
      acts, s' := WaiterGetsIn(s, t);
    } else {
      var s1, s2, acts2;
      acts, s1 := ResumeWakes(s, t);
      acts2, s2 := RunsOn(s1, t);
      LeadsOn(s, acts, s1, acts2, s2);
      acts, s' := acts + acts2, s2;
      if s2.pc[t].ExclSleep? {
        var acts3;
        acts3, s' := WaiterGetsIn(s2, t);
        LeadsOn(s, acts, s2, acts3, s');
        acts := acts + acts3;
      }
    }
  }
}
