/** The bounce buffer and the callers waiting for it: address_space_map and address_space_unmap on
    memory without direct access, and the registration of map clients, one atomic step for every
    access to shared memory, in every interleaving. */
module Bounce {

  datatype Pc =
    | Idle
    | MapFill                    // in_use was taken; set up the buffer
    | UnmapFree                  // the buffer is given up; clear in_use
    | UnmapNotify                // in_use is cleared; take the lock
    | RegLock(bh: nat)
    | RegAdd(bh: nat)            // lock held; put the client on the list
    | RegCheck                   // lock held; look at in_use
    | NotifyLoop                 // lock held; schedule the first client and take it off the list
    | UnregLock(bh: nat)
    | UnregFind(bh: nat)         // lock held; take the client off the list
    | Unlock                     // lock held; release it

  /** in_use and bounce.buffer.  `holders` are the threads that have mapped, until some thread starts the
      unmap, and the threads that unmap; `buffer` is the thread for which bounce.buffer was filled, or -1;
      no step but the test of address_space_unmap looks at these. */
  datatype Buf = Buf(inUse: bool, holders: set<nat>, buffer: int)

  /** map_client_list.  `added`, `scheduled` and `removed` count what happened to each client; no
      step looks at these. */
  datatype List = List(clients: seq<nat>, added: multiset<nat>, scheduled: multiset<nat>, removed: multiset<nat>)

  datatype State = State(pc: seq<Pc>, buf: Buf, lock: int, list: List) {
    function At(t: nat, p: Pc): State
      requires t < |pc|
    {
      this.(pc := pc[t := p])
    }
  }

  datatype Action =
    | Map(t: nat)                        // address_space_map, up to the exchange of in_use
    | Unmap(t: nat)                      // address_space_unmap of the bounce buffer, on any thread
    | Register(t: nat, bh: nat)          // cpu_register_map_client
    | Unregister(t: nat, bh: nat)        // cpu_unregister_map_client
    | Step(t: nat)                       // next step of the call in progress

  predicate TakesLock(p: Pc) {
    (p.UnmapNotify? || p.RegLock? || p.UnregLock?)
  }

  predicate HasLock(p: Pc) {
    (p.RegAdd? || p.RegCheck? || p.NotifyLoop? || p.UnregFind? || p.Unlock?)
  }

  predicate Enabled(s: State, a: Action) {
    a.t < |s.pc| &&
    match a
    case Map(t) => s.pc[t] == Idle
    case Unmap(t) => s.pc[t] == Idle && s.buf.buffer != -1
    case Register(t, _) => s.pc[t] == Idle
    case Unregister(t, _) => s.pc[t] == Idle
    case Step(t) => s.pc[t] != Idle && (TakesLock(s.pc[t]) ==> s.lock == -1)
  }

  /** The list without the first entry for `bh`. */
  function Without(clients: seq<nat>, bh: nat): (r: seq<nat>)
    ensures multiset(clients) == multiset(r) + (if bh in clients then multiset{bh} else multiset{})
  {
    if clients == [] then []
    else if clients[0] == bh then
      assert clients == [bh] + clients[1..];
      clients[1..]
    else
      assert clients == [clients[0]] + clients[1..];
      [clients[0]] + Without(clients[1..], bh)
  }

  function DoStep(s: State, t: nat): State
    requires t < |s.pc|
  {
    match s.pc[t]
    case Idle => s
    case MapFill => s.(buf := s.buf.(buffer := t)).At(t, Idle)
    case UnmapFree => s.(buf := s.buf.(inUse := false, holders := s.buf.holders - {t})).At(t, UnmapNotify)
    case UnmapNotify => s.(lock := t).At(t, NotifyLoop)
    case RegLock(bh) => s.(lock := t).At(t, RegAdd(bh))
    case RegAdd(bh) => s.(list := Add(s.list, bh)).At(t, RegCheck)
    case RegCheck => s.At(t, if !s.buf.inUse then NotifyLoop else Unlock)
    case NotifyLoop => if s.list.clients == [] then s.At(t, Unlock) else s.(list := Schedule(s.list)).At(t, NotifyLoop)
    case UnregLock(bh) => s.(lock := t).At(t, UnregFind(bh))
    case UnregFind(bh) => s.(list := Remove(s.list, bh)).At(t, Unlock)
    case Unlock => s.(lock := -1).At(t, Idle)
  }

  function Add(list: List, bh: nat): List {
    list.(clients := [bh] + list.clients, added := list.added + multiset{bh})
  }

  function Schedule(list: List): List
    requires list.clients != []
  {
    list.(clients := list.clients[1..], scheduled := list.scheduled + multiset{list.clients[0]})
  }

  function Remove(list: List, bh: nat): List {
    if bh !in list.clients then list
    else list.(clients := Without(list.clients, bh), removed := list.removed + multiset{bh})
  }

  /** Thread `t` unmaps what any thread has mapped. */
  function HandOver(buf: Buf, t: nat): Buf {
    Buf(buf.inUse, (set u | u in buf.holders && u != buf.buffer) + {t}, -1)
  }

  function Do(s: State, a: Action): State
    requires Enabled(s, a)
  {
    match a
    case Map(t) =>
      if s.buf.inUse then s.At(t, Idle)
      else s.(buf := s.buf.(inUse := true, holders := s.buf.holders + {t})).At(t, MapFill)
    case Unmap(t) => s.(buf := HandOver(s.buf, t)).At(t, UnmapFree)
    case Register(t, bh) => s.At(t, RegLock(bh))
    case Unregister(t, bh) => s.At(t, UnregLock(bh))
    case Step(t) => DoStep(s, t)
  }

  function Start(n: nat): State {
    State(seq(n, _ => Idle), Buf(false, {}, -1), -1, List([], multiset{}, multiset{}, multiset{}))
  }

  ghost predicate Next(s: State, s': State) {
    exists a :: Enabled(s, a) && s' == Do(s, a)
  }

  ghost predicate Run(run: seq<State>, n: nat) {
    |run| > 0 && run[0] == Start(n) && forall i :: 0 < i < |run| ==> Next(run[i - 1], run[i])
  }

  // ---------------------------------------------------------------- the invariant

  predicate Locks(s: State) {
    -1 <= s.lock < |s.pc| && forall t :: 0 <= t < |s.pc| ==> (HasLock(s.pc[t]) <==> s.lock == t)
  }

  /** in_use says whether somebody holds the buffer; at most one thread does; and bounce.buffer is
      that thread's from the end of its map to the start of the unmap. */
  predicate Holding(s: State) {
    && (s.buf.inUse <==> s.buf.holders != {})
    && (forall t, u :: t in s.buf.holders && u in s.buf.holders ==> t == u)
    && (forall t :: t in s.buf.holders ==>
          t < |s.pc| && (s.buf.buffer == t <==> !s.pc[t].MapFill? && !s.pc[t].UnmapFree?))
    && (s.buf.buffer != -1 ==> s.buf.buffer in s.buf.holders)
    && (forall t :: 0 <= t < |s.pc| && (s.pc[t].MapFill? || s.pc[t].UnmapFree?) ==> t in s.buf.holders)
  }

  /** Somebody will look at the list again. */
  predicate Attended(s: State) {
    || s.buf.inUse
    || (exists t :: 0 <= t < |s.pc| && s.pc[t].UnmapNotify?)
    || (0 <= s.lock < |s.pc| && (s.pc[s.lock].RegCheck? || s.pc[s.lock].NotifyLoop?))
  }

  predicate NoneForgotten(s: State) {
    s.list.clients != [] ==> Attended(s)
  }

  /** Every client that was registered has been scheduled, was taken off, or is on the list. */
  predicate Balanced(list: List) {
    list.added == list.scheduled + multiset(list.clients) + list.removed
  }

  predicate Accounted(s: State) {
    Balanced(s.list)
  }

  predicate Inv(s: State) {
    Locks(s) && Holding(s) && NoneForgotten(s) && Accounted(s)
  }

  /** A step changes the place of its own thread only, and takes or releases the lock accordingly. */
  lemma StepShape(s: State, a: Action)
    requires Enabled(s, a)
    ensures var s' := Do(s, a);
            && |s'.pc| == |s.pc| && s'.pc == s.pc[a.t := s'.pc[a.t]]
            && s'.lock == (if HasLock(s'.pc[a.t]) == HasLock(s.pc[a.t]) then s.lock
                           else if HasLock(s'.pc[a.t]) then a.t else -1)
            && (HasLock(s'.pc[a.t]) && !HasLock(s.pc[a.t]) ==> s.lock == -1)
  {
    hide Without, Add, Schedule, Remove;
  }

  lemma LocksAt(s: State, t: nat, p: Pc, s': State)
    requires Locks(s) && t < |s.pc| && s'.pc == s.pc[t := p]
    requires s'.lock == if HasLock(p) == HasLock(s.pc[t]) then s.lock else if HasLock(p) then t else -1
    requires HasLock(p) && !HasLock(s.pc[t]) ==> s.lock == -1
    ensures Locks(s')
  {}

  lemma KeepsLocks(s: State, a: Action)
    requires Locks(s) && Enabled(s, a)
    ensures Locks(Do(s, a))
  {
    hide Locks, DoStep, HasLock;
    StepShape(s, a);
    LocksAt(s, a.t, Do(s, a).pc[a.t], Do(s, a));
  }

  predicate InHand(p: Pc) {
    (p.MapFill? || p.UnmapFree?)
  }

  /** A step that is not about the buffer. */
  lemma ElsewhereKeepsHolding(s: State, t: nat, p: Pc, s': State)
    requires Holding(s) && t < |s.pc| && !InHand(s.pc[t]) && !InHand(p)
    requires s'.pc == s.pc[t := p] && s'.buf == s.buf
    ensures Holding(s')
  {}

  lemma MapKeepsHolding(s: State, t: nat)
    requires Holding(s) && Enabled(s, Map(t))
    ensures Holding(Do(s, Map(t)))
  {
    if !s.buf.inUse {
      assert s.buf.holders + {t} == {t};
    }
  }

  lemma UnmapKeepsHolding(s: State, t: nat)
    requires Holding(s) && Enabled(s, Unmap(t))
    ensures Holding(Do(s, Unmap(t)))
  {
    assert HandOver(s.buf, t).holders == {t};
  }

  lemma FillKeepsHolding(s: State, t: nat)
    requires Holding(s) && t < |s.pc| && s.pc[t].MapFill?
    ensures Holding(DoStep(s, t))
  {}

  lemma FreeKeepsHolding(s: State, t: nat)
    requires Holding(s) && t < |s.pc| && s.pc[t].UnmapFree?
    ensures Holding(DoStep(s, t))
  {
    assert s.buf.holders - {t} == {};
  }

  lemma StepElsewhere(s: State, a: Action)
    requires Enabled(s, a) && !a.Map? && !a.Unmap? && !InHand(s.pc[a.t])
    ensures var s' := Do(s, a);
            |s'.pc| == |s.pc| && !InHand(s'.pc[a.t]) && s'.buf == s.buf
  {
    hide Without, Add, Schedule, Remove;
  }

  lemma KeepsHolding(s: State, a: Action)
    requires Holding(s) && Enabled(s, a)
    ensures Holding(Do(s, a))
  {
    hide Holding, DoStep;
    if a.Map? {
      MapKeepsHolding(s, a.t);
    } else if a.Unmap? {
      UnmapKeepsHolding(s, a.t);
    } else if s.pc[a.t].MapFill? {
      FillKeepsHolding(s, a.t);
    } else if s.pc[a.t].UnmapFree? {
      FreeKeepsHolding(s, a.t);
    } else {
      StepShape(s, a);
      StepElsewhere(s, a);
      ElsewhereKeepsHolding(s, a.t, Do(s, a).pc[a.t], Do(s, a));
    }
  }

  lemma KeepsNoneForgotten(s: State, a: Action)
    requires Locks(s) && NoneForgotten(s) && Enabled(s, a)
    ensures NoneForgotten(Do(s, a))
  {
    var s' := Do(s, a);
    if a.Step? && s.pc[a.t].UnmapFree? {
      assert s'.pc[a.t].UnmapNotify?;
    } else if t :| 0 <= t < |s.pc| && s.pc[t].UnmapNotify? && t != a.t {
      assert s'.pc[t].UnmapNotify?;
    }
  }

  lemma KeepsAccounted(s: State, a: Action)
    requires Accounted(s) && Enabled(s, a)
    ensures Accounted(Do(s, a))
  {
    hide Add, Schedule, Remove;
    if a.Step? {
      match s.pc[a.t]
      case RegAdd(bh) => AddOne(s.list, bh);
      case NotifyLoop =>
        if s.list.clients != [] {
          TakeFirst(s.list);
        }
      case UnregFind(bh) => TakeOut(s.list, bh);
      case _ =>
    }
  }

  lemma AddOne(list: List, bh: nat)
    requires Balanced(list)
    ensures Balanced(Add(list, bh))
  {}

  lemma TakeFirst(list: List)
    requires Balanced(list) && list.clients != []
    ensures Balanced(Schedule(list))
  {
    assert list.clients == [list.clients[0]] + list.clients[1..];
  }

  lemma TakeOut(list: List, bh: nat)
    requires Balanced(list)
    ensures Balanced(Remove(list, bh))
  {}

  lemma StartHolds(n: nat)
    ensures Inv(Start(n)) && |Start(n).pc| == n
  {}

  lemma SameThreads(s: State, a: Action)
    requires Enabled(s, a)
    ensures |Do(s, a).pc| == |s.pc|
  {}

  lemma {:induction false} RunKeeps(run: seq<State>, n: nat, i: nat)
    requires Run(run, n) && i < |run|
    ensures Inv(run[i]) && |run[i].pc| == n
    decreases i
  {
    hide Locks, Holding, NoneForgotten, Accounted, DoStep;
    StartHolds(n);
    if i > 0 {
      RunKeeps(run, n, i - 1);
      var s, a :| s == run[i - 1] && Enabled(s, a) && run[i] == Do(s, a);
      SameThreads(s, a);
      KeepsLocks(s, a);
      KeepsHolding(s, a);
      KeepsNoneForgotten(s, a);
      KeepsAccounted(s, a);
    }
  }

  // ---------------------------------------------------------------- what holds in every run

  /** At most one caller has the buffer, and it is nobody else's. */
  lemma OneHolder(run: seq<State>, n: nat, i: nat, t: nat, u: nat)
    requires Run(run, n) && i < |run| && t in run[i].buf.holders && u in run[i].buf.holders
    ensures t == u && run[i].buf.inUse && (run[i].buf.buffer == -1 || run[i].buf.buffer == t)
  {
    RunKeeps(run, n, i);
  }

  /** With the lock free, a list that is not empty means that the buffer is in use or some unmap has
      yet to notify. */
  lemma WaitersAreRemembered(run: seq<State>, n: nat, i: nat)
    requires Run(run, n) && i < |run| && run[i].lock == -1 && run[i].list.clients != []
    ensures run[i].buf.inUse || exists t :: 0 <= t < |run[i].pc| && run[i].pc[t].UnmapNotify?
  {
    RunKeeps(run, n, i);
  }

  /** No client disappears. */
  lemma ClientsAreAccountedFor(run: seq<State>, n: nat, i: nat, bh: nat)
    requires Run(run, n) && i < |run|
    ensures run[i].list.added[bh] == run[i].list.scheduled[bh] + multiset(run[i].list.clients)[bh] +
            run[i].list.removed[bh]
  {
    RunKeeps(run, n, i);
  }

  // ---------------------------------------------------------------- notifying everybody

  ghost predicate Leads(s: State, acts: seq<Action>, s': State)
    decreases |acts|
  {
    if acts == [] then s == s' else Enabled(s, acts[0]) && Leads(Do(s, acts[0]), acts[1..], s')
  }

  lemma FirstThen(s: State, a: Action, acts: seq<Action>, s': State)
    requires Enabled(s, a) && Leads(Do(s, a), acts, s')
    ensures Leads(s, [a] + acts, s')
  {
    assert ([a] + acts)[1..] == acts;
  }

  /** The steps of one thread that schedule everybody on the list. */
  lemma {:induction false} LoopDrains(s: State, t: nat) returns (acts: seq<Action>, s': State)
    requires Locks(s) && t < |s.pc| && s.pc[t].NotifyLoop?
    ensures Leads(s, acts, s') && s'.list.clients == [] && s'.lock == -1 && s'.buf == s.buf && s'.pc == s.pc[t := Idle]
    ensures s'.list.scheduled == s.list.scheduled + multiset(s.list.clients)
    decreases |s.list.clients|
  {
    var s1 := Do(s, Step(t));
    KeepsLocks(s, Step(t));
    if s.list.clients == [] {
      s' := Do(s1, Step(t));
      assert Leads(s', [], s');
      FirstThen(s1, Step(t), [], s');
      acts := [Step(t)] + [];
    } else {
      acts, s' := LoopDrains(s1, t);
      assert s.list.clients == [s.list.clients[0]] + s.list.clients[1..];
    }
    FirstThen(s, Step(t), acts, s');
    acts := [Step(t)] + acts;
  }

  /** An unmap that has yet to notify schedules everybody who waits. */
  lemma NotifyDrains(s: State, t: nat) returns (acts: seq<Action>, s': State)
    requires Locks(s) && s.lock == -1 && t < |s.pc| && s.pc[t].UnmapNotify?
    ensures Leads(s, acts, s') && s'.list.clients == [] && s'.lock == -1 && s'.buf == s.buf && s'.pc == s.pc[t := Idle]
    ensures s'.list.scheduled == s.list.scheduled + multiset(s.list.clients)
  {
    KeepsLocks(s, Step(t));
    acts, s' := LoopDrains(Do(s, Step(t)), t);
    FirstThen(s, Step(t), acts, s');
    acts := [Step(t)] + acts;
  }

  /** So does the unmap of the buffer, on any thread; and the buffer is free then. */
  lemma UnmapDrains(s: State, t: nat) returns (acts: seq<Action>, s': State)
    requires Locks(s) && s.lock == -1 && Enabled(s, Unmap(t))
    ensures Leads(s, acts, s') && s'.list.clients == [] && !s'.buf.inUse && s'.lock == -1 && s'.pc == s.pc
    ensures s'.list.scheduled == s.list.scheduled + multiset(s.list.clients)
  {
    var s1 := Do(s, Unmap(t));
    KeepsLocks(s, Unmap(t));
    KeepsLocks(s1, Step(t));
    acts, s' := NotifyDrains(Do(s1, Step(t)), t);
    FirstThen(s1, Step(t), acts, s');
    acts := [Step(t)] + acts;
    FirstThen(s, Unmap(t), acts, s');
    acts := [Unmap(t)] + acts;
  }

  lemma Stays(s: State)
    ensures Leads(s, [], s)
  {}

  /** A map takes the buffer by its own steps if the buffer is free, and changes nothing if it is not. */
  lemma MapTakes(s: State, t: nat) returns (acts: seq<Action>, s': State)
    requires Inv(s) && Enabled(s, Map(t))
    ensures Leads(s, acts, s') && s'.pc == s.pc && s'.lock == s.lock && s'.list == s.list
    ensures if s.buf.inUse then s'.buf == s.buf else s'.buf == Buf(true, {t}, t)
  {
    s' := Do(s, Map(t));
    acts := [];
    if !s.buf.inUse {
      var s1 := s';
      s' := Do(s1, Step(t));
      Stays(s');
      FirstThen(s1, Step(t), [], s');
      acts := [Step(t)] + [];
      assert s.buf.holders + {t} == {t};
      assert s'.pc == s.pc;
    } else {
      Stays(s');
    }
    FirstThen(s, Map(t), acts, s');
    acts := [Map(t)] + acts;
  }

  /** Unregistering takes the client off the list, if it is there, within the call; nobody is scheduled. */
  lemma UnregisterRemoves(s: State, t: nat, bh: nat) returns (acts: seq<Action>, s': State)
    requires Locks(s) && s.lock == -1 && Enabled(s, Unregister(t, bh))
    ensures Leads(s, acts, s') && s'.pc == s.pc && s'.lock == -1 && s'.buf == s.buf
    ensures multiset(s'.list.clients) == multiset(s.list.clients) - multiset{bh}
    ensures s'.list.added == s.list.added && s'.list.scheduled == s.list.scheduled
    ensures s'.list.removed == s.list.removed + if bh in s.list.clients then multiset{bh} else multiset{}
  {
    var s1 := Do(s, Unregister(t, bh));
    var s2 := Do(s1, Step(t));
    var s3 := Do(s2, Step(t));
    s' := Do(s3, Step(t));
    Stays(s');
    FirstThen(s3, Step(t), [], s');
    FirstThen(s2, Step(t), [Step(t)] + [], s');
    FirstThen(s1, Step(t), [Step(t)] + ([Step(t)] + []), s');
    FirstThen(s, Unregister(t, bh), [Step(t)] + ([Step(t)] + ([Step(t)] + [])), s');
    acts := [Unregister(t, bh)] + ([Step(t)] + ([Step(t)] + ([Step(t)] + [])));
    assert s'.pc == s.pc;
  }

  /** A client that registers while the buffer is in use is put on the list within the call. */
  lemma RegisterWaits(s: State, t: nat, bh: nat) returns (acts: seq<Action>, s': State)
    requires Locks(s) && s.lock == -1 && s.buf.inUse && Enabled(s, Register(t, bh))
    ensures Leads(s, acts, s') && s'.pc == s.pc && s'.lock == -1 && s'.buf == s.buf
    ensures multiset(s'.list.clients) == multiset(s.list.clients) + multiset{bh}
    ensures s'.list.scheduled == s.list.scheduled && s'.list.removed == s.list.removed
  {
    var s1 := Do(s, Register(t, bh));
    var s2 := Do(s1, Step(t));
    var s3 := Do(s2, Step(t));
    var s4 := Do(s3, Step(t));
    s' := Do(s4, Step(t));
    Stays(s');
    FirstThen(s4, Step(t), [], s');
    FirstThen(s3, Step(t), [Step(t)] + [], s');
    FirstThen(s2, Step(t), [Step(t)] + ([Step(t)] + []), s');
    FirstThen(s1, Step(t), [Step(t)] + ([Step(t)] + ([Step(t)] + [])), s');
    FirstThen(s, Register(t, bh), [Step(t)] + ([Step(t)] + ([Step(t)] + ([Step(t)] + []))), s');
    acts := [Register(t, bh)] + ([Step(t)] + ([Step(t)] + ([Step(t)] + ([Step(t)] + []))));
    assert s'.pc == s.pc;
  }

  /** A client that registers while the buffer is free is scheduled before the call is over. */
  lemma FreeBufferNotifies(s: State, t: nat, bh: nat) returns (acts: seq<Action>, s': State)
    requires Locks(s) && s.lock == -1 && !s.buf.inUse && Enabled(s, Register(t, bh))
    ensures Leads(s, acts, s') && bh !in s'.list.clients && s'.list.scheduled[bh] > s.list.scheduled[bh]
  {
    var s1 := Do(s, Register(t, bh));
    var s2 := Do(s1, Step(t));
    var s3 := Do(s2, Step(t));
    KeepsLocks(s, Register(t, bh));
    KeepsLocks(s1, Step(t));
    KeepsLocks(s2, Step(t));
    KeepsLocks(s3, Step(t));
    acts, s' := LoopDrains(Do(s3, Step(t)), t);
    FirstThen(s3, Step(t), acts, s');
    FirstThen(s2, Step(t), [Step(t)] + acts, s');
    FirstThen(s1, Step(t), [Step(t)] + ([Step(t)] + acts), s');
    FirstThen(s, Register(t, bh), [Step(t)] + ([Step(t)] + ([Step(t)] + acts)), s');
    acts := [Register(t, bh)] + ([Step(t)] + ([Step(t)] + ([Step(t)] + acts)));
  }
}
