/** The instruction-count clock: budgets of instructions for slices of execution, the count of
    instructions executed, and the virtual clock that is derived from it at a changing rate. */
module Icount {
  import opened Bits

  const MAX_ICOUNT_SHIFT: nat := 10
  const INT32_MAX: nat := 0x7fff_ffff
  const ICOUNT_WOBBLE: nat := 100_000_000

  // ---------------------------------------------------------------- budgets

  /** qemu_soonest_timeout: negative means never. */
  function Soonest(a: int, b: int): int {
    if a < 0 then b else if b < 0 then a else if a < b then a else b
  }

  /** The deadline that tcg_get_icount_limit works with, outside replay. */
  function Deadline(virtual': int, realtime: int): (d: nat)
    ensures d <= INT32_MAX && (d == INT32_MAX || d == virtual' || d == realtime)
    ensures virtual' >= 0 ==> d <= virtual'
    ensures realtime >= 0 ==> d <= realtime
  {
    var d := Soonest(virtual', realtime);
    if d < 0 || d > INT32_MAX then INT32_MAX else d
  }

  /** qemu_icount_round */
  function Round(count: nat, shift: nat): nat {
    Shr(count + PowerOfTwo(shift) - 1, shift)
  }

  /** The instructions of a whole budget take the clock to the deadline, and past it by less than one
      instruction's time. */
  lemma BudgetReachesDeadline(deadline: nat, shift: nat)
    ensures deadline <= Shl(Round(deadline, shift), shift) < deadline + PowerOfTwo(shift)
  {
    hide Shl, Shr;
    var q := Round(deadline, shift);
    ShrRange(deadline + PowerOfTwo(shift) - 1, shift, q);
    ShlLinear(q, 1, shift);
  }

  /** No smaller budget would do. */
  lemma BudgetIsLeast(deadline: nat, shift: nat, n: nat)
    requires deadline <= Shl(n, shift)
    ensures Round(deadline, shift) <= n
  {
    hide Shl, Shr;
    var q := Round(deadline, shift);
    BudgetReachesDeadline(deadline, shift);
    ShlLinear(n, 1, shift);
    if n + 1 <= q {
      if n + 1 < q {
        ShlMonotone(n + 1, q, shift);
      }
    }
  }

  // ---------------------------------------------------------------- the counters

  /** The counters of the timers and of the CPU.  `executed` counts every instruction the guest has
      executed; nothing looks at it. */
  datatype Counters = Counters(icount: nat, budget: nat, low: nat, extra: nat, running: bool, executed: nat)

  /** Every executed instruction is in qemu_icount, or missing from what is left of the budget. */
  ghost predicate Ledger(c: Counters) {
    && c.low + c.extra <= c.budget && c.low <= 0xffff
    && c.executed == c.icount + (c.budget - (c.low + c.extra))
    && (!c.running ==> c.budget == 0)
  }

  class TimersState {
    var icount: nat                // qemu_icount
    var bias: int                  // qemu_icount_bias
    var shift: nat                 // icount_time_shift
    var lastDelta: int
    var budget: nat                // icount_budget
    var low: nat                   // icount_decr.u16.low
    var extra: nat                 // icount_extra
    var running: bool
    ghost var executed: nat

    ghost function C(): Counters
      reads this
    {
      Counters(icount, budget, low, extra, running, executed)
    }

    ghost predicate Valid()
      reads this
    {
      Ledger(C()) && shift <= MAX_ICOUNT_SHIFT
    }

    /** The virtual clock after `n` instructions. */
    ghost function Clock(n: nat): int
      reads this
    {
      bias + Shl(n, shift)
    }

    /** What can be seen of the clock between slices, and the readings so far. */
    ghost function Now(readings: seq<int>): Moment
      reads this
    {
      Moment(executed, bias, shift, lastDelta, readings)
    }

    /** The counters and the simple machine agree. */
    ghost predicate Follows(i: Ideal, readings: seq<int>)
      reads this
    {
      i.now == Now(readings) && i.seen == icount && i.left == low + extra && i.window == low
    }

    constructor (shift: nat)
      requires shift <= MAX_ICOUNT_SHIFT
      ensures Valid() && !running && executed == 0 && this.shift == shift && lastDelta == 0 && Clock(0) == 0
    {
      icount, bias, lastDelta, budget, low, extra := 0, 0, 0, 0, 0, 0;
      running, executed := false, 0;
      this.shift := shift;
      new;
      ShlZero(shift);
    }

    /** prepare_icount_for_run; its two assertions follow from the invariant */
    method Prepare(virtual': int, realtime: int)
      requires Valid() && !running
      modifies this`budget, this`low, this`extra, this`running
      ensures Valid() && running && budget == Round(Deadline(virtual', realtime), shift) && low + extra == budget
      ensures (extra > 0 ==> low == 0xffff)
    {
      assert low == 0;
      assert extra == 0;
      budget := Round(Deadline(virtual', realtime), shift);
      var left := if 0xffff < budget then 0xffff else budget;
      low := left;
      extra := budget - left;
      running := true;
    }

    /** The guest executes `n` instructions of those it may execute without coming back. */
    method Execute(n: nat)
      requires Valid() && running && n <= low
      modifies this`low, this`executed
      ensures Valid() && low == old(low) - n && executed == old(executed) + n
    {
      low := low - n;
      executed := executed + n;
    }

    /** cpu_update_icount: from here on the count is right, however often it is called */
    method Update()
      requires Valid()
      modifies this`icount, this`budget
      ensures Valid() && icount == executed && budget == low + extra
    {
      var done := budget - (low + extra);
      budget := budget - done;
      icount := icount + done;
    }

    /** The end of cpu_loop_exec_tb: refill the decrementer. */
    method Refill()
      requires Valid() && running
      modifies this`icount, this`budget, this`low, this`extra
      ensures Valid() && icount == executed && low + extra == old(low + extra) && (extra > 0 ==> low == 0xffff)
    {
      Update();
      var left := if 0xffff < budget then 0xffff else budget;
      low := left;
      extra := budget - left;
    }

    /** cpu_get_icount_locked: on the vCPU's own thread the reading is exact; on another it is the
        time of the last update.  Without can_do_io the program exits. */
    method GetIcount(onVcpu: bool, canDoIo: bool) returns (ok: bool, ns: int)
      requires Valid()
      modifies this`icount, this`budget
      ensures Valid() && (ok <==> !(onVcpu && running && !canDoIo))
      ensures ok ==> ns == Clock(icount) && (onVcpu ==> icount == executed)
      ensures !ok || !onVcpu || !running ==> icount == old(icount) && budget == old(budget)
    {
      if onVcpu && running {
        if !canDoIo {
          return false, 0;
        }
        Update();
      }
      return true, bias + Shl(icount, shift);
    }

    /** process_icount_data */
    method Process()
      requires Valid() && running
      modifies this`icount, this`budget, this`low, this`extra, this`running
      ensures Valid() && !running && icount == executed
    {
      Update();
      low, extra, budget := 0, 0, 0;
      running := false;
    }

    /** icount_adjust, on a thread that is not the vCPU's: the rate changes by one step at most and
        the clock's current value does not change. */
    method Adjust(vmRunning: bool, now: int)
      requires Valid()
      modifies this`icount, this`budget, this`shift, this`bias, this`lastDelta
      ensures Valid() && icount == old(icount) && budget == old(budget) && Clock(icount) == old(Clock(icount))
      ensures !vmRunning ==> shift == old(shift) && bias == old(bias) && lastDelta == old(lastDelta)
      ensures vmRunning ==> lastDelta == old(Clock(icount)) - now
      ensures vmRunning ==> shift == old(shift) + Correction(old(Clock(icount)) - now, old(lastDelta), old(shift))
      // what the vCPU itself would read is unchanged unless the rate is corrected while it has instructions uncounted
      ensures Clock(executed) == old(Clock(executed)) <==>
                icount == executed || !vmRunning ||
                Correction(old(Clock(icount)) - now, old(lastDelta), old(shift)) == 0
    {
      if !vmRunning {
        return;
      }
      var ok, cur := GetIcount(false, true);
      var delta := cur - now;
      if delta > 0 && lastDelta + ICOUNT_WOBBLE < delta * 2 && shift > 0 {
        shift := shift - 1;
      }
      if delta < 0 && lastDelta - ICOUNT_WOBBLE > delta * 2 && shift < MAX_ICOUNT_SHIFT {
        shift := shift + 1;
      }
      lastDelta := delta;
      bias := cur - Shl(icount, shift);
      AdjustMidSlice(icount, executed - icount, old(bias), old(shift), bias, shift);
    }

    /** One event of a slice. */
    method Happen(e: Event, before: seq<int>, ghost i: Ideal) returns (readings: seq<int>)
      requires Valid() && running && Follows(i, before)
      modifies this
      ensures Valid() && running && Follows(Play(i, e), readings)
      ensures executed >= old(executed) && executed + low + extra == old(executed + low + extra)
      ensures old(Clock(icount)) <= Clock(icount)
      ensures readings == before || readings == before + [Clock(icount)]
    {
      hide Shl, Correction;
      ClockGrows(bias, icount, executed, shift);
      readings := before;
      match e {
        case Exec(n) =>
          var m := if n < low then n else low;
          Execute(m);
        case Expire =>
          Refill();
        case Read(onVcpu) =>
          var ok, ns := GetIcount(onVcpu, true);
          readings := readings + [ns];
        case Tune(vmRunning, now) =>
          Adjust(vmRunning, now);
      }
    }

    /** A slice of execution, with clock readings on this and other threads and adjustments of the rate in
        between: readings never run backwards, whichever thread makes them. */
    method Slice(virtual': int, realtime: int, events: seq<Event>) returns (readings: seq<int>)
      requires Valid() && !running
      modifies this
      ensures Valid() && !running && icount == executed
      ensures old(executed) <= executed <= old(executed) + Round(Deadline(virtual', realtime), old(shift))
      ensures old(Clock(executed)) <= Clock(executed)
      ensures forall i :: 0 <= i < |readings| ==> old(Clock(executed)) <= readings[i] <= Clock(executed)
      ensures forall i, j :: 0 <= i < j < |readings| ==> readings[i] <= readings[j]
      // what the simple machine does
      ensures Now(readings) == PlaySlice(old(Now([])), virtual', realtime, events)
    {
      hide Shl, Round, Deadline, Correction, Play;
      ghost var ideal := Opened(Now([]), virtual', realtime);
      ghost var start, begin := executed, Clock(executed);
      Prepare(virtual', realtime);
      ghost var limit := start + budget;
      readings := [];
      var k := 0;
      while k < |events|
        invariant 0 <= k <= |events| && Valid() && running && start <= executed && executed + low + extra == limit
        invariant Follows(PlayAll(ideal, events[..k]), readings)
        invariant begin <= Clock(icount)
        invariant forall i :: 0 <= i < |readings| ==> begin <= readings[i] <= Clock(icount)
        invariant forall i, j :: 0 <= i < j < |readings| ==> readings[i] <= readings[j]
      {
        assert events[..k + 1][..k] == events[..k];
        readings := Happen(events[k], readings, PlayAll(ideal, events[..k]));
        k := k + 1;
      }
      assert events[..k] == events;
      ClockGrows(bias, icount, executed, shift);
      Process();
    }

    /** Slices, and adjustments of the rate in and between them: the clock never runs backwards. */
    method Session(tasks: seq<Task>) returns (readings: seq<int>)
      requires Valid() && !running && icount == executed
      modifies this
      ensures Valid() && !running && icount == executed >= old(executed)
      ensures forall i, j :: 0 <= i < j < |readings| ==> readings[i] <= readings[j]
      ensures forall i :: 0 <= i < |readings| ==> old(Clock(executed)) <= readings[i] <= Clock(executed)
      ensures old(Clock(executed)) <= Clock(executed)
      // what the simple machine does
      ensures Now(readings) == PlayTasks(old(Now([])), tasks)
    {
      hide Shl, Round, Deadline, Correction, PlaySlice;
      readings := [];
      ghost var begin := Clock(executed);
      for k := 0 to |tasks|
        invariant Valid() && !running && icount == executed >= old(executed) && begin <= Clock(executed)
        invariant Now(readings) == PlayTasks(old(Now([])), tasks[..k])
        invariant forall i :: 0 <= i < |readings| ==> begin <= readings[i] <= Clock(executed)
        invariant forall i, j :: 0 <= i < j < |readings| ==> readings[i] <= readings[j]
      {
        assert tasks[..k + 1][..k] == tasks[..k];
        match tasks[k] {
          case RunSlice(virtual', realtime, events) =>
            var more := Slice(virtual', realtime, events);
            readings := readings + more;
          case Tune(vmRunning, now) =>
            Adjust(vmRunning, now);
        }
      }
      assert tasks[..|tasks|] == tasks;
    }
  }

  datatype Task = RunSlice(virtual': int, realtime: int, events: seq<Event>) | Tune(vmRunning: bool, now: int)

  /** What can happen during a slice: execution, running out of the decrementer, a clock reading on the
      vCPU's thread or another one, an adjustment in the main loop. */
  datatype Event = Exec(n: nat) | Expire | Read(onVcpu: bool) | Tune(vmRunning: bool, now: int)

  // ---------------------------------------------------------------- a simple machine

  datatype Moment = Moment(done: nat, bias: int, shift: nat, lastDelta: int, readings: seq<int>)

  /** A machine that counts what it has done, how much of that the clock has seen, what is left of the slice and how
      much of that may be done before looking around; without budgets, decrementers and counts of counts. */
  datatype Ideal = Ideal(now: Moment, seen: nat, left: nat, window: nat)

  function Window(left: nat): nat {
    if left < 0xffff then left else 0xffff
  }

  function Time(m: Moment, seen: nat): int {
    m.bias + Shl(seen, m.shift)
  }

  /** Another rate, from the time that has been seen on. */
  function Retuned(m: Moment, seen: nat, vmRunning: bool, now: int): Moment {
    if !vmRunning then m
    else
      var delta := Time(m, seen) - now;
      var shift := m.shift + Correction(delta, m.lastDelta, m.shift);
      m.(bias := Time(m, seen) - Shl(seen, shift), shift := shift, lastDelta := delta)
  }

  function Play(i: Ideal, e: Event): Ideal {
    match e
    case Exec(n) =>
      var m := if n < i.window then n else i.window;
      if m <= i.left then Ideal(i.now.(done := i.now.done + m), i.seen, i.left - m, i.window - m) else i
    case Expire => i.(seen := i.now.done, window := Window(i.left))
    case Read(onVcpu) =>
      var seen := if onVcpu then i.now.done else i.seen;
      i.(seen := seen, now := i.now.(readings := i.now.readings + [Time(i.now, seen)]))
    case Tune(vmRunning, now) => i.(now := Retuned(i.now, i.seen, vmRunning, now))
  }

  function PlayAll(i: Ideal, events: seq<Event>): Ideal {
    if events == [] then i else Play(PlayAll(i, events[..|events| - 1]), events[|events| - 1])
  }

  function Opened(m: Moment, virtual': int, realtime: int): Ideal {
    var left := Round(Deadline(virtual', realtime), m.shift);
    Ideal(m, m.done, left, Window(left))
  }

  function PlaySlice(m: Moment, virtual': int, realtime: int, events: seq<Event>): Moment {
    PlayAll(Opened(m, virtual', realtime), events).now
  }

  function PlayTask(m: Moment, task: Task): Moment {
    match task
    case RunSlice(virtual', realtime, events) =>
      var m' := PlaySlice(m.(readings := []), virtual', realtime, events);
      m'.(readings := m.readings + m'.readings)
    case Tune(vmRunning, now) => Retuned(m, m.done, vmRunning, now)
  }

  function PlayTasks(m: Moment, tasks: seq<Task>): Moment {
    if tasks == [] then m else PlayTask(PlayTasks(m, tasks[..|tasks| - 1]), tasks[|tasks| - 1])
  }

  lemma {:induction false} PlayOn(i: Ideal, a: seq<Event>, b: seq<Event>)
    ensures PlayAll(i, a + b) == PlayAll(PlayAll(i, a), b)
    decreases |b|
  {
    if b == [] {
      assert a + b == a;
    } else {
      PlayOn(i, a, b[..|b| - 1]);
      assert (a + b)[..|a + b| - 1] == a + b[..|b| - 1];
    }
  }

  /** As long as something is left, the slice can go on: all of it can be executed, and no more. */
  lemma {:induction false} SpendsBudget(i: Ideal) returns (events: seq<Event>)
    ensures var f := PlayAll(i, events);
            f.left == 0 && f.now == i.now.(done := i.now.done + i.left)
    decreases i.left
  {
    events := [];
    if i.left > 0 {
      var round := [Expire, Exec(0xffff)];
      assert round[..1] == [Expire] && [Expire][..0] == [];
      assert PlayAll(i, [Expire]) == Play(i, Expire);
      var i1 := PlayAll(i, round);
      assert i1 == Play(Play(i, Expire), Exec(0xffff));
      var rest := SpendsBudget(i1);
      PlayOn(i, round, rest);
      events := round + rest;
    }
  }

  /** The vCPU reads the time of what it has done, others that of what has been seen. */
  lemma ReadsTheTime(i: Ideal, onVcpu: bool)
    ensures var f := Play(i, Read(onVcpu));
            && f.now == i.now.(readings := f.now.readings)
            && (onVcpu ==> f.seen == i.now.done) && (!onVcpu ==> f.seen == i.seen)
            && f.now.readings == i.now.readings + [i.now.bias + Shl(f.seen, i.now.shift)]
  {}

  lemma ClockGrows(bias: int, a: nat, b: nat, shift: nat)
    requires a <= b
    ensures bias + Shl(a, shift) <= bias + Shl(b, shift)
  {
    if a < b {
      ShlMonotone(a, b, shift);
    }
  }

  /** Slower when too far ahead and drifting, faster when too far behind. */
  function Correction(delta: int, lastDelta: int, shift: nat): (c: int)
    ensures -1 <= c <= 1 && (delta > 0 ==> c <= 0) && (delta < 0 ==> c >= 0) && (delta == 0 ==> c == 0)
    ensures delta > 0 ==> (c != 0 <==> 2 * delta > lastDelta + ICOUNT_WOBBLE && shift > 0)
    ensures delta < 0 ==> (c != 0 <==> 2 * -delta > ICOUNT_WOBBLE - lastDelta && shift < MAX_ICOUNT_SHIFT)
  {
    if delta > 0 && lastDelta + ICOUNT_WOBBLE < delta * 2 && shift > 0 then -1
    else if delta < 0 && lastDelta - ICOUNT_WOBBLE > delta * 2 && shift < MAX_ICOUNT_SHIFT then 1
    else 0
  }

  /** Rebasing the clock at `icount` for another rate moves it for `unseen` further instructions. */
  lemma AdjustMidSlice(icount: nat, unseen: nat, bias: int, shift: nat, bias': int, shift': nat)
    requires bias + Shl(icount, shift) == bias' + Shl(icount, shift')
    ensures bias + Shl(icount + unseen, shift) == bias' + Shl(icount + unseen, shift') <==>
            unseen == 0 || shift == shift'
  {
    hide Shl;
    ShlLinear(icount, unseen, shift);
    ShlLinear(icount, unseen, shift');
    if unseen == 0 {
      ShlZero(shift);
      ShlZero(shift');
    } else if shift < shift' {
      ShiftGrows(unseen, shift, shift');
    } else if shift' < shift {
      ShiftGrows(unseen, shift', shift);
    }
  }

  /** A vCPU one instruction ahead of the count, when the guest is a second ahead of the host: the rate
      is halved, the counted time 1_000_000_000 stays, and what the vCPU would read goes back. */
  lemma ReadingJumps()
    ensures var icount, bias, shift := 500_000_000, 0, 1;
            var shift' := shift + Correction(bias + Shl(icount, shift) - 0, 0, shift);
            var bias' := bias + Shl(icount, shift) - Shl(icount, shift');
            bias' + Shl(icount + 1, shift') == bias + Shl(icount + 1, shift) - 1
  {
    assert Shl(500_000_000, 1) == Shl(1_000_000_000, 0) && Shl(500_000_001, 1) == Shl(1_000_000_002, 0);
  }

  lemma ShiftGrows(x: nat, a: nat, b: nat)
    requires x > 0 && a < b
    ensures Shl(x, a) < Shl(x, b)
  {
    ShlAdd(x, a, b - a);
    ShlDoubles(Shl(x, a), b - a);
    ShlMonotone(0, x, a);
  }

  lemma ShlDoubles(y: nat, n: nat)
    requires n > 0
    ensures 2 * y <= Shl(y, n)
  {
    ShlGrows(2 * y, n - 1);
  }
}
