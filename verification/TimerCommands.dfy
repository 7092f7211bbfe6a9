/** What callbacks ask of the timing wheel, and what a stretch of its run must have
    done for it: nothing is started or stopped that no callback asked for, and all
    they asked for is done. */
module TimerCommands {
  import opened Arithmetic
  import opened Timestamps
  import opened WheelArithmetic
  import opened TimerLedger
  import opened WheelBuckets
  import opened WheelState
  import opened WheelDrain

  type TickMs = n: int | 1 <= n <= 2147 witness 10   // the tick in nanoseconds fits an int

  type Millis = n: int | 0 <= n < 0x8000_0000

  datatype Command = Start(now: Timestamp, expireMs: Millis, callTimes: int) | Stop(id: int)

  /** A period without delay needs a limit: by WheelDrain.DrainEnds without one the
      drain it comes up in does not end. */
  predicate Bearable(c: Command) {
    c.Start? ==> 1 <= c.expireMs || 0 <= c.callTimes
  }

  /** One more than the calls a start without delay asks for; none for other starts. */
  function Cost(expireMs: int, callTimes: int): nat {
    if expireMs <= 0 then 1 + Allowed(callTimes) else 0
  }

  function CostOf(c: Command): nat {
    if c.Start? then Cost(c.expireMs, c.callTimes) else 0
  }

  function Costs(commands: seq<Command>): nat {
    if commands == [] then 0 else Costs(commands[..|commands| - 1]) + CostOf(commands[|commands| - 1])
  }

  /** From one call to the next in the same tick, what callbacks start without delay
      is taken off a quota. */
  ghost predicate Frugal(r: seq<Firing> -> seq<Command>, quota: seq<Firing> -> nat) {
    forall fired {:trigger FrugalAt(r, quota, fired)} :: FrugalAt(r, quota, fired)
  }

  ghost predicate FrugalAt(r: seq<Firing> -> seq<Command>, quota: seq<Firing> -> nat, fired: seq<Firing>) {
    var n := |fired|;
    2 <= n && fired[n - 2].tick == fired[n - 1].tick ==> Costs(r(fired)) + quota(fired) <= quota(fired[..n - 1])
  }

  /** What callbacks may do: any starts and stops, but not start timers without delay
      for ever in one tick. */
  ghost predicate Restrained(r: seq<Firing> -> seq<Command>) {
    && (forall fired, c :: c in r(fired) ==> Bearable(c))
    && exists quota: seq<Firing> -> nat :: Frugal(r, quota)
  }

  /** The callbacks: what they do, given all calls so far. */
  type Reaction = r: seq<Firing> -> seq<Command> | Restrained(r) witness (Patient(_ => []); _ => [])

  /** Callbacks that only start timers with a delay are restrained. */
  lemma Patient(r: seq<Firing> -> seq<Command>)
    requires forall fired, c :: c in r(fired) && c.Start? ==> 1 <= c.expireMs
    ensures Restrained(r)
  {
    var none: seq<Firing> -> nat := _ => 0;
    forall fired ensures FrugalAt(r, none, fired) {
      NoCosts(r(fired));
    }
    assert Frugal(r, none);
  }

  lemma {:induction false} NoCosts(commands: seq<Command>)
    requires forall c :: c in commands && c.Start? ==> 1 <= c.expireMs
    ensures Costs(commands) == 0
  {
    if commands != [] {
      NoCosts(commands[..|commands| - 1]);
      assert commands[|commands| - 1] in commands;
    }
  }

  /** A callback that starts its timer anew without delay, every time it is called, is
      not: the tick of its first call would not end. */
  lemma EndlessRestart(r: seq<Firing> -> seq<Command>, now: Timestamp)
    requires forall fired :: fired != [] ==> r(fired) == [Start(now, 0, 1)]
    ensures !Restrained(r)
  {
    forall quota: seq<Firing> -> nat ensures !Frugal(r, quota) {
      if Frugal(r, quota) {
        var x := Firing(1, 1, now);
        QuotaRunsOut(r, quota, now, x, quota([x]) + 1);
      }
    }
  }

  lemma {:induction false} QuotaRunsOut(r: seq<Firing> -> seq<Command>, quota: seq<Firing> -> nat, now: Timestamp, x: Firing, n: nat)
    requires forall fired :: fired != [] ==> r(fired) == [Start(now, 0, 1)]
    requires Frugal(r, quota)
    ensures quota(seq(1 + n, _ => x)) + n <= quota([x])
  {
    var calls := seq(1 + n, _ => x);
    if n == 0 {
      assert calls == [x];
    } else {
      QuotaRunsOut(r, quota, now, x, n - 1);
      assert calls[..n] == seq(n, _ => x);
      assert FrugalAt(r, quota, calls);
      assert [Start(now, 0, 1)][..0] == [];
    }
  }

  /** A delay the code counts in ticks: of an int, and above minus one tick, where the
      division still gives none. */
  predicate Countable(expireMs: int, tickMs: TickMs) {
    0 < expireMs + tickMs && expireMs < 0x8000_0000
  }

  /** Milliseconds to ticks, rounded up. */
  function TicksFor(expireMs: int, tickMs: TickMs): (ticks: nat)
    requires Countable(expireMs, tickMs)
    ensures ticks < Step(WHEEL_NUM)
    ensures if expireMs <= 0 then ticks == 0 else ticks <= expireMs <= ticks * tickMs < expireMs + tickMs
  {
    StepValues();
    TicksAreFew(expireMs, tickMs);
    RoundUp(expireMs, tickMs)
  }

  function RoundUp(expireMs: int, tickMs: TickMs): int {
    TruncDiv(expireMs, tickMs) + if 0 < TruncMod(expireMs, tickMs) then 1 else 0
  }

  lemma TicksAreFew(expireMs: int, tickMs: TickMs)
    requires Countable(expireMs, tickMs)
    ensures var ticks := RoundUp(expireMs, tickMs);
      if expireMs <= 0 then ticks == 0 else ticks <= expireMs <= ticks * tickMs < expireMs + tickMs
  {
    if 0 < expireMs {
      RoundedUp(expireMs, tickMs);
    } else {
      NoTicks(expireMs, tickMs);
    }
  }

  lemma NoTicks(e: int, d: nat)
    requires 0 < d && e <= 0 < e + d
    ensures TruncDiv(e, d) == 0 && TruncMod(e, d) == e
  {
    Quotient(-e, d, 0, -e);
    assert TruncDiv(e, d) == 0 by { Quotient(0, d, 0, 0); }
  }

  lemma RoundedUp(n: nat, d: nat)
    requires 1 <= d
    ensures var q := n / d + if 0 < n - n / d * d then 1 else 0;
      q <= n <= q * d && (0 < n ==> q * d < n + d)
  {
    DivMod(n, d);
    Distribute(n / d, 1, d);
    assert n / d <= n / d * d by { if 1 <= n / d { MulMonotone(1, d, n / d); } }
  }

  // ----- starting a timer -----

  function Newborn(s: Snapshot, now: Timestamp, expireMs: int, callTimes: int, tickMs: TickMs): Timer
    requires |s.book.served| == WHEEL_NUM && Countable(expireMs, tickMs)
  {
    var ticks := TicksFor(expireMs, tickMs);
    Placed(Timer(s.lastId + 1, now.Plus(expireMs), ticks, callTimes, 0, 0, 0), s.book.served, ticks)
  }

  /** A start at a time not behind the ticks issued. */
  predicate Prompt(now: Timestamp, expireMs: int, tick: nat, clock: Clock) {
    1 <= expireMs && now.Normal() && tick * clock.tickNs <= now.Nanos() - clock.t0
  }

  /** How a timer started in state s is entered in the book. */
  function BirthOf(s: Snapshot, now: Timestamp, expireMs: int, callTimes: int, level: nat, tickMs: TickMs): Birth
    requires Countable(expireMs, tickMs)
  {
    var ticks := TicksFor(expireMs, tickMs);
    Birth(NextDue(s.tick, level, ticks), now.Plus(expireMs), ticks, callTimes, Prompt(now, expireMs, s.tick, s.clock))
  }

  function NewbornState(s: Snapshot, now: Timestamp, expireMs: int, callTimes: int, level: nat, tickMs: TickMs): Snapshot
    requires Shape(s.wheels) && |s.book.served| == WHEEL_NUM && Countable(expireMs, tickMs)
  {
    StartedState(s, Newborn(s, now, expireMs, callTimes, tickMs), BirthOf(s, now, expireMs, callTimes, level, tickMs))
  }

  lemma NewbornKeeps(s: Snapshot, now: Timestamp, expireMs: int, callTimes: int,
                     level: nat, dw: int, db: int, tickMs: TickMs)
    requires Consistent(s, level, dw, db, NO_TIMER) && s.clock.tickNs == tickMs * NANOS_PER_MILLI
    requires Countable(expireMs, tickMs)
    requires (1 <= expireMs || 0 <= callTimes) && (0 <= dw || level == WHEEL_NUM)
    ensures s.lastId + 1 !in s.timers && s.lastId + 1 !in s.book.birth
    ensures var s' := NewbornState(s, now, expireMs, callTimes, level, tickMs);
      Consistent(s', level, dw, db, NO_TIMER) && Proceeds(s, s') && Grows(s, s', dw, db, Cost(expireMs, callTimes))
  {
    var ticks := TicksFor(expireMs, tickMs);
    var newborn := Timer(s.lastId + 1, now.Plus(expireMs), ticks, callTimes, 0, 0, 0);
    BornPending(s, newborn, now, expireMs, callTimes, level, dw, db, tickMs);
    StartKeeps(s, Newborn(s, now, expireMs, callTimes, tickMs), BirthOf(s, now, expireMs, callTimes, level, tickMs), level, dw, db);
    assert s.timers.Keys <= s.book.birth.Keys;
    StartGrows(s, Newborn(s, now, expireMs, callTimes, tickMs), BirthOf(s, now, expireMs, callTimes, level, tickMs), dw, db);
  }

  lemma BornPending(s: Snapshot, newborn: Timer, now: Timestamp, expireMs: int, callTimes: int,
                    level: nat, dw: int, db: int, tickMs: TickMs)
    requires Consistent(s, level, dw, db, NO_TIMER) && s.clock.tickNs == tickMs * NANOS_PER_MILLI
    requires Countable(expireMs, tickMs)
    requires (1 <= expireMs || 0 <= callTimes) && (0 <= dw || level == WHEEL_NUM)
    requires newborn == Timer(newborn.id, now.Plus(expireMs), TicksFor(expireMs, tickMs), callTimes, 0, 0, 0)
    ensures var t := Placed(newborn, s.book.served, newborn.expireTickCounts);
      var birth := BirthOf(s, now, expireMs, callTimes, level, tickMs);
      && PendingOk(t, birth.due, t.id, birth, [], s.clock)
      && DueOk(t, birth.due, s.book.served, s.tick, dw, db)
      && (t.wheel == dw && t.bucket == db ==> expireMs <= 0)
  {
    BornPlaced(s, newborn, level, dw, db);
    BornInTime(Placed(newborn, s.book.served, newborn.expireTickCounts), s.tick, s.clock, now, expireMs, callTimes, level, tickMs,
               BirthOf(s, now, expireMs, callTimes, level, tickMs));
  }

  lemma BornInTime(t: Timer, tick: nat, clock: Clock, now: Timestamp, expireMs: int, callTimes: int, level: nat, tickMs: TickMs, birth: Birth)
    requires clock.tickNs == tickMs * NANOS_PER_MILLI
    requires Countable(expireMs, tickMs) && (1 <= expireMs || 0 <= callTimes)
    requires t.expireTickCounts == 0 ==> t.wheel == 0 && t.undoTickCounts == 0
    requires InPlace(t) && Settled(t) && Early(tick, level, WheelFor(TicksFor(expireMs, tickMs))) <= tick
    requires t == Timer(t.id, now.Plus(expireMs), TicksFor(expireMs, tickMs), callTimes, t.undoTickCounts, t.wheel, t.bucket)
    requires birth == Birth(NextDue(tick, level, t.expireTickCounts), now.Plus(expireMs), t.expireTickCounts, callTimes,
                            Prompt(now, expireMs, tick, clock))
    ensures PendingOk(t, birth.due, t.id, birth, [], clock)
  {
    PlusAddsNanos(now, expireMs);
    if birth.prompt {
      StartsInTime(tick, Early(tick, level, WheelFor(t.expireTickCounts)), t.expireTickCounts, expireMs, now, tickMs, clock);
    }
  }

  lemma BornPlaced(s: Snapshot, newborn: Timer, level: nat, dw: int, db: int)
    requires Consistent(s, level, dw, db, NO_TIMER) && newborn.expireTickCounts < Step(WHEEL_NUM)
    requires 0 <= dw || level == WHEEL_NUM
    ensures var ticks := newborn.expireTickCounts; var t := Placed(newborn, s.book.served, ticks);
      && InPlace(t) && Settled(t) && (t.wheel == dw && t.bucket == db <==> ticks == 0 && dw == 0)
      && DueOk(t, NextDue(s.tick, level, ticks), s.book.served, s.tick, dw, db)
      && Early(s.tick, level, WheelFor(ticks)) <= s.tick
      && (ticks == 0 ==> t.wheel == 0 && t.undoTickCounts == 0)
  {
    NoDelay(s.book.served);
    PlacedIsDue(s, newborn, level, dw, db, newborn.expireTickCounts);
    PlacementSettles(Placed(newborn, s.book.served, newborn.expireTickCounts));
  }

  lemma DelayCovers(ticks: nat, expireMs: nat, tickMs: TickMs)
    requires 1 <= expireMs && Countable(expireMs, tickMs) && ticks == TicksFor(expireMs, tickMs)
    ensures 1 <= ticks && (ticks - 1) * (tickMs * NANOS_PER_MILLI) < expireMs * NANOS_PER_MILLI
  {
    assert 1 <= ticks;
    assert (ticks - 1) * tickMs < expireMs by { Distribute(ticks, -1, tickMs); }
    assert (ticks - 1) * (tickMs * NANOS_PER_MILLI) == (ticks - 1) * tickMs * NANOS_PER_MILLI;
  }

  /** Rounding the delay up to ticks never misses the first tick after the expire time. */
  lemma StartsInTime(T: nat, early: nat, ticks: nat, expireMs: nat, now: Timestamp, tickMs: TickMs, clock: Clock)
    requires clock.tickNs == tickMs * NANOS_PER_MILLI && early <= T && 1 <= expireMs
    requires Countable(expireMs, tickMs) && ticks == TicksFor(expireMs, tickMs)
    requires T * clock.tickNs <= now.Nanos() - clock.t0
    ensures 1 <= ticks && InTime(T + ticks - early, now.Plus(expireMs), clock)
  {
    PlusAddsNanos(now, expireMs);
    DelayCovers(ticks, expireMs, tickMs);
    MulMonotone(T + ticks - early - 1, T + ticks - 1, clock.tickNs);
    Distribute(T, ticks - 1, clock.tickNs);
  }

  /** The ticks in which a timer started in a call in tick T can be due: after its
      delay, or one step earlier of a wheel that moves in tick T, if the delay is not
      below that step.  Without delay it is due in the same tick, or a turn of the first
      wheel later. */
  ghost predicate DueFrom(T: nat, ticks: nat, due: nat)
    requires ticks < Step(WHEEL_NUM)
  {
    if ticks == 0 then due == T || due == T + BucketNum(0)
    else due == T + ticks || exists w :: 1 <= w <= WheelFor(ticks) && T % Step(w) == 0 && due == T + ticks - Step(w)
  }

  lemma BornDue(T: nat, level: nat, ticks: nat)
    requires ticks < Step(WHEEL_NUM) && 1 <= level && Early(T, level, WheelFor(ticks)) <= T
    ensures DueFrom(T, ticks, NextDue(T, level, ticks))
  {
    if level <= WheelFor(ticks) {
      StepGrows(level, WheelFor(ticks));
      assert CarryPending(T, level) ==> T % Step(level) == 0;
    }
  }

  // ----- the commands of a stretch of the run -----

  /** A command, the tick of the call it came from, and how many calls there were up
      to that one. */
  datatype Order = Order(command: Command, tick: nat, calls: nat)

  function Tagged(commands: seq<Command>, tick: nat, calls: nat): seq<Order> {
    seq(|commands|, i requires 0 <= i < |commands| => Order(commands[i], tick, calls))
  }

  /** All commands of the calls from index `from` on. */
  function Orders(react: Reaction, fired: seq<Firing>, from: nat): seq<Order>
    decreases |fired|
  {
    if |fired| <= from then []
    else Orders(react, fired[..|fired| - 1], from) + Tagged(react(fired), fired[|fired| - 1].tick, |fired|)
  }

  function Starts(orders: seq<Order>): seq<Order> {
    if orders == [] then []
    else Starts(orders[..|orders| - 1]) + if orders[|orders| - 1].command.Start? then [orders[|orders| - 1]] else []
  }

  ghost predicate Stops(orders: seq<Order>, id: int) {
    exists i :: 0 <= i < |orders| && orders[i].command == Stop(id)
  }

  /** A timer is as its start asked. */
  ghost predicate BornOf(order: Order, birth: Birth, clock: Clock, tickMs: TickMs)
    requires order.command.Start?
  {
    var Start(now, expireMs, callTimes) := order.command;
    && birth.expire == now.Plus(expireMs) && birth.ticks == TicksFor(expireMs, tickMs) && birth.times == callTimes
    && birth.prompt == Prompt(now, expireMs, order.tick, clock)
    && DueFrom(order.tick, birth.ticks, birth.due)
  }

  lemma {:induction false} StartsAreStarts(orders: seq<Order>, n: nat)
    requires n < |Starts(orders)|
    ensures Starts(orders)[n].command.Start?
  {
    if n < |Starts(orders[..|orders| - 1])| {
      StartsAreStarts(orders[..|orders| - 1], n);
    }
  }

  lemma {:induction false} StartsConcat(a: seq<Order>, b: seq<Order>)
    ensures Starts(a + b) == Starts(a) + Starts(b)
    decreases |b|
  {
    if b == [] {
      assert a + b == a;
    } else {
      assert (a + b)[..|a + b| - 1] == a + b[..|b| - 1];
      StartsConcat(a, b[..|b| - 1]);
    }
  }

  /** From s to s' the orders, and nothing else, were carried out.  The n-th start gave
      the n-th new id, and no other ids are new.  A stop, of a timer there before or
      started by an order before it, left that timer out for good: from that moment
      it is called no more.  Whatever is newly stopped was stopped by such an order,
      at that moment.  Only timers that were there, or are new, are left or were called. */
  ghost predicate Ran(orders: seq<Order>, s: Snapshot, s': Snapshot, tickMs: TickMs) {
    && s.fired <= s'.fired && s'.clock == s.clock.(steady := s'.clock.steady)
    && s'.lastId == s.lastId + |Starts(orders)|
    && (forall id :: id in s.book.birth ==> id in s'.book.birth && s'.book.birth[id] == s.book.birth[id])
    && (forall id :: id in s'.book.birth && id !in s.book.birth ==> s.lastId < id <= s'.lastId)
    && (forall n :: 0 <= n < |Starts(orders)| ==> BornAs(orders, n, s, s', tickMs))
    && (forall id :: id in s.book.cancelled ==> id in s'.book.cancelled && s'.book.cancelled[id] == s.book.cancelled[id])
    && (forall id :: id in s'.book.cancelled && id !in s.book.cancelled ==> StoppedBy(orders, s.lastId, id, s'.book.cancelled[id]))
    && (forall i {:trigger Meets(orders, s.lastId, i)} :: 0 <= i < |orders| && Meets(orders, s.lastId, i) ==> Silenced(orders[i], s'))
    && (forall id :: id in s'.timers ==> id in s.timers || s.lastId < id)
    && (forall k :: |s.fired| <= k < |s'.fired| ==> s'.fired[k].id in s.timers || s.lastId < s'.fired[k].id)
  }

  function StartsBefore(orders: seq<Order>, i: nat): nat
    requires i <= |orders|
  {
    if i == 0 then 0 else StartsBefore(orders, i - 1) + if orders[i - 1].command.Start? then 1 else 0
  }

  /** The i-th order is to stop a timer, and comes after its start: new ids go by the
      starts before. */
  predicate Meets(orders: seq<Order>, lastId: int, i: nat)
    requires i < |orders|
  {
    orders[i].command.Stop? && orders[i].command.id <= lastId + StartsBefore(orders, i)
  }

  ghost predicate StoppedBy(orders: seq<Order>, lastId: int, id: int, calls: nat) {
    exists i {:trigger Meets(orders, lastId, i)} :: 0 <= i < |orders| && Meets(orders, lastId, i) && orders[i].command.id == id && orders[i].calls == calls
  }

  /** The timer is gone, and was not called since the order. */
  ghost predicate Silenced(order: Order, s: Snapshot)
    requires order.command.Stop?
  {
    && order.command.id !in s.timers
    && forall k :: order.calls <= k < |s.fired| ==> s.fired[k].id != order.command.id
  }

  ghost predicate BornAs(orders: seq<Order>, n: nat, s: Snapshot, s': Snapshot, tickMs: TickMs)
    requires n < |Starts(orders)|
  {
    StartsAreStarts(orders, n);
    s.lastId + 1 + n in s'.book.birth && BornOf(Starts(orders)[n], s'.book.birth[s.lastId + 1 + n], s.clock, tickMs)
  }

  lemma RanOn(a: seq<Order>, b: seq<Order>, s: Snapshot, s': Snapshot, s'': Snapshot, tickMs: TickMs)
    requires Ran(a, s, s', tickMs) && Ran(b, s', s'', tickMs)
    ensures Ran(a + b, s, s'', tickMs)
  {
    StartsConcat(a, b);
    forall n | 0 <= n < |Starts(a + b)| ensures BornAs(a + b, n, s, s'', tickMs) {
      StartsAreStarts(a + b, n);
      if n < |Starts(a)| {
        assert BornAs(a, n, s, s', tickMs);
      } else {
        assert BornAs(b, n - |Starts(a)|, s', s'', tickMs);
      }
    }
    forall id | id in s''.book.cancelled && id !in s.book.cancelled
      ensures StoppedBy(a + b, s.lastId, id, s''.book.cancelled[id])
    {
      StoppedByConcat(a, b, s.lastId, id, s''.book.cancelled[id]);
    }
    forall i | 0 <= i < |a + b| && Meets(a + b, s.lastId, i) ensures Silenced((a + b)[i], s'') {
      SilenceOn(a, b, s, s', s'', tickMs, i);
    }
  }

  /** What is met by the first or the second orders is met by both. */
  lemma MeetsConcat(a: seq<Order>, b: seq<Order>, lastId: int, i: nat)
    requires i < |a + b|
    ensures Meets(a + b, lastId, i) <==>
      if i < |a| then Meets(a, lastId, i) else Meets(b, lastId + |Starts(a)|, i - |a|)
  {
    if i < |a| {
      StartsInFront(a, b, i);
    } else {
      StartsBehind(a, b, i - |a|);
    }
  }

  lemma {:induction false} StartsInFront(a: seq<Order>, b: seq<Order>, i: nat)
    requires i <= |a|
    ensures StartsBefore(a + b, i) == StartsBefore(a, i)
  {
    if i != 0 {
      StartsInFront(a, b, i - 1);
    }
  }

  lemma {:induction false} StartsBehind(a: seq<Order>, b: seq<Order>, i: nat)
    requires i <= |b|
    ensures StartsBefore(a + b, |a| + i) == |Starts(a)| + StartsBefore(b, i)
  {
    if i == 0 {
      StartsInFront(a, b, |a|);
      AllStarts(a);
    } else {
      StartsBehind(a, b, i - 1);
      assert (a + b)[|a| + i - 1] == b[i - 1];
    }
  }

  lemma {:induction false} AllStarts(orders: seq<Order>)
    ensures StartsBefore(orders, |orders|) == |Starts(orders)|
  {
    if orders != [] {
      var before, last := orders[..|orders| - 1], [orders[|orders| - 1]];
      AllStarts(before);
      StartsInFront(before, last, |before|);
      assert before + last == orders;
    }
  }

  lemma StoppedIsOrdered(orders: seq<Order>, lastId: int, id: int, calls: nat)
    requires StoppedBy(orders, lastId, id, calls)
    ensures Stops(orders, id)
  {
    var i :| 0 <= i < |orders| && Meets(orders, lastId, i) && orders[i].command.id == id && orders[i].calls == calls;
    assert orders[i].command == Stop(id);
  }

  lemma StoppedByConcat(a: seq<Order>, b: seq<Order>, lastId: int, id: int, calls: nat)
    requires StoppedBy(a, lastId, id, calls) || StoppedBy(b, lastId + |Starts(a)|, id, calls)
    ensures StoppedBy(a + b, lastId, id, calls)
  {
    if StoppedBy(a, lastId, id, calls) {
      var i :| 0 <= i < |a| && Meets(a, lastId, i) && a[i].command.id == id && a[i].calls == calls;
      MeetsConcat(a, b, lastId, i);
    } else {
      var i :| 0 <= i < |b| && Meets(b, lastId + |Starts(a)|, i) && b[i].command.id == id && b[i].calls == calls;
      MeetsConcat(a, b, lastId, |a| + i);
      assert (a + b)[|a| + i] == b[i];
    }
  }

  lemma {:induction false} StartsUpTo(orders: seq<Order>, i: nat)
    requires i <= |orders|
    ensures StartsBefore(orders, i) <= |Starts(orders)|
    decreases |orders| - i
  {
    if i == |orders| {
      AllStarts(orders);
    } else {
      StartsUpTo(orders, i + 1);
    }
  }

  lemma SilenceOn(a: seq<Order>, b: seq<Order>, s: Snapshot, s': Snapshot, s'': Snapshot, tickMs: TickMs, i: nat)
    requires Ran(a, s, s', tickMs) && Ran(b, s', s'', tickMs)
    requires i < |a + b| && Meets(a + b, s.lastId, i)
    ensures Silenced((a + b)[i], s'')
  {
    var id := (a + b)[i].command.id;
    MeetsConcat(a, b, s.lastId, i);
    if i < |a| {
      assert Meets(a, s.lastId, i) && Silenced(a[i], s');
      StartsUpTo(a, i);
      assert id <= s'.lastId;
    } else {
      assert Meets(b, s'.lastId, i - |a|);
      assert Silenced(b[i - |a|], s'');
    }
  }

  lemma StopsConcat(a: seq<Order>, b: seq<Order>, id: int)
    ensures Stops(a + b, id) <==> Stops(a, id) || Stops(b, id)
  {
    if Stops(a, id) {
      var i :| 0 <= i < |a| && a[i].command == Stop(id);
      assert (a + b)[i].command == Stop(id);
    }
    if Stops(b, id) {
      var i :| 0 <= i < |b| && b[i].command == Stop(id);
      assert (a + b)[|a| + i].command == Stop(id);
    }
  }

  /** No timer comes, those that go were not stopped, and those called were there: a
      call, a hop, a put-off. */
  lemma RanNothing(s: Snapshot, s': Snapshot, tickMs: TickMs)
    requires s.fired <= s'.fired && s'.clock == s.clock.(steady := s'.clock.steady) && s'.lastId == s.lastId
    requires s'.book.birth == s.book.birth && s'.book.cancelled == s.book.cancelled
    requires s'.timers.Keys <= s.timers.Keys
    requires forall k :: |s.fired| <= k < |s'.fired| ==> s'.fired[k].id in s.timers
    ensures Ran([], s, s', tickMs)
  {}

  lemma OneStart(order: Order)
    requires order.command.Start?
    ensures Starts([order]) == [order]
  {
    assert [order][..0] == [];
  }

  lemma RanStart(s: Snapshot, tickMs: TickMs, c: Command, level: nat)
    requires c.Start? && Shape(s.wheels) && |s.book.served| == WHEEL_NUM && Countable(c.expireMs, tickMs)
    requires History(s.timers, s.lastId, s.fired, s.book, s.clock)
    requires 1 <= level && Early(s.tick, level, WheelFor(TicksFor(c.expireMs, tickMs))) <= s.tick
    ensures Ran([Order(c, s.tick, |s.fired|)], s, NewbornState(s, c.now, c.expireMs, c.callTimes, level, tickMs), tickMs)
  {
    OneStart(Order(c, s.tick, |s.fired|));
    BornAsAsked(s, tickMs, c, level);
  }

  lemma BornAsAsked(s: Snapshot, tickMs: TickMs, c: Command, level: nat)
    requires c.Start? && Shape(s.wheels) && |s.book.served| == WHEEL_NUM && Countable(c.expireMs, tickMs)
    requires 1 <= level && Early(s.tick, level, WheelFor(TicksFor(c.expireMs, tickMs))) <= s.tick
    ensures var order := Order(c, s.tick, |s.fired|);
      Starts([order]) == [order] && BornAs([order], 0, s, NewbornState(s, c.now, c.expireMs, c.callTimes, level, tickMs), tickMs)
  {
    OneStart(Order(c, s.tick, |s.fired|));
    BornDue(s.tick, level, TicksFor(c.expireMs, tickMs));
  }

  lemma RanStop(s: Snapshot, tickMs: TickMs, id: int)
    requires id in s.timers ==> Shape(s.wheels) && ValidSlot(s.timers[id].wheel, s.timers[id].bucket)
    requires History(s.timers, s.lastId, s.fired, s.book, s.clock)
    ensures Ran([Order(Stop(id), s.tick, |s.fired|)], s, if id in s.timers then CancelledState(s, id) else s, tickMs)
  {
    var orders := [Order(Stop(id), s.tick, |s.fired|)];
    assert orders[..0] == [];
    assert Starts(orders) == [];
    assert orders[0].command == Stop(id);
    if id in s.timers {
      assert EntryOk(id, s.timers, s.fired, s.book, s.clock);
      assert Meets(orders, s.lastId, 0);
    }
  }

  /** All that happened from s to s' is the doing of the calls in between. */
  ghost predicate Obeys(react: Reaction, s: Snapshot, s': Snapshot, tickMs: TickMs) {
    s.fired <= s'.fired && Ran(Orders(react, s'.fired, |s.fired|), s, s', tickMs)
  }

  /** From s to s' the commands were carried out, in the tick of s. */
  ghost predicate CarriedOut(commands: seq<Command>, s: Snapshot, s': Snapshot, dw: int, db: int, tickMs: TickMs) {
    && Proceeds(s, s') && Grows(s, s', dw, db, Costs(commands))
    && Ran(Tagged(commands, s.tick, |s.fired|), s, s', tickMs)
  }

  lemma StaysOnCourse(s: Snapshot, s': Snapshot, start: TickStart, now: Timestamp)
    requires Proceeds(s, s') && s'.fired == s.fired && OnCourse(start, s.fired, s.book, s.tick, s.clock, now)
    ensures OnCourse(start, s'.fired, s'.book, s'.tick, s'.clock, now)
  {}

  lemma NothingYet(s: Snapshot, dw: int, db: int, tickMs: TickMs)
    requires Shape(s.wheels)
    ensures CarriedOut([], s, s, dw, db, tickMs)
  {
    RanNothing(s, s, tickMs);
    assert Tagged([], s.tick, |s.fired|) == [];
  }

  lemma OneCost(c: Command)
    ensures Costs([c]) == CostOf(c)
  {
    assert [c][..0] == [];
  }

  lemma OneTag(c: Command, tick: nat, calls: nat)
    ensures Tagged([c], tick, calls) == [Order(c, tick, calls)]
  {}

  lemma OneMore(commands: seq<Command>, i: nat, s: Snapshot, s': Snapshot, s'': Snapshot, dw: int, db: int, tickMs: TickMs)
    requires i < |commands| && s'.fired == s.fired
    requires CarriedOut(commands[..i], s, s', dw, db, tickMs) && CarriedOut([commands[i]], s', s'', dw, db, tickMs)
    ensures CarriedOut(commands[..i + 1], s, s'', dw, db, tickMs)
  {
    var n := |s.fired|;
    GrowsOn(s, s', s'', dw, db, Costs(commands[..i]), Costs([commands[i]]));
    OneCost(commands[i]);
    assert commands[..i + 1][..i] == commands[..i];
    RanOn(Tagged(commands[..i], s.tick, n), Tagged([commands[i]], s.tick, n), s, s', s'', tickMs);
    assert Tagged(commands[..i + 1], s.tick, n) == Tagged(commands[..i], s.tick, n) + Tagged([commands[i]], s.tick, n);
  }

  lemma {:induction false} OrdersConcat(react: Reaction, a: seq<Firing>, b: seq<Firing>, from: nat)
    requires from <= |a| && a <= b
    ensures Orders(react, b, from) == Orders(react, a, from) + Orders(react, b, |a|)
    decreases |b|
  {
    if |a| < |b| {
      OrdersConcat(react, a, b[..|b| - 1], from);
      OrderAssoc(Orders(react, a, from), Orders(react, b[..|b| - 1], |a|), Tagged(react(b), b[|b| - 1].tick, |b|));
    } else {
      assert a == b;
      assert Orders(react, a, from) + [] == Orders(react, a, from);
    }
  }

  lemma OrderAssoc(a: seq<Order>, b: seq<Order>, c: seq<Order>)
    ensures a + b + c == a + (b + c)
  {}

  lemma ObeysOn(react: Reaction, s: Snapshot, s': Snapshot, s'': Snapshot, tickMs: TickMs)
    requires Obeys(react, s, s', tickMs) && Obeys(react, s', s'', tickMs)
    ensures Obeys(react, s, s'', tickMs)
  {
    OrdersConcat(react, s'.fired, s''.fired, |s.fired|);
    RanOn(Orders(react, s'.fired, |s.fired|), Orders(react, s''.fired, |s'.fired|), s, s', s'', tickMs);
  }

  lemma ObeysNothing(react: Reaction, s: Snapshot, s': Snapshot, tickMs: TickMs)
    requires s'.fired == s.fired && s'.clock == s.clock.(steady := s'.clock.steady) && s'.lastId == s.lastId
    requires s'.book.birth == s.book.birth && s'.book.cancelled == s.book.cancelled
    requires s'.timers.Keys <= s.timers.Keys
    ensures Obeys(react, s, s', tickMs)
  {
    RanNothing(s, s', tickMs);
  }

  lemma ObeysSo(react: Reaction, s: Snapshot, s': Snapshot, s'': Snapshot, tickMs: TickMs)
    requires Obeys(react, s, s', tickMs)
    requires s''.fired == s'.fired && s''.clock == s'.clock.(steady := s''.clock.steady) && s''.lastId == s'.lastId
    requires s''.book.birth == s'.book.birth && s''.book.cancelled == s'.book.cancelled
    requires s''.timers.Keys <= s'.timers.Keys
    ensures Obeys(react, s, s'', tickMs)
  {
    ObeysNothing(react, s', s'', tickMs);
    ObeysOn(react, s, s', s'', tickMs);
  }

  /** A call: the timer is re-armed or dropped, then its callback runs. */
  lemma CallObeys(react: Reaction, s: Snapshot, mid: Snapshot, s': Snapshot, tickMs: TickMs)
    requires |mid.fired| == |s.fired| + 1 && s.fired <= mid.fired && s'.fired == mid.fired
    requires mid.clock == s.clock && mid.lastId == s.lastId
    requires mid.book.birth == s.book.birth && mid.book.cancelled == s.book.cancelled && mid.timers.Keys <= s.timers.Keys
    requires mid.fired[|s.fired|].tick == mid.tick && mid.fired[|s.fired|].id in s.timers
    requires Ran(Tagged(react(mid.fired), mid.tick, |mid.fired|), mid, s', tickMs)
    ensures Obeys(react, s, s', tickMs)
  {
    var commands := Tagged(react(mid.fired), mid.tick, |mid.fired|);
    RanNothing(s, mid, tickMs);
    RanOn([], commands, s, mid, s', tickMs);
    assert mid.fired[..|s.fired|] == s.fired;
    assert Orders(react, s.fired, |s.fired|) == [];
    assert Orders(react, mid.fired, |s.fired|) == [] + commands;
  }

  /** What becomes of a timer taken out of a drained bucket: it is placed again, or
      counted as called, and then its callback's commands lead to s'. */
  ghost predicate TurnedTo(react: Reaction, s: Snapshot, id: int, s': Snapshot, w: nat, b: nat, now: Timestamp, tickMs: TickMs) {
    && Shape(s.wheels) && |s.book.served| == WHEEL_NUM && id in s.timers && Fits(s.timers[id])
    && if 0 < s.timers[id].undoTickCounts || now.Less(s.timers[id].expireTimestamp) then
         s' == Postponed(s, id)
       else
         var mid := Counted(s, id, w, now);
         s'.fired == mid.fired && CarriedOut(react(mid.fired), mid, s', w, b, tickMs)
  }

  lemma TurnEnds(react: Reaction, quota: seq<Firing> -> nat, s0: Snapshot, s: Snapshot, s': Snapshot,
                 w: nat, b: nat, now: Timestamp, tickMs: TickMs)
    requires Drainable(s, w, b) && Bucket(s.wheels, w, b) != [] && NoneEndless(s, w, b, now) && Frugal(react, quota)
    requires TurnedTo(react, PoppedState(s, w, b), Bucket(s.wheels, w, b)[0], s', w, b, now, tickMs)
    requires Obeys(react, s0, s, tickMs)
    ensures Shape(s'.wheels) && Shrinks(quota, s, s', w, b) && Obeys(react, s0, s', tickMs)
  {
    var mid, t := Round(s, w, b, now), s.timers[Bucket(s.wheels, w, b)[0]];
    RoundKeepsNames(s, w, b, now);
    if 0 < t.undoTickCounts || now.Less(t.expireTimestamp) {
      QuietRoundShrinks(quota, s, w, b, now);
      ObeysSo(react, s0, s, mid, tickMs);
    } else {
      CallObeys(react, s, mid, s', tickMs);
      ObeysOn(react, s0, s, s', tickMs);
      QuotaCovers(react, quota, s, s', w, b, now, tickMs);
    }
  }

  lemma TickOpens(react: Reaction, s0: Snapshot, s: Snapshot, now: Timestamp, tickMs: TickMs)
    requires Consistent(s, WHEEL_NUM, -1, 0, NO_TIMER) && Covers(s.tick + 1, s.clock, s.fired, now) && Obeys(react, s0, s, tickMs)
    ensures var s' := s.(tick := s.tick + 1);
      && Consistent(s', 0, -1, 0, NO_TIMER) && CarryPending(s'.tick, 0)
      && OnCourse(StartOf(s), s'.fired, s'.book, s'.tick, s'.clock, now) && Obeys(react, s0, s', tickMs)
  {
    TickBegins(s, now);
    ObeysSo(react, s0, s, s.(tick := s.tick + 1), tickMs);
  }

  lemma QuotaCovers(react: Reaction, quota: seq<Firing> -> nat, s: Snapshot, s': Snapshot, w: nat, b: nat, now: Timestamp, tickMs: TickMs)
    requires Drainable(s, w, b) && Bucket(s.wheels, w, b) != [] && NoneEndless(s, w, b, now) && Frugal(react, quota)
    requires var mid := Round(s, w, b, now);
      mid.fired != s.fired && s'.fired == mid.fired && CarriedOut(react(mid.fired), mid, s', w, b, tickMs)
    ensures Shape(s'.wheels) && Shrinks(quota, s, s', w, b)
  {
    var mid := Round(s, w, b, now);
    RoundKeepsNames(s, w, b, now);
    assert FrugalAt(react, quota, mid.fired);
    assert mid.fired[..|mid.fired| - 1] == s.fired;
    assert InBucket(s, Bucket(s.wheels, w, b)[0], w, b) && !Endless(s.timers[Bucket(s.wheels, w, b)[0]], w, now);
    CallShrinks(quota, s, s', w, b, now, Costs(react(mid.fired)));
  }
}
