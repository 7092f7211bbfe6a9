/** Runs of the timing wheel from its making on. */
module TimingRuns {
  import opened Arithmetic
  import opened Timestamps
  import opened WheelArithmetic
  import opened TimerLedger
  import opened WheelState
  import opened TimerCommands
  import opened TimingTheorems
  import opened TimingWheels

  /** From s to s' one call of OnExpired ran, on a wheel with one unlimited timer and
      callbacks that start and stop nothing. */
  ghost predicate Passed(s: Snapshot, s': Snapshot, now: Timestamp, id: int) {
    && BetweenTicks(s) && BetweenTicks(s') && s.clock.steady && s'.clock == s.clock
    && CallProgress(StartOf(s), s.tick, s', now)
    && s'.book.birth == s.book.birth && s'.book.cancelled == s.book.cancelled == map[]
    && s.book.birth.Keys == {id} && id in s.timers && s.book.birth[id].times < 0 && s.book.birth[id].expire.Settled()
  }

  /** Before its due tick, and before its expire timestamp, the timer waits. */
  lemma Waits(s: Snapshot, s': Snapshot, now: Timestamp, id: int)
    requires Passed(s, s', now, id)
    requires s'.tick < s.book.due[id] || now.Less(s.book.birth[id].expire)
    ensures id in s'.timers && s'.fired == s.fired
    ensures s'.book.due[id] == if s'.tick < s.book.due[id] then s.book.due[id] else s'.tick + 1
  {
    UnlimitedStays(s', id);
    assert Outcome(id, StartOf(s), s', now);
    if |s.fired| < |s'.fired| {
      NewCall(s, s', now, id, |s.fired|);
    }
    assert s'.fired[..|s.fired|] == s.fired;
  }

  lemma NewCall(s: Snapshot, s': Snapshot, now: Timestamp, id: int, k: nat)
    requires Passed(s, s', now, id) && |s.fired| <= k < |s'.fired|
    ensures s'.fired[k].id == id && s.book.due[id] <= s'.fired[k].tick <= s'.tick && !now.Less(s.book.birth[id].expire)
  {
    assert FiringOk(k, s'.fired, s'.book, s'.clock);
    assert s'.fired[k].now == now;
  }

  /** On a wheel with one timer each call is due by the ones before. */
  lemma LogIsDue(s: Snapshot, id: int, k: nat)
    requires BetweenTicks(s) && s.book.birth.Keys == {id} && k < |s.fired|
    ensures s.fired[k].id == id && NextCall(s.fired[..k], s.book.birth[id], id) <= s.fired[k].tick
    ensures 0 < k ==> s.fired[k - 1].tick <= s.fired[k].tick
  {
    CallsAreOnTime(s, k);
    if 0 < k {
      CallsAreOnTime(s, k - 1);
      assert s.fired[..k][k - 1] == s.fired[k - 1];
    }
  }

  lemma {:induction false} LogAscends(s: Snapshot, id: int, n: nat, k: nat)
    requires BetweenTicks(s) && s.book.birth.Keys == {id} && n <= k < |s.fired|
    ensures s.fired[n].tick <= s.fired[k].tick
  {
    if n < k {
      LogIsDue(s, id, k);
      LogAscends(s, id, n, k - 1);
    }
  }

  /** The first call of a stretch is not behind any other, so it is the due one. */
  lemma FirstIsDue(s: Snapshot, s': Snapshot, now: Timestamp, id: int, k: nat)
    requires Passed(s, s', now, id) && |s.fired| <= k < |s'.fired|
    requires s'.fired[k].id == id && s'.fired[k].tick == s.book.due[id]
    ensures s'.fired[|s.fired|] == Firing(id, s.book.due[id], now)
  {
    NewCall(s, s', now, id, |s.fired|);
    LogAscends(s', id, |s.fired|, k);
  }

  /** In its due tick, with the expire timestamp reached, it is called, once if the
      clock has not moved on to its next due tick. */
  lemma Calls(s: Snapshot, s': Snapshot, now: Timestamp, id: int)
    requires Passed(s, s', now, id)
    requires s.book.due[id] <= s'.tick && !now.Less(s.book.birth[id].expire)
    requires s'.tick < NextCall(s.fired + [Firing(id, s.book.due[id], now)], s.book.birth[id], id)
    ensures id in s'.timers && s'.fired == s.fired + [Firing(id, s.book.due[id], now)]
    ensures s'.book.due[id] == NextCall(s'.fired, s.book.birth[id], id)
  {
    UnlimitedStays(s', id);
    CalledFirst(s, s', now, id);
    CalledOnce(s, s', now, id);
    AppendFiring(s.fired, Firing(id, s.book.due[id], now), id);
    DueAfterCalls(s', id);
  }

  lemma CalledFirst(s: Snapshot, s': Snapshot, now: Timestamp, id: int)
    requires Passed(s, s', now, id)
    requires s.book.due[id] <= s'.tick && !now.Less(s.book.birth[id].expire)
    ensures |s.fired| < |s'.fired| && s'.fired[|s.fired|] == Firing(id, s.book.due[id], now)
  {
    assert Outcome(id, StartOf(s), s', now);
    var k :| |s.fired| <= k < |s'.fired| && s'.fired[k].id == id && s'.fired[k].tick == s.book.due[id];
    FirstIsDue(s, s', now, id, k);
  }

  lemma CalledOnce(s: Snapshot, s': Snapshot, now: Timestamp, id: int)
    requires Passed(s, s', now, id) && |s.fired| < |s'.fired| && s'.fired[|s.fired|] == Firing(id, s.book.due[id], now)
    requires s'.tick < NextCall(s.fired + [Firing(id, s.book.due[id], now)], s.book.birth[id], id)
    ensures s'.fired == s.fired + [Firing(id, s.book.due[id], now)]
  {
    var n := |s.fired|;
    assert s'.fired[..n] == s.fired;
    assert s'.fired[..n + 1] == s.fired + [s'.fired[n]];
    if n + 1 < |s'.fired| {
      LogIsDue(s', id, n + 1);
    }
  }

  // ----- a timer that starts itself anew in every call -----

  /** Every callback starts one timer for one call, counted from the time of its own. */
  ghost predicate Restarts(react: Reaction, expireMs: Millis) {
    forall fired {:trigger RestartsAfter(react, expireMs, fired)} :: RestartsAfter(react, expireMs, fired)
  }

  ghost predicate RestartsAfter(react: Reaction, expireMs: Millis, fired: seq<Firing>) {
    fired != [] ==> react(fired) == [Start(fired[|fired| - 1].now, expireMs, 1)]
  }

  /** The start that call k of the log orders. */
  function RestartOrder(x: Firing, expireMs: Millis, k: nat): Order {
    Order(Start(x.now, expireMs, 1), x.tick, k + 1)
  }

  function RestartsOf(fired: seq<Firing>, expireMs: Millis, from: nat): seq<Order>
    requires from <= |fired|
  {
    seq(|fired| - from, n requires 0 <= n < |fired| - from => RestartOrder(fired[from + n], expireMs, from + n))
  }

  lemma {:induction false} RestartOrders(react: Reaction, expireMs: Millis, fired: seq<Firing>, from: nat)
    requires Restarts(react, expireMs) && from <= |fired|
    ensures Starts(Orders(react, fired, from)) == RestartsOf(fired, expireMs, from)
    decreases |fired|
  {
    if from == |fired| {
      assert Orders(react, fired, from) == [];
    } else {
      RestartOrders(react, expireMs, fired[..|fired| - 1], from);
      LastRestart(react, expireMs, fired, from);
      RestartsOfLast(fired, expireMs, from);
    }
  }

  lemma LastRestart(react: Reaction, expireMs: Millis, fired: seq<Firing>, from: nat)
    requires Restarts(react, expireMs) && from < |fired|
    ensures var n := |fired| - 1;
      Starts(Orders(react, fired, from)) == Starts(Orders(react, fired[..n], from)) + [RestartOrder(fired[n], expireMs, n)]
  {
    var n := |fired| - 1;
    assert RestartsAfter(react, expireMs, fired);
    assert Tagged(react(fired), fired[n].tick, |fired|) == [RestartOrder(fired[n], expireMs, n)];
    StartsConcat(Orders(react, fired[..n], from), [RestartOrder(fired[n], expireMs, n)]);
    OneStart(RestartOrder(fired[n], expireMs, n));
  }

  lemma RestartsOfLast(fired: seq<Firing>, expireMs: Millis, from: nat)
    requires from < |fired|
    ensures var n := |fired| - 1;
      RestartsOf(fired, expireMs, from) == RestartsOf(fired[..n], expireMs, from) + [RestartOrder(fired[n], expireMs, n)]
  {}

  lemma {:induction false} RestartsStopNone(react: Reaction, expireMs: Millis, fired: seq<Firing>, from: nat, id: int)
    requires Restarts(react, expireMs)
    ensures !Stops(Orders(react, fired, from), id)
    decreases |fired|
  {
    if from < |fired| {
      var x, before := fired[|fired| - 1], fired[..|fired| - 1];
      RestartsStopNone(react, expireMs, before, from, id);
      assert RestartsAfter(react, expireMs, fired);
      StopsConcat(Orders(react, before, from), Tagged(react(fired), x.tick, |fired|), id);
    }
  }

  /** The successor a call of the stretch starts: promptly, on a steady clock, and
      stopped by none. */
  ghost predicate Successor(birth: Birth, x: Firing, expireMs: Millis) {
    birth.expire == x.now.Plus(expireMs) && birth.times == 1 && birth.prompt
  }

  lemma RanRestart(orders: seq<Order>, n: nat, s: Snapshot, s': Snapshot, tickMs: TickMs, x: Firing, expireMs: Millis, id: int)
    requires Ran(orders, s, s', tickMs) && n < |Starts(orders)| && id == s.lastId + 1 + n
    requires Starts(orders)[n] == RestartOrder(x, expireMs, |s.fired| + n) && Prompt(x.now, expireMs, x.tick, s'.clock)
    requires !Stops(orders, id) && id !in s.book.cancelled
    ensures id in s'.book.birth && id !in s'.book.cancelled && Successor(s'.book.birth[id], x, expireMs)
  {
    assert BornAs(orders, n, s, s', tickMs);
    if id in s'.book.cancelled {
      StoppedIsOrdered(orders, s.lastId, id, s'.book.cancelled[id]);
    }
  }

  /** On a steady clock every call of the stretch has a successor. */
  lemma RestartIsBorn(react: Reaction, expireMs: Millis, s: Snapshot, s': Snapshot, tickMs: TickMs, k: nat, id: int)
    requires Restarts(react, expireMs) && 1 <= expireMs && Obeys(react, s, s', tickMs)
    requires BetweenTicks(s) && BetweenTicks(s') && s'.clock.steady && |s.fired| <= k < |s'.fired|
    requires id == s.lastId + 1 + k - |s.fired|
    ensures id in s'.book.birth && id !in s'.book.cancelled && Successor(s'.book.birth[id], s'.fired[k], expireMs)
  {
    var orders := Orders(react, s'.fired, |s.fired|);
    RestartOrders(react, expireMs, s'.fired, |s.fired|);
    RestartsStopNone(react, expireMs, s'.fired, |s.fired|, id);
    RestartIsPrompt(s', k, expireMs);
    assert id !in s.book.cancelled;
    RanRestart(orders, k - |s.fired|, s, s', tickMs, s'.fired[k], expireMs, id);
  }

  /** It has been called once the clock is one tick past its expire timestamp. */
  lemma RestartIsCalled(react: Reaction, expireMs: Millis, s: Snapshot, s': Snapshot, tickMs: TickMs, k: nat, id: int,
                        undoNsec: int, timestamp: Timestamp)
    requires Restarts(react, expireMs) && 1 <= expireMs && Obeys(react, s, s', tickMs)
    requires BetweenTicks(s) && BetweenTicks(s') && s'.clock.steady && |s.fired| <= k < |s'.fired|
    requires id == s.lastId + 1 + k - |s.fired|
    requires 1 <= s'.clock.tickNs && undoNsec < s'.clock.tickNs
    requires s'.tick * s'.clock.tickNs + undoNsec == timestamp.Nanos() - s'.clock.t0
    requires s'.fired[k].now.Plus(expireMs).Nanos() + s'.clock.tickNs <= timestamp.Nanos()
    ensures Fires(s'.fired, id) == 1
  {
    RestartIsBorn(react, expireMs, s, s', tickMs, k, id);
    OneShotCalled(s', id, undoNsec, timestamp);
  }

  // ----- on the class -----

  /** A wheel whose callbacks start and stop nothing. */
  ghost predicate Quiet(wheel: TimingWheel) {
    forall fired :: wheel.react(fired) == []
  }

  lemma {:induction false} QuietOrders(wheel: TimingWheel, fired: seq<Firing>, from: nat)
    requires Quiet(wheel)
    ensures Orders(wheel.react, fired, from) == []
    decreases |fired|
  {
    if from < |fired| {
      QuietOrders(wheel, fired[..|fired| - 1], from);
    }
  }

  /** The time goes on to `now`: on a steady clock the ticks are the whole ticks passed
      since time zero. */
  method Pass(wheel: TimingWheel, now: Timestamp)
    requires wheel.Valid() && wheel.steady && Quiet(wheel)
    requires now.Normal() && wheel.timestamp.Nanos() <= now.Nanos()
    requires now.Nanos() - wheel.timestamp.Nanos() + wheel.TickNs() <= 0x8000_0000
    modifies wheel
    ensures wheel.Valid() && wheel.steady && wheel.timestamp == now && wheel.t0 == old(wheel.t0)
    ensures wheel.debugTickCounts == (now.Nanos() - wheel.t0) / wheel.TickNs()
    ensures wheel.book.birth == old(wheel.book.birth) && wheel.book.cancelled == old(wheel.book.cancelled)
    ensures CallProgress(StartOf(old(wheel.State())), old(wheel.debugTickCounts), wheel.State(), now)
  {
    ghost var s := wheel.State();
    DistanceIsAbsolute(now, wheel.timestamp);
    wheel.OnExpired(now);
    ghost var s' := wheel.State();
    QuietOrders(wheel, s'.fired, |s.fired|);
    QuietRan(s, s', wheel.tickMs);
    Quotient(now.Nanos() - wheel.t0, wheel.TickNs(), wheel.debugTickCounts, wheel.undoNsec);
  }

  lemma QuietRan(s: Snapshot, s': Snapshot, tickMs: TickMs)
    requires Ran([], s, s', tickMs) && BetweenTicks(s')
    ensures s'.book.birth == s.book.birth && s'.book.cancelled == s.book.cancelled
  {
    assert |Starts([])| == 0;
    assert s'.lastId == s.lastId;
    assert forall id :: id in s'.book.birth <==> id in s.book.birth;
    forall id | id in s.book.birth ensures s'.book.birth[id] == s.book.birth[id] {}
    assert s'.book.birth == s.book.birth;
    forall id | id in s'.book.cancelled ensures id in s.book.cancelled {
      if id !in s.book.cancelled {
        StoppedIsOrdered([], s.lastId, id, s'.book.cancelled[id]);
      }
    }
    assert forall id :: id in s'.book.cancelled <==> id in s.book.cancelled;
    forall id | id in s.book.cancelled ensures s'.book.cancelled[id] == s.book.cancelled[id] {}
    assert s'.book.cancelled == s.book.cancelled;
  }

  lemma NoBirthsNoCalls(s: Snapshot)
    requires BetweenTicks(s) && s.book.birth == map[]
    ensures s.fired == [] && s.timers == map[]
  {
    if s.fired != [] {
      CallsAreOnTime(s, 0);
    }
  }

  /** On a quiet wheel with one unlimited timer. */
  ghost predicate Alone(wheel: TimingWheel, id: int)
    reads wheel
  {
    && wheel.Valid() && wheel.steady && Quiet(wheel)
    && wheel.book.birth.Keys == {id} && id in wheel.timers && wheel.book.cancelled == map[]
    && wheel.book.birth[id].times < 0 && wheel.book.birth[id].expire.Settled()
  }

  method PassWaiting(wheel: TimingWheel, now: Timestamp, id: int)
    requires Alone(wheel, id)
    requires now.Normal() && wheel.timestamp.Nanos() <= now.Nanos()
    requires now.Nanos() - wheel.timestamp.Nanos() + wheel.TickNs() <= 0x8000_0000
    requires (now.Nanos() - wheel.t0) / wheel.TickNs() < wheel.book.due[id] || now.Less(wheel.book.birth[id].expire)
    modifies wheel
    ensures Alone(wheel, id) && wheel.timestamp == now && wheel.t0 == old(wheel.t0)
    ensures wheel.debugTickCounts == (now.Nanos() - wheel.t0) / wheel.TickNs()
    ensures wheel.book.birth == old(wheel.book.birth) && wheel.fired == old(wheel.fired)
    ensures wheel.book.due[id] == if wheel.debugTickCounts < old(wheel.book.due[id]) then old(wheel.book.due[id])
                                  else wheel.debugTickCounts + 1
  {
    ghost var s := wheel.State();
    Pass(wheel, now);
    Waits(s, wheel.State(), now, id);
  }

  method PassCalling(wheel: TimingWheel, now: Timestamp, id: int)
    requires Alone(wheel, id)
    requires now.Normal() && wheel.timestamp.Nanos() <= now.Nanos()
    requires now.Nanos() - wheel.timestamp.Nanos() + wheel.TickNs() <= 0x8000_0000
    requires wheel.book.due[id] <= (now.Nanos() - wheel.t0) / wheel.TickNs() && !now.Less(wheel.book.birth[id].expire)
    requires (now.Nanos() - wheel.t0) / wheel.TickNs()
           < NextCall(wheel.fired + [Firing(id, wheel.book.due[id], now)], wheel.book.birth[id], id)
    modifies wheel
    ensures Alone(wheel, id) && wheel.timestamp == now && wheel.t0 == old(wheel.t0)
    ensures wheel.debugTickCounts == (now.Nanos() - wheel.t0) / wheel.TickNs()
    ensures wheel.book.birth == old(wheel.book.birth)
    ensures wheel.fired == old(wheel.fired) + [Firing(id, old(wheel.book.due[id]), now)]
    ensures wheel.book.due[id] == NextCall(wheel.fired, wheel.book.birth[id], id)
  {
    ghost var s := wheel.State();
    Pass(wheel, now);
    Calls(s, wheel.State(), now, id);
  }

  lemma NextOf300(fired: seq<Firing>, birth: Birth, id: int, now: Timestamp, now2: Timestamp)
    requires fired == [Firing(id, 512, now)] && birth.due == 511 && birth.ticks == 300
    ensures NextCall(fired, birth, id) == 556
    ensures NextCall(fired + [Firing(id, 556, now2)], birth, id) == 856
  {
    CallMovesNext([], Firing(id, 512, now), birth, id);
    assert [] + fired == fired;
    CallMovesNext(fired, Firing(id, 556, now2), birth, id);
    StepValues();
  }

  /** Callbacks that stop nothing. */
  ghost predicate Stopless(react: Reaction) {
    forall fired, id :: Stop(id) !in react(fired)
  }

  lemma {:induction false} StoplessOrders(react: Reaction, fired: seq<Firing>, from: nat, id: int)
    requires Stopless(react)
    ensures !Stops(Orders(react, fired, from), id)
    decreases |fired|
  {
    if from < |fired| {
      var before, n := fired[..|fired| - 1], |fired|;
      StoplessOrders(react, before, from, id);
      var orders := Tagged(react(fired), fired[n - 1].tick, n);
      forall i | 0 <= i < |orders| ensures orders[i].command != Stop(id) {
        assert react(fired)[i] in react(fired);
      }
      StopsConcat(Orders(react, before, from), orders, id);
    }
  }

  /** Readings of a clock that does not go back, none so far from the one before that
      its nanoseconds with a remainder below a tick leave an int. */
  ghost predicate Steady(from: Timestamp, times: seq<Timestamp>, tickMs: TickMs) {
    forall i :: 0 <= i < |times| ==> SteadyStep(if i == 0 then from else times[i - 1], times[i], tickMs)
  }

  ghost predicate SteadyStep(from: Timestamp, now: Timestamp, tickMs: TickMs) {
    now.Normal() && from.Nanos() <= now.Nanos() && now.Nanos() - from.Nanos() + tickMs * NANOS_PER_MILLI <= 0x8000_0000
  }

  /** On a steady clock, with all that happened since s the doing of the callbacks. */
  ghost predicate OnClock(wheel: TimingWheel, s: Snapshot)
    reads wheel
  {
    wheel.Valid() && wheel.steady && Obeys(wheel.react, s, wheel.State(), wheel.tickMs)
  }

  /** One reading of a steady clock keeps it steady. */
  method FollowOne(wheel: TimingWheel, now: Timestamp, ghost s: Snapshot)
    requires OnClock(wheel, s) && SteadyStep(wheel.timestamp, now, wheel.tickMs)
    modifies wheel
    ensures OnClock(wheel, s) && wheel.timestamp == now
  {
    ghost var before := wheel.State();
    DistanceIsAbsolute(now, wheel.timestamp);
    wheel.OnExpired(now);
    ObeysOn(wheel.react, s, before, wheel.State(), wheel.tickMs);
  }

  method Follow(wheel: TimingWheel, times: seq<Timestamp>)
    requires wheel.Valid() && wheel.steady && Steady(wheel.timestamp, times, wheel.tickMs)
    modifies wheel
    ensures wheel.Valid() && wheel.steady
    ensures wheel.timestamp == if times == [] then old(wheel.timestamp) else times[|times| - 1]
    ensures Obeys(wheel.react, old(wheel.State()), wheel.State(), wheel.tickMs)
  {
    ghost var s := wheel.State();
    ObeysNothing(wheel.react, s, s, wheel.tickMs);
    var i := 0;
    while i < |times|
      invariant 0 <= i <= |times| && OnClock(wheel, s)
      invariant wheel.timestamp == if i == 0 then old(wheel.timestamp) else times[i - 1]
    {
      assert SteadyStep(wheel.timestamp, times[i], wheel.tickMs);
      FollowOne(wheel, times[i], s);
      i := i + 1;
    }
  }

  /** A timer for one call on a new wheel whose callbacks stop nothing: called exactly
      once when the clock, however often it is read, is one tick past its expire
      timestamp. */
  method OneShotIsCalled(tickMs: TickMs, react: Reaction, begin: Timestamp, expireMs: int, times: seq<Timestamp>)
      returns (wheel: TimingWheel, id: int)
    requires 1 <= expireMs < 0x8000_0000 && begin.Normal() && Stopless(react)
    requires Steady(begin, times, tickMs) && times != []
    requires begin.Nanos() + (expireMs + tickMs) * NANOS_PER_MILLI <= times[|times| - 1].Nanos()
    ensures wheel.Valid() && Fires(wheel.fired, id) == 1 && id !in wheel.timers
  {
    wheel := new TimingWheel(tickMs, react);
    wheel.SetTimestamp(begin);
    id := wheel.AddTimer(begin, expireMs, 1);
    ghost var s := wheel.State();
    Follow(wheel, times);
    StoplessOrders(react, wheel.fired, |s.fired|, id);
    PlusAddsNanos(begin, expireMs);
    CalledUnlessStopped(react, s, wheel.State(), tickMs, id, wheel.undoNsec, wheel.timestamp);
  }

  /** A timer stopped between two readings of the clock is never called again, whatever
      the callbacks of the others do and however the clock goes. */
  method StopForGood(wheel: TimingWheel, id: int, times: seq<Timestamp>)
    requires wheel.Valid() && id <= wheel.lastId
    modifies wheel
    ensures wheel.Valid() && id !in wheel.timers && Fires(wheel.fired, id) == old(Fires(wheel.fired, id))
  {
    wheel.RemoveTimer(id);
    var i := 0;
    while i < |times|
      invariant wheel.Valid() && id <= wheel.lastId && id !in wheel.timers
      invariant Fires(wheel.fired, id) == old(Fires(wheel.fired, id))
    {
      ghost var before := wheel.State();
      wheel.OnExpired(times[i]);
      GoneIsSilent(wheel.react, before, wheel.State(), wheel.tickMs, id);
      i := i + 1;
    }
  }

  /** Started and stopped at once, it is not called at all. */
  method StoppedIsNotCalled(tickMs: TickMs, react: Reaction, begin: Timestamp, expireMs: Millis, callTimes: int, times: seq<Timestamp>)
      returns (wheel: TimingWheel, id: int)
    requires 1 <= expireMs || 0 <= callTimes
    ensures wheel.Valid() && Fires(wheel.fired, id) == 0
  {
    wheel := new TimingWheel(tickMs, react);
    wheel.SetTimestamp(begin);
    id := wheel.AddTimer(begin, expireMs, callTimes);
    StopForGood(wheel, id, times);
  }

  /** Callbacks that do nothing. */
  method NoCallbacks() returns (react: Reaction)
    ensures forall fired :: react(fired) == []
  {
    var none: seq<Firing> -> seq<Command> := _ => [];
    Patient(none);
    react := none;
  }

  method At211() returns (wheel: TimingWheel)
    ensures fresh(wheel) && wheel.Valid() && wheel.steady && Quiet(wheel) && wheel.tickMs == 10 && wheel.t0 == 0
    ensures wheel.timestamp == Timestamp(2, 110_000_000) && wheel.debugTickCounts == 211 && wheel.fired == []
    ensures wheel.timers == map[] && wheel.book.birth == map[] && wheel.book.cancelled == map[]
  {
    var react := NoCallbacks();
    wheel := new TimingWheel(10, react);
    wheel.SetTimestamp(Timestamp(0, 0));
    Pass(wheel, Timestamp(2, 110_000_000));
    NoBirthsNoCalls(wheel.State());
  }

  /** At tick 211 the only timer, called every 3000 ms, is started 5 ms after the tick. */
  method StartAt211() returns (wheel: TimingWheel, id: int)
    ensures fresh(wheel) && Alone(wheel, id) && wheel.tickMs == 10 && wheel.t0 == 0
    ensures wheel.timestamp == Timestamp(2, 110_000_000) && wheel.fired == []
    ensures wheel.book.birth[id] == Birth(511, Timestamp(5, 115_000_000), 300, -1, true) && wheel.book.due[id] == 511
  {
    wheel := At211();
    id := wheel.AddTimer(Timestamp(2, 115_000_000), 3000, -1);
  }

  method PutOffAt511() returns (wheel: TimingWheel, id: int)
    ensures fresh(wheel) && Alone(wheel, id) && wheel.tickMs == 10 && wheel.t0 == 0
    ensures wheel.timestamp == Timestamp(5, 110_000_000) && wheel.fired == []
    ensures wheel.book.birth[id] == Birth(511, Timestamp(5, 115_000_000), 300, -1, true) && wheel.book.due[id] == 512
  {
    wheel, id := StartAt211();
    PassWaiting(wheel, Timestamp(4, 0), id);
    PassWaiting(wheel, Timestamp(5, 110_000_000), id);
  }

  method CalledAt512() returns (wheel: TimingWheel, id: int)
    ensures fresh(wheel) && Alone(wheel, id) && wheel.tickMs == 10 && wheel.t0 == 0
    ensures wheel.timestamp == Timestamp(5, 120_000_000) && wheel.fired == [Firing(id, 512, wheel.timestamp)]
    ensures wheel.book.birth[id] == Birth(511, Timestamp(5, 115_000_000), 300, -1, true) && wheel.book.due[id] == 556
  {
    wheel, id := PutOffAt511();
    var now := Timestamp(5, 120_000_000);
    NextOf300([Firing(id, 512, now)], wheel.book.birth[id], id, now, now);
    assert wheel.fired + [Firing(id, 512, now)] == [Firing(id, 512, now)];
    PassCalling(wheel, now, id);
  }

  /** A timer called every 3000 ms by a wheel of 10 ms ticks, started 5 ms after tick
      211: in tick 511 the clock has not reached its expire timestamp, so it is put off
      to tick 512, in which the first wheel wraps, and its second call comes 44 ticks
      later instead of 300. */
  method PutOffPeriodComesEarly() returns (wheel: TimingWheel, id: int)
    ensures Alone(wheel, id) && wheel.tickMs == 10 && wheel.book.birth[id].ticks == 300
    ensures wheel.fired == [Firing(id, 512, Timestamp(5, 120_000_000)), Firing(id, 556, Timestamp(5, 560_000_000))]
  {
    wheel, id := CalledAt512();
    var now := Timestamp(5, 560_000_000);
    NextOf300(wheel.fired, wheel.book.birth[id], id, wheel.timestamp, now);
    PassCalling(wheel, now, id);
  }
}
