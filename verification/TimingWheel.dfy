/** The hierarchical timing wheel. */
module TimingWheels {
  import opened Arithmetic
  import opened Timestamps
  import opened WheelArithmetic
  import opened TimerLedger
  import opened WheelBuckets
  import opened WheelState
  import opened WheelDrain
  import opened TimerCommands
  import opened TimingTheorems

  /** The value an int takes on assignment from a wider integer. */
  function Int32(x: int): int {
    (x + 0x8000_0000) % 0x1_0000_0000 - 0x8000_0000
  }

  /** An int that `total` wraps round to is that many ticks of tickNs and a remainder
      below a tick, both of its sign. */
  predicate Splits(total: int, tickNs: int, ticks: int, undo: int) {
    var w := ticks * tickNs + undo;
    && -0x8000_0000 <= w < 0x8000_0000 && (w - total) % 0x1_0000_0000 == 0
    && -tickNs < undo < tickNs && (0 <= w ==> 0 <= undo) && (w <= 0 ==> undo <= 0)
  }

  /** There is one way only to split a total. */
  lemma SplitsOneWay(total: int, tickNs: int, ticks: int, undo: int, ticks': int, undo': int)
    requires Splits(total, tickNs, ticks, undo) && Splits(total, tickNs, ticks', undo')
    ensures ticks == ticks' && undo == undo'
  {
    var w, w' := ticks * tickNs + undo, ticks' * tickNs + undo';
    SameWrap(total, w, w');
    Distribute(ticks - ticks', ticks', tickNs);
    SmallMultiple(ticks - ticks', tickNs);
  }

  lemma SameWrap(total: int, w: int, w': int)
    requires -0x8000_0000 <= w < 0x8000_0000 && (w - total) % 0x1_0000_0000 == 0
    requires -0x8000_0000 <= w' < 0x8000_0000 && (w' - total) % 0x1_0000_0000 == 0
    ensures w == w'
  {
    var m := 0x1_0000_0000;
    DivMod(w - total, m);
    DivMod(w' - total, m);
    Distribute((w - total) / m, -((w' - total) / m), m);
    SmallMultiple((w - total) / m - (w' - total) / m, m);
  }

  lemma WrapSplits(total: int, tickNs: int)
    requires 1 <= tickNs
    ensures Splits(total, tickNs, TruncDiv(Int32(total), tickNs), TruncMod(Int32(total), tickNs))
  {
    var w, m := Int32(total), 0x1_0000_0000;
    var q := (total + 0x8000_0000) / m;
    DivMod(total + 0x8000_0000, m);
    Quotient(w - total, m, -q, 0);
    if 0 <= w {
      DivMod(w, tickNs);
    } else {
      DivMod(-w, tickNs);
    }
  }

  class TimingWheel {
    const tickMs: TickMs
    const react: Reaction
    var undoNsec: int
    var timestamp: Timestamp
    var timers: map<int, Timer>
    var lastId: int
    var wheels: seq<Wheel>
    var debugTickCounts: nat
    var fired: seq<Firing>
    ghost var book: Book
    ghost var t0: int
    ghost var steady: bool

    function TickNs(): nat { tickMs * NANOS_PER_MILLI }

    ghost function Time(): Clock
      reads this
    {
      Clock(TickNs(), t0, steady)
    }

    ghost function State(): Snapshot
      reads this
    {
      Snapshot(wheels, timers, lastId, fired, book, debugTickCounts, Time())
    }

    /** Ticks issued and remainder carried add up to the time passed. */
    ghost predicate Accounted()
      reads this
    {
      steady ==>
        && timestamp.Normal() && 0 <= undoNsec < TickNs()
        && debugTickCounts * TickNs() + undoNsec == timestamp.Nanos() - t0
        && LogUpTo(fired, timestamp)
    }

    ghost predicate Valid()
      reads this
    {
      Consistent(State(), WHEEL_NUM, -1, 0, NO_TIMER) && Accounted()
    }

    // ----- the interface -----

    constructor (tickMs: TickMs, react: Reaction)
      ensures Valid() && steady && timers == map[] && fired == [] && debugTickCounts == 0
      ensures book.due == map[] && book.birth == map[] && book.cancelled == map[] && lastId == 0 && undoNsec == 0
      ensures this.tickMs == tickMs && this.react == react
    {
      this.tickMs, this.react := tickMs, react;
      undoNsec, timestamp, timers, lastId := 0, Timestamp(0, 0), map[], 0;
      wheels := EmptyWheels();
      debugTickCounts, fired := 0, [];
      book := Book([0, 0, 0, 0, 0], map[], map[], map[]);
      t0, steady := 0, true;
      new;
      FreshIsConsistent(State());
    }

    /** Where the clock starts; only before any timer is there does it stay steady. */
    method SetTimestamp(now: Timestamp)
      requires Valid()
      modifies `timestamp, `t0, `steady
      ensures Valid() && timestamp == now
      ensures steady <==> timers == map[] && fired == [] && now.Normal() && 0 <= undoNsec < TickNs()
      ensures now.Nanos() - t0 == debugTickCounts * TickNs() + undoNsec
    {
      ghost var s := State();
      timestamp := now;
      t0 := now.Nanos() - (debugTickCounts * TickNs() + undoNsec);
      steady := timers == map[] && fired == [] && now.Normal() && 0 <= undoNsec < TickNs();
      SameHistory(timers, lastId, fired, book, book, s.clock, Time());
    }

    /** Start a timer between ticks.  It is due exactly its delay, rounded up to
        ticks, from now; a delay of zero is due a full turn of the first wheel away.
        (Without delay and limit it would be called for ever in that tick, by
        WheelDrain.DrainEnds.) */
    method AddTimer(now: Timestamp, expireMs: int, callTimes: int) returns (id: int)
      requires Valid() && Countable(expireMs, tickMs)
      requires 1 <= expireMs || 0 <= callTimes
      modifies `wheels, `timers, `lastId, `book
      ensures Valid() && id == old(lastId) + 1 == lastId && id !in old(timers) && id in timers
      ensures timers == old(timers)[id := timers[id]]
      ensures var ticks := TicksFor(expireMs, tickMs);
        var due := debugTickCounts + if ticks == 0 then 256 else ticks;
        book == StartedBook(old(book), id, Birth(due, now.Plus(expireMs), ticks, callTimes, Prompt(now, expireMs, debugTickCounts, Time())))
    {
      id := StartTimer(now, expireMs, callTimes, WHEEL_NUM, -1, 0);
    }

    /** Stop a timer: none of the calls to come is its.  Unknown ids are ignored, other
        timers keep their due ticks. */
    method RemoveTimer(id: int)
      requires Valid()
      modifies `wheels, `timers, `book
      ensures Valid() && timers == old(timers) - {id} && book.due == old(book.due) - {id}
      ensures book.cancelled == if id in old(timers) then old(book.cancelled)[id := |fired|] else old(book.cancelled)
      ensures book.birth == old(book.birth)
    {
      CancelTimer(id, WHEEL_NUM, -1, 0);
      assert id !in old(timers) ==> timers - {id} == timers && book.due - {id} == book.due;
    }

    /** On a steady clock no promptly started timer waits for its first call until
        one tick after its expire timestamp. */
    lemma Punctual(id: int)
      requires Valid() && steady && id in timers && book.birth[id].prompt && LastFire(fired, id) < 0
      ensures timestamp.Nanos() < book.birth[id].expire.Nanos() + TickNs()
    {
      NeverLate(State(), id, undoNsec, timestamp);
    }

    // ----- placing and removing -----

    /** The loop of Wheel::AddTimer: total ticks of one step of the wheel. */
    method StepTicks(index: WheelIndex) returns (step: nat)
      ensures step == Step(index)
    {
      step := 1;
      var i := 0;
      while i < index
        invariant 0 <= i <= index && step == Step(i)
      {
        step := step * BucketNum(i);
        i := i + 1;
      }
    }

    /** Wheel::AddTimer on wheel `index`. */
    method WheelAddTimer(index: WheelIndex, id: int, tickCounts: nat) returns (bucket: nat)
      requires Shape(wheels) && tickCounts < Step(index + 1)
      modifies `wheels
      ensures bucket == BucketFor(Over(tickCounts, Step(index)), old(wheels[index].current), BucketNum(index)) < BucketNum(index)
      ensures wheels == SetBucket(old(wheels), index, bucket, Bucket(old(wheels), index, bucket) + [id])
    {
      var step := StepTicks(index);
      bucket := BucketFor(Over(tickCounts, step), wheels[index].current, BucketNum(index));
      wheels := SetBucket(wheels, index, bucket, Bucket(wheels, index, bucket) + [id]);
    }

    /** AddWheel: put a timer on the first wheel long enough for the delay. */
    method AddWheel(t: Timer, tickCounts: nat) returns (t': Timer)
      requires Cursors(wheels, book.served) && tickCounts < Step(WHEEL_NUM)
      modifies `wheels
      ensures t' == Placed(t, book.served, tickCounts)
      ensures wheels == Filing(old(wheels), t')
    {
      var undo, maxTicks, step := 0, 1, 1;
      t' := t;
      var i := 0;
      while i < WHEEL_NUM
        invariant 0 <= i <= WHEEL_NUM && step == maxTicks == Step(i) && undo == Low(book.served, i)
        invariant wheels == old(wheels) && t' == t
        invariant 0 < i ==> Step(i) <= tickCounts
      {
        maxTicks := maxTicks * BucketNum(i);
        if tickCounts < maxTicks {
          OnlyWheel(tickCounts, i);
          var bucket := WheelAddTimer(i, t.id, tickCounts);
          t' := t'.(bucket := bucket, wheel := i);
          break;
        }
        undo := undo + wheels[i].current * step;
        step := maxTicks;
        i := i + 1;
      }
      undo := undo + tickCounts % step;
      t' := t'.(undoTickCounts := undo);
    }

    /** Wheel::RemoveTimer. */
    method RemoveFromBucket(index: WheelIndex, bucket: nat, id: int)
      requires Shape(wheels) && bucket < BucketNum(index)
      modifies `wheels
      ensures wheels == SetBucket(old(wheels), index, bucket, Without(Bucket(old(wheels), index, bucket), id))
    {
      var ids := Bucket(wheels, index, bucket);
      var k := 0;
      while k < |ids|
        invariant 0 <= k <= |ids| && wheels == old(wheels)
        invariant id !in ids[..k]
      {
        if ids[k] == id {
          WithoutAt(ids, k, id);
          wheels := SetBucket(wheels, index, bucket, ids[..k] + ids[k + 1..]);
          return;
        }
        assert ids[..k + 1] == ids[..k] + [ids[k]];
        k := k + 1;
      }
      assert ids[..k] == ids;
      WithoutAbsent(ids, id);
      SetSame(wheels, index, bucket);
    }

    /** The part of RemoveTimer after the lookup: out of the bucket and the map. */
    method Erase(id: int)
      requires Shape(wheels) && id in timers && timers[id].id == id && ValidSlot(timers[id].wheel, timers[id].bucket)
      modifies `wheels, `timers
      ensures wheels == Unfiling(old(wheels), old(timers)[id])
      ensures timers == old(timers) - {id}
    {
      var t := timers[id];
      RemoveFromBucket(t.wheel, t.bucket, id);
      timers := timers - {id};
    }

    /** RemoveTimer, in any state a callback can see. */
    method CancelTimer(id: int, ghost level: nat, ghost dw: int, ghost db: int)
      requires Consistent(State(), level, dw, db, NO_TIMER)
      modifies `wheels, `timers, `book
      ensures Consistent(State(), level, dw, db, NO_TIMER)
      ensures State() == if id in old(timers) then CancelledState(old(State()), id) else old(State())
      ensures Proceeds(old(State()), State()) && Grows(old(State()), State(), dw, db, 0)
    {
      if id !in timers {
        return;
      }
      CancelKeeps(State(), id, level, dw, db);
      CancelGrows(State(), id, dw, db);
      Erase(id);
      book := CancelledBook(book, id, |fired|);
      assert State() == CancelledState(old(State()), id);
    }

    /** The body of AddTimer. */
    method Insert(now: Timestamp, expireMs: int, callTimes: int, ghost level: nat) returns (id: int)
      requires Cursors(wheels, book.served) && Countable(expireMs, tickMs)
      modifies `wheels, `timers, `lastId, `book
      ensures id == old(lastId) + 1
      ensures State() == NewbornState(old(State()), now, expireMs, callTimes, level, tickMs)
    {
      ghost var s := State();
      var ticks := TicksFor(expireMs, tickMs);
      lastId := lastId + 1;
      id := lastId;
      var t := AddWheel(Timer(id, now.Plus(expireMs), ticks, callTimes, 0, 0, 0), ticks);
      timers := timers[id := t];
      ghost var birth := BirthOf(s, now, expireMs, callTimes, level, tickMs);
      book := StartedBook(book, id, birth);
    }

    /** AddTimer, in any state a callback can see. */
    method StartTimer(now: Timestamp, expireMs: int, callTimes: int,
                      ghost level: nat, ghost dw: int, ghost db: int) returns (id: int)
      requires Consistent(State(), level, dw, db, NO_TIMER) && Countable(expireMs, tickMs)
      requires (1 <= expireMs || 0 <= callTimes) && (0 <= dw || level == WHEEL_NUM)
      modifies `wheels, `timers, `lastId, `book
      ensures Consistent(State(), level, dw, db, NO_TIMER)
      ensures id == old(lastId) + 1 && id !in old(timers)
      ensures State() == NewbornState(old(State()), now, expireMs, callTimes, level, tickMs)
      ensures Proceeds(old(State()), State()) && Grows(old(State()), State(), dw, db, Cost(expireMs, callTimes))
    {
      NewbornKeeps(State(), now, expireMs, callTimes, level, dw, db, tickMs);
      id := Insert(now, expireMs, callTimes, level);
    }

    // ----- draining -----

    /** A callback starts and stops timers. */
    method RunCallback(commands: seq<Command>, ghost level: nat, ghost dw: nat, ghost db: int)
      requires Consistent(State(), level, dw, db, NO_TIMER)
      requires forall c :: c in commands ==> Bearable(c)
      modifies `wheels, `timers, `lastId, `book
      ensures Consistent(State(), level, dw, db, NO_TIMER)
      ensures CarriedOut(commands, old(State()), State(), dw, db, tickMs)
    {
      ghost var s := State();
      var i := 0;
      NothingYet(s, dw, db, tickMs);
      while i < |commands|
        invariant 0 <= i <= |commands| && fired == s.fired
        invariant Consistent(State(), level, dw, db, NO_TIMER)
        invariant CarriedOut(commands[..i], s, State(), dw, db, tickMs)
      {
        ghost var before := State();
        RunCommand(commands[i], level, dw, db);
        OneMore(commands, i, s, before, State(), dw, db, tickMs);
        i := i + 1;
      }
      assert commands[..i] == commands;
    }

    method RunCommand(command: Command, ghost level: nat, ghost dw: nat, ghost db: int)
      requires Consistent(State(), level, dw, db, NO_TIMER) && Bearable(command)
      modifies `wheels, `timers, `lastId, `book
      ensures Consistent(State(), level, dw, db, NO_TIMER)
      ensures CarriedOut([command], old(State()), State(), dw, db, tickMs)
    {
      OneCost(command);
      OneTag(command, debugTickCounts, |fired|);
      match command {
        case Start(now, expireMs, callTimes) =>
          EarlyFits(State(), level, WheelFor(TicksFor(expireMs, tickMs)));
          RanStart(State(), tickMs, command, level);
          var _ := StartTimer(now, expireMs, callTimes, level, dw, db);
        case Stop(id) =>
          assert id in timers ==> ValidSlot(timers[id].wheel, timers[id].bucket);
          RanStop(State(), tickMs, id);
          CancelTimer(id, level, dw, db);
      }
    }

    /** AddWheel on a timer of the map. */
    method Refile(t: Timer, tickCounts: nat)
      requires Cursors(wheels, book.served) && tickCounts < Step(WHEEL_NUM)
      modifies `wheels, `timers
      ensures var t' := Placed(t, book.served, tickCounts);
        State() == old(State()).(wheels := Filing(old(wheels), t'), timers := old(timers)[t.id := t'])
    {
      var t' := AddWheel(t, tickCounts);
      timers := timers[t.id := t'];
    }

    /** The first timer of the bucket is taken out. */
    method PopFront(w: WheelIndex, b: nat) returns (id: int)
      requires Shape(wheels) && ValidSlot(w, b) && Bucket(wheels, w, b) != []
      modifies `wheels
      ensures id == Bucket(old(wheels), w, b)[0] && State() == PoppedState(old(State()), w, b)
    {
      var ids := Bucket(wheels, w, b);
      id := ids[0];
      wheels := SetBucket(wheels, w, b, ids[1..]);
    }

    /** Another call to come: the timer goes back on a wheel for one more period. */
    method Rearm(id: int, now: Timestamp, ghost w: WheelIndex)
      requires Cursors(wheels, book.served) && id in timers && timers[id].id == id
      requires timers[id].expireTickCounts < Step(WHEEL_NUM)
      modifies `wheels, `timers, `fired, `book
      ensures var t := old(timers[id]);
        State() == RearmedState(old(State()), id, Placed(Recounted(t), old(book.served), t.expireTickCounts),
                                NextDue(debugTickCounts, w + 1, t.expireTickCounts), now)
    {
      var t := timers[id];
      Refile(t.(callTimes := if t.callTimes < 0 then t.callTimes else t.callTimes - 1), t.expireTickCounts);
      book := RedueBook(book, id, NextDue(debugTickCounts, w + 1, t.expireTickCounts));
      fired := fired + [Firing(id, debugTickCounts, now)];
    }

    /** The last call: the timer is dropped. */
    method Retire(id: int, now: Timestamp)
      requires Filed(wheels, timers, id) && id in timers && timers[id].id == id
      requires ValidSlot(timers[id].wheel, timers[id].bucket)
      modifies `wheels, `timers, `fired, `book
      ensures State() == RetiredState(old(State()), id, now)
    {
      EraseInFlight(id, timers[id].wheel, timers[id].bucket);
      book := RetiredBook(book, id);
      fired := fired + [Firing(id, debugTickCounts, now)];
    }

    /** The expired branch of Wheel::OnExpired: the timer is counted, then called. */
    method Fire(id: int, w: WheelIndex, b: nat, now: Timestamp, ghost start: TickStart)
      requires Consistent(State(), w + 1, w, b, id) && InBucket(State(), id, w, b)
      requires timers[id].undoTickCounts == 0 && book.due[id] == debugTickCounts && !now.Less(timers[id].expireTimestamp)
      requires OnCourse(start, fired, book, debugTickCounts, Time(), now)
      modifies `wheels, `timers, `lastId, `fired, `book
      ensures Consistent(State(), w + 1, w, b, NO_TIMER)
      ensures OnCourse(start, fired, book, debugTickCounts, Time(), now)
      ensures var mid := Counted(old(State()), id, w, now);
        fired == mid.fired && CarriedOut(react(fired), mid, State(), w, b, tickMs)
    {
      Count(id, w, b, now, start);
      ghost var mid := State();
      RunCallback(react(fired), w + 1, w, b);
      StaysOnCourse(mid, State(), start, now);
    }

    /** The expired branch before its callback: the timer is re-armed or dropped. */
    method Count(id: int, w: WheelIndex, b: nat, now: Timestamp, ghost start: TickStart)
      requires Consistent(State(), w + 1, w, b, id) && InBucket(State(), id, w, b)
      requires timers[id].undoTickCounts == 0 && book.due[id] == debugTickCounts && !now.Less(timers[id].expireTimestamp)
      requires OnCourse(start, fired, book, debugTickCounts, Time(), now)
      modifies `wheels, `timers, `fired, `book
      ensures Consistent(State(), w + 1, w, b, NO_TIMER)
      ensures OnCourse(start, fired, book, debugTickCounts, Time(), now)
      ensures State() == Counted(old(State()), id, w, now)
    {
      var t := timers[id];
      if t.callTimes < 0 || 0 < t.callTimes - 1 {
        RearmKeeps(State(), id, w, b, now, start);
        Rearm(id, now, w);
      } else {
        RetireKeeps(State(), id, w + 1, w, b, now, start);
        Retire(id, now);
      }
    }

    /** RemoveTimer on the timer in flight: no bucket holds it any more. */
    method EraseInFlight(id: int, ghost w: WheelIndex, ghost b: nat)
      requires Filed(wheels, timers, id) && id in timers && timers[id].id == id
      requires timers[id].wheel == w && timers[id].bucket == b && ValidSlot(w, b)
      modifies `wheels, `timers
      ensures wheels == old(wheels) && timers == old(timers) - {id}
    {
      ghost var t := timers[id];
      assert FiledAt(wheels, timers, id, w, b);
      WithoutAbsent(Bucket(wheels, w, b), id);
      SetSame(wheels, w, b);
      Erase(id);
    }

    /** The undo branch of Wheel::OnExpired. */
    method Hop(id: int)
      requires Cursors(wheels, book.served) && id in timers && timers[id].id == id
      requires timers[id].undoTickCounts < Step(WHEEL_NUM)
      modifies `wheels, `timers
      ensures var t := Placed(old(timers[id]), book.served, old(timers[id]).undoTickCounts);
        State() == old(State()).(wheels := Filing(old(wheels), t), timers := old(timers)[id := t])
    {
      Refile(timers[id], timers[id].undoTickCounts);
    }

    /** The "not expired" branch of Wheel::OnExpired. */
    method Retry(id: int)
      requires Cursors(wheels, book.served) && id in timers && timers[id].id == id && 1 < Step(WHEEL_NUM)
      modifies `wheels, `timers, `book
      ensures State() == RetriedState(old(State()), Placed(old(timers[id]), old(book.served), 1))
    {
      Refile(timers[id], 1);
      book := RedueBook(book, id, debugTickCounts + 1);
    }

    /** The first two branches of Wheel::OnExpired. */
    method Postpone(id: int, w: WheelIndex, b: nat, now: Timestamp, ghost start: TickStart)
      requires Consistent(State(), w + 1, w, b, id) && InBucket(State(), id, w, b)
      requires InPlace(timers[id]) && book.due[id] == debugTickCounts + timers[id].undoTickCounts
      requires 0 < timers[id].undoTickCounts || now.Less(timers[id].expireTimestamp)
      requires OnCourse(start, fired, book, debugTickCounts, Time(), now)
      modifies `wheels, `timers, `book
      ensures Consistent(State(), w + 1, w, b, NO_TIMER)
      ensures OnCourse(start, fired, book, debugTickCounts, Time(), now)
      ensures State() == Postponed(old(State()), id)
    {
      if 0 < timers[id].undoTickCounts {
        HopKeeps(State(), id, w, b);
        Hop(id);
      } else {
        RetryKeeps(State(), id, w, b, now, start);
        Retry(id);
      }
    }

    /** The three branches of Wheel::OnExpired for a timer taken out. */
    method Turn(id: int, w: WheelIndex, b: nat, now: Timestamp, ghost start: TickStart)
      requires Consistent(State(), w + 1, w, b, id) && InBucket(State(), id, w, b)
      requires InPlace(timers[id]) && book.due[id] == debugTickCounts + timers[id].undoTickCounts
      requires OnCourse(start, fired, book, debugTickCounts, Time(), now)
      modifies `wheels, `timers, `lastId, `fired, `book
      ensures Consistent(State(), w + 1, w, b, NO_TIMER)
      ensures OnCourse(start, fired, book, debugTickCounts, Time(), now)
      ensures TurnedTo(react, old(State()), id, State(), w, b, now, tickMs)
    {
      if 0 < timers[id].undoTickCounts || now.Less(timers[id].expireTimestamp) {
        Postpone(id, w, b, now, start);
      } else {
        Fire(id, w, b, now, start);
      }
    }

    /** One round of the loop of Wheel::OnExpired: the first timer of the bucket is
        taken out and, if it is called, its callback runs in the state that leaves. */
    method DrainOne(w: WheelIndex, b: nat, now: Timestamp, ghost start: TickStart,
                    ghost quota: seq<Firing> -> nat, ghost s0: Snapshot)
      requires ValidSlot(w, b) && Consistent(State(), w + 1, w, b, NO_TIMER) && Bucket(wheels, w, b) != []
      requires OnCourse(start, fired, book, debugTickCounts, Time(), now) && Frugal(react, quota)
      requires Obeys(react, s0, State(), tickMs)
      modifies `wheels, `timers, `lastId, `fired, `book
      ensures Consistent(State(), w + 1, w, b, NO_TIMER)
      ensures OnCourse(start, fired, book, debugTickCounts, Time(), now)
      ensures Shrinks(quota, old(State()), State(), w, b)
      ensures TurnedTo(react, PoppedState(old(State()), w, b), Bucket(old(wheels), w, b)[0], State(), w, b, now, tickMs)
      ensures Obeys(react, s0, State(), tickMs)
    {
      ghost var s := State();
      RoundBegins(s, w, b);
      var id := PopFront(w, b);
      Turn(id, w, b, now, start);
      TurnEnds(react, quota, s0, s, State(), w, b, now, tickMs);
    }

    /** The loop of Wheel::OnExpired. */
    method Drain(w: WheelIndex, b: nat, now: Timestamp, ghost start: TickStart, ghost s0: Snapshot)
      requires Obeys(react, s0, State(), tickMs)
      requires ValidSlot(w, b) && Consistent(State(), w + 1, w, b, NO_TIMER)
      requires OnCourse(start, fired, book, debugTickCounts, Time(), now)
      modifies `wheels, `timers, `lastId, `fired, `book
      ensures Consistent(State(), w + 1, w, b, NO_TIMER) && Bucket(wheels, w, b) == []
      ensures OnCourse(start, fired, book, debugTickCounts, Time(), now)
      ensures Obeys(react, s0, State(), tickMs)
    {
      ghost var quota: seq<Firing> -> nat :| Frugal(react, quota);
      while Bucket(wheels, w, b) != []
        invariant Consistent(State(), w + 1, w, b, NO_TIMER)
        invariant OnCourse(start, fired, book, debugTickCounts, Time(), now)
        invariant Obeys(react, s0, State(), tickMs)
        decreases Opening(State()), quota(fired) + Load(State(), w, b), |Bucket(wheels, w, b)|
      {
        DrainOne(w, b, now, start, quota, s0);
      }
    }

    /** Wheel::OnExpired: advance the cursor and drain the bucket it leaves. */
    method ServeWheel(w: WheelIndex, now: Timestamp, ghost start: TickStart, ghost s0: Snapshot) returns (current: nat)
      requires Obeys(react, s0, State(), tickMs)
      requires Consistent(State(), w, -1, 0, NO_TIMER) && CarryPending(debugTickCounts, w)
      requires OnCourse(start, fired, book, debugTickCounts, Time(), now)
      modifies `wheels, `timers, `lastId, `fired, `book
      ensures Consistent(State(), if 0 < current then WHEEL_NUM else w + 1, -1, 0, NO_TIMER)
      ensures OnCourse(start, fired, book, debugTickCounts, Time(), now)
      ensures Obeys(react, s0, State(), tickMs)
      ensures CarryPending(debugTickCounts, w + 1) <==> current == 0 && w + 1 < WHEEL_NUM
    {
      ghost var s := State();
      ServeBegins(s, w);
      ServedKeepsProgress(fired, book, ServingState(s, w).book);
      var bucket := Advance(w);
      ObeysSo(react, s0, s, State(), tickMs);
      Drain(w, bucket, now, start, s0);
      ServeEnds(State(), w, bucket);
      current := wheels[w].current;
      if 0 < current {
        TickEnds(State(), w + 1);
      }
    }

    /** Wheel::OnExpired before its loop. */
    method Advance(w: WheelIndex) returns (bucket: nat)
      requires Shape(wheels) && |book.served| == WHEEL_NUM
      modifies `wheels, `book
      ensures State() == ServingState(old(State()), w) && bucket == old(wheels[w].current)
    {
      bucket := wheels[w].current;
      wheels := Advanced(wheels, w);
      book := book.(served := book.served[w := book.served[w] + 1]);
    }

    /** One tick: serve wheel after wheel until one has not wrapped. */
    method Tick(now: Timestamp, ghost s0: Snapshot)
      requires Consistent(State(), WHEEL_NUM, -1, 0, NO_TIMER) && Covers(debugTickCounts + 1, Time(), fired, now)
      requires Obeys(react, s0, State(), tickMs)
      modifies `wheels, `timers, `lastId, `debugTickCounts, `fired, `book
      ensures Consistent(State(), WHEEL_NUM, -1, 0, NO_TIMER) && debugTickCounts == old(debugTickCounts) + 1
      ensures OnCourse(StartOf(old(State())), fired, book, debugTickCounts, Time(), now)
      ensures Obeys(react, s0, State(), tickMs)
    {
      ghost var s, start := State(), StartOf(State());
      TickOpens(react, s0, s, now, tickMs);
      debugTickCounts := debugTickCounts + 1;
      assert State() == s.(tick := s.tick + 1);
      var i := 0;
      while i < WHEEL_NUM
        invariant 0 <= i <= WHEEL_NUM
        invariant debugTickCounts == old(debugTickCounts) + 1
        invariant Consistent(State(), i, -1, 0, NO_TIMER) && (i < WHEEL_NUM ==> CarryPending(debugTickCounts, i))
        invariant OnCourse(start, fired, book, debugTickCounts, Time(), now)
        invariant Obeys(react, s0, State(), tickMs)
      {
        var current := ServeWheel(i, now, start, s0);
        if 0 < current {
          break;
        }
        i := i + 1;
      }
    }

    /** OnExpired: issue the ticks the clock has moved on by, and keep the rest. */
    method OnExpired(now: Timestamp)
      requires Valid()
      modifies this
      ensures Valid() && timestamp == now && t0 == old(t0)
      ensures steady == (old(steady) && now.Normal() && old(timestamp.Nanos()) <= now.Nanos()
                         && old(undoNsec) + now.DistanceNanoSecond(old(timestamp)) < 0x8000_0000)
      ensures var ticks := TruncDiv(Int32(old(undoNsec) + now.DistanceNanoSecond(old(timestamp))), TickNs());
        debugTickCounts == old(debugTickCounts) + Max(ticks)
      // Whatever the clock: the time passed and the remainder kept, as an int, are the
      // ticks issued and the new remainder.
      ensures exists ticks {:trigger Max(ticks)} ::
        && Splits(old(undoNsec) + now.DistanceNanoSecond(old(timestamp)), TickNs(), ticks, undoNsec)
        && debugTickCounts == old(debugTickCounts) + Max(ticks)
      ensures CallProgress(StartOf(old(State())), old(debugTickCounts), State(), now)
      ensures Obeys(react, old(State()), State(), tickMs)
    {
      CatchUp(now);
      timestamp := now;
    }

    /** OnExpired but for its last line. */
    method CatchUp(now: Timestamp)
      requires Valid()
      modifies `undoNsec, `steady, `wheels, `timers, `lastId, `debugTickCounts, `fired, `book
      ensures Consistent(State(), WHEEL_NUM, -1, 0, NO_TIMER)
      ensures steady == (old(steady) && now.Normal() && timestamp.Nanos() <= now.Nanos()
                         && old(undoNsec) + now.DistanceNanoSecond(timestamp) < 0x8000_0000)
      ensures var total := old(undoNsec) + now.DistanceNanoSecond(timestamp);
        && debugTickCounts == old(debugTickCounts) + Max(TruncDiv(Int32(total), TickNs()))
        && Splits(total, TickNs(), TruncDiv(Int32(total), TickNs()), undoNsec)
      ensures steady ==>
        && 0 <= undoNsec < TickNs() && debugTickCounts * TickNs() + undoNsec == now.Nanos() - t0
        && now.Normal() && LogUpTo(fired, now)
      ensures CallProgress(StartOf(old(State())), old(debugTickCounts), State(), now)
      ensures Obeys(react, old(State()), State(), tickMs)
    {
      ghost var s := State();
      var undoTicks := Elapse(now);
      assert StartOf(State()) == StartOf(s);
      ObeysNothing(react, s, State(), tickMs);
      IssueTicks(undoTicks, now, s);
    }

    /** The arithmetic of OnExpired: the ticks the time passed and the remainder make,
        and the new remainder. */
    method Elapse(now: Timestamp) returns (undoTicks: int)
      requires Valid()
      modifies `undoNsec, `steady
      ensures Consistent(State(), WHEEL_NUM, -1, 0, NO_TIMER) && State() == old(State()).(clock := Time())
      ensures steady == (old(steady) && now.Normal() && timestamp.Nanos() <= now.Nanos()
                         && old(undoNsec) + now.DistanceNanoSecond(timestamp) < 0x8000_0000)
      ensures var total := old(undoNsec) + now.DistanceNanoSecond(timestamp);
        undoTicks == TruncDiv(Int32(total), TickNs()) && Splits(total, TickNs(), undoTicks, undoNsec)
      ensures steady ==>
        && 0 <= undoTicks && 0 <= undoNsec < TickNs()
        && (debugTickCounts + undoTicks) * TickNs() + undoNsec == now.Nanos() - t0
        && now.Normal() && LogUpTo(fired, now)
    {
      var distance := now.DistanceNanoSecond(timestamp);
      var nsec := Int32(undoNsec + distance);
      undoTicks := TruncDiv(nsec, TickNs());
      WrapSplits(undoNsec + distance, TickNs());
      Account(debugTickCounts, undoNsec, timestamp, now, TickNs(), t0);
      ghost var regular := steady && now.Normal() && timestamp.Nanos() <= now.Nanos() && undoNsec + distance < 0x8000_0000;
      SameHistory(timers, lastId, fired, book, book, Time(), Clock(TickNs(), t0, regular));
      steady := regular;
      undoNsec := TruncMod(nsec, TickNs());
    }

    /** One tick more of those up to `last`. */
    method TickOn(now: Timestamp, ghost s0: Snapshot, ghost start: TickStart, ghost from: nat, ghost last: nat)
      requires from <= debugTickCounts < last && Consistent(State(), WHEEL_NUM, -1, 0, NO_TIMER)
      requires Covers(last, Time(), fired, now)
      requires CallProgress(start, from, State(), now) && Obeys(react, s0, State(), tickMs)
      modifies `wheels, `timers, `lastId, `debugTickCounts, `fired, `book
      ensures Consistent(State(), WHEEL_NUM, -1, 0, NO_TIMER) && debugTickCounts == old(debugTickCounts) + 1
      ensures Covers(last, Time(), fired, now)
      ensures CallProgress(start, from, State(), now) && Obeys(react, s0, State(), tickMs)
    {
      ghost var before := State();
      CoversEarlier(debugTickCounts + 1, last, Time(), fired, now);
      Tick(now, s0);
      CallContinues(start, from, before, State(), now);
    }

    /** The loop of OnExpired. */
    method IssueTicks(count: int, now: Timestamp, ghost s0: Snapshot)
      requires Obeys(react, s0, State(), tickMs)
      requires Consistent(State(), WHEEL_NUM, -1, 0, NO_TIMER)
      requires (steady ==> 0 <= count) && Covers(debugTickCounts + Max(count), Time(), fired, now)
      modifies `wheels, `timers, `lastId, `debugTickCounts, `fired, `book
      ensures Consistent(State(), WHEEL_NUM, -1, 0, NO_TIMER)
      ensures debugTickCounts == old(debugTickCounts) + Max(count)
      ensures Covers(debugTickCounts, Time(), fired, now)
      ensures CallProgress(StartOf(old(State())), old(debugTickCounts), State(), now)
      ensures Obeys(react, s0, State(), tickMs)
    {
      CallBegins(State(), now);
      ghost var start, from := StartOf(State()), debugTickCounts;
      var undoTicks := count - 1;
      while 0 <= undoTicks
        invariant Consistent(State(), WHEEL_NUM, -1, 0, NO_TIMER)
        invariant -1 <= undoTicks || undoTicks == count - 1
        invariant debugTickCounts == from + Max(count) - Max(undoTicks + 1)
        invariant Covers(from + Max(count), Time(), fired, now)
        invariant CallProgress(start, from, State(), now)
        invariant Obeys(react, s0, State(), tickMs)
        decreases undoTicks
      {
        TickOn(now, s0, start, from, from + count);
        undoTicks := undoTicks - 1;
      }
      CoversEarlier(debugTickCounts, from + Max(count), Time(), fired, now);
    }
  }

  lemma CoversEarlier(tick: nat, last: nat, clock: Clock, fired: seq<Firing>, now: Timestamp)
    requires tick <= last
    requires clock.steady ==> now.Normal() && last * clock.tickNs <= now.Nanos() - clock.t0 && LogUpTo(fired, now)
    ensures Covers(tick, clock, fired, now)
  {
    MulMonotone(tick, last, clock.tickNs);
  }

  lemma ServedKeepsProgress(fired: seq<Firing>, book: Book, book': Book)
    requires book' == book.(served := book'.served)
    ensures forall start, T, now :: Progress(start, fired, book, T, now) ==> Progress(start, fired, book', T, now)
  {
    forall start, T, now | Progress(start, fired, book, T, now)
      ensures Progress(start, fired, book', T, now)
    {
      forall i | i in start.due ensures Handled(i, start, fired, book', T, now) {
        assert Handled(i, start, fired, book, T, now);
      }
    }
  }

  function Max(n: int): nat { if n < 0 then 0 else n }

  /** The remainder arithmetic of OnExpired on a monotone clock and without 32-bit
      wrap-around: ticks issued and remainder carried stay equal to the time passed. */
  lemma Account(T: nat, undo: int, last: Timestamp, now: Timestamp, tickNs: nat, t0: int)
    requires 1 <= tickNs
    ensures var distance := now.DistanceNanoSecond(last);
      var nsec := Int32(undo + distance);
      last.Normal() && now.Normal() && last.Nanos() <= now.Nanos() && 0 <= undo && undo + distance < 0x8000_0000
      && T * tickNs + undo == last.Nanos() - t0 ==>
      && 0 <= TruncDiv(nsec, tickNs) && 0 <= TruncMod(nsec, tickNs) < tickNs
      && (T + TruncDiv(nsec, tickNs)) * tickNs + TruncMod(nsec, tickNs) == now.Nanos() - t0
  {
    var nsec := Int32(undo + now.DistanceNanoSecond(last));
    if last.Normal() && now.Normal() {
      DistanceIsAbsolute(now, last);
    }
    if 0 <= nsec {
      DivMod(nsec, tickNs);
      Distribute(T, nsec / tickNs, tickNs);
    }
  }

  lemma SetSame(wheels: seq<Wheel>, w: WheelIndex, b: nat)
    requires Shape(wheels) && ValidSlot(w, b)
    ensures SetBucket(wheels, w, b, Bucket(wheels, w, b)) == wheels
  {
    assert wheels[w].buckets[b := wheels[w].buckets[b]] == wheels[w].buckets;
  }

  function EmptyWheels(): seq<Wheel> {
    seq(WHEEL_NUM, i requires 0 <= i => Wheel(0, seq(BucketNum(i), _ => [])))
  }

  lemma FreshIsConsistent(s: Snapshot)
    requires s.wheels == EmptyWheels()
    requires s.timers == map[] && s.lastId == 0 && s.fired == [] && s.tick == 0
    requires s.book == Book([0, 0, 0, 0, 0], map[], map[], map[])
    ensures Consistent(s, WHEEL_NUM, -1, 0, NO_TIMER)
  {
    forall w, b | ValidSlot(w, b) ensures FiledAt(s.wheels, s.timers, NO_TIMER, w, b) {}
    forall i | 0 <= i < WHEEL_NUM ensures s.book.served[i] == 0 / Step(i) == 0 {
      Quotient(0, Step(i), 0, 0);
    }
  }

  lemma EarlyFits(s: Snapshot, level: nat, w: WheelIndex)
    requires ServedUpTo(s.book.served, s.tick, level)
    ensures Early(s.tick, level, w) <= s.tick
  {
    MidTickReading(s.book.served, s.tick, level, w);
  }

  /** The wheel found by the loop of AddWheel is the one chosen. */
  lemma OnlyWheel(ticks: nat, i: nat)
    requires i < WHEEL_NUM && ticks < Step(i + 1) && (0 < i ==> Step(i) <= ticks) && ticks < Step(WHEEL_NUM)
    ensures WheelFor(ticks) == i
  {
    var w := WheelFor(ticks);
    if w < i {
      StepGrows(w + 1, i);
    } else if i < w {
      StepGrows(i + 1, w);
    }
  }

  lemma {:induction false} WithoutAt(ids: seq<int>, k: nat, id: int)
    requires k < |ids| && ids[k] == id && id !in ids[..k]
    ensures Without(ids, id) == ids[..k] + ids[k + 1..]
  {
    if k != 0 {
      assert ids[0] in ids[..k];
      assert ids[1..][..k - 1] == ids[..k][1..];
      WithoutAt(ids[1..], k - 1, id);
    }
  }

  lemma {:induction false} WithoutAbsent(ids: seq<int>, id: int)
    requires id !in ids
    ensures Without(ids, id) == ids
  {
    if ids != [] {
      WithoutAbsent(ids[1..], id);
    }
  }
}
