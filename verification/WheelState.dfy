/** The whole state of the timing wheel as a value, in any state a callback can
    see, and why each step of the wheel keeps it consistent. */
module WheelState {
  import opened Arithmetic
  import opened Timestamps
  import opened WheelArithmetic
  import opened TimerLedger
  import opened WheelBuckets

  datatype Snapshot = Snapshot(wheels: seq<Wheel>, timers: map<int, Timer>, lastId: int, fired: seq<Firing>,
                               book: Book, tick: nat, clock: Clock)

  /** In tick `s.tick` with the wheels below `level` served, the bucket db of wheel dw
      being drained (none if dw is negative) and `inFlight` taken out of it. */
  ghost predicate Consistent(s: Snapshot, level: nat, dw: int, db: int, inFlight: int) {
    && Filed(s.wheels, s.timers, inFlight)
    && Cursors(s.wheels, s.book.served)
    && ServedUpTo(s.book.served, s.tick, level)
    && Dues(s.timers, s.book.due, s.book.served, s.tick, dw, db, inFlight)
    && Draining(s.wheels, dw, db, s.tick, level)
    && History(s.timers, s.lastId, s.fired, s.book, s.clock)
  }

  /** What a step of tick `now` adds to the account of that tick. */
  ghost predicate Proceeds(s: Snapshot, s': Snapshot) {
    && s'.tick == s.tick && s'.clock == s.clock && s'.book.served == s.book.served
    && forall start, T, now ::
         Progress(start, s.fired, s.book, T, now) ==> Progress(start, s'.fired, s'.book, T, now)
  }

  /** The timer with the place a delay of `ticks` gives it. */
  function Placed(t: Timer, served: seq<nat>, ticks: nat): Timer
    requires |served| == WHEEL_NUM && ticks < Step(WHEEL_NUM)
  {
    t.(undoTickCounts := PlacedUndo(served, ticks), wheel := WheelFor(ticks), bucket := PlacedBucket(served, ticks))
  }

  function NextDue(T: nat, level: nat, ticks: nat): nat
    requires ticks < Step(WHEEL_NUM)
  {
    var d := T + Wait(ticks, level) - Early(T, level, WheelFor(ticks));
    if d < 0 then 0 else d
  }

  lemma PlacedIsDue(s: Snapshot, t: Timer, level: nat, dw: int, db: int, ticks: nat)
    requires Cursors(s.wheels, s.book.served) && ServedUpTo(s.book.served, s.tick, level)
    requires Draining(s.wheels, dw, db, s.tick, level)
    requires ticks < Step(WHEEL_NUM) && (ticks == 0 ==> (level == 1 <==> dw == 0))
    ensures var t' := Placed(t, s.book.served, ticks);
      && InPlace(t') && DueOk(t', NextDue(s.tick, level, ticks), s.book.served, s.tick, dw, db)
      && Early(s.tick, level, WheelFor(ticks)) <= s.tick
      && (t'.wheel == dw && t'.bucket == db <==> ticks == 0 && dw == 0)
  {
    PlacementDue(Placed(t, s.book.served, ticks), s.wheels, s.book.served, s.tick, dw, db, level, ticks);
    if 0 <= dw {
      IntoDrained(s.wheels, s.book.served, s.tick, dw, db, level, ticks);
    }
  }

  function CancelledState(s: Snapshot, id: int): Snapshot
    requires Shape(s.wheels) && id in s.timers && ValidSlot(s.timers[id].wheel, s.timers[id].bucket)
  {
    s.(wheels := Unfiling(s.wheels, s.timers[id]), timers := s.timers - {id},
       book := CancelledBook(s.book, id, |s.fired|))
  }

  lemma CancelKeeps(s: Snapshot, id: int, level: nat, dw: int, db: int)
    requires Consistent(s, level, dw, db, NO_TIMER) && id in s.timers
    ensures s.timers[id].id == id && ValidSlot(s.timers[id].wheel, s.timers[id].bucket)
    ensures var s' := CancelledState(s, id);
      Consistent(s', level, dw, db, NO_TIMER) && Proceeds(s, s')
  {
    var t := s.timers[id];
    assert EntryOk(id, s.timers, s.fired, s.book, s.clock);
    UnfileTimer(s.wheels, s.timers, id);
    RemoveKeepsHistory(s.timers, id, s.lastId, s.fired, s.book, s.clock);
    RemoveProgress(id, |s.fired|, s.fired, s.book);
    var s' := CancelledState(s, id);
    forall i | i in s'.timers ensures DueOk(s'.timers[i], s'.book.due[i], s'.book.served, s'.tick, dw, db) {
      assert DueOk(s.timers[i], s.book.due[i], s.book.served, s.tick, dw, db);
    }
  }

  function StartedState(s: Snapshot, t: Timer, birth: Birth): Snapshot
    requires Shape(s.wheels) && ValidSlot(t.wheel, t.bucket)
  {
    s.(wheels := Filing(s.wheels, t), timers := s.timers[t.id := t], lastId := t.id,
       book := StartedBook(s.book, t.id, birth))
  }

  lemma StartKeeps(s: Snapshot, t: Timer, birth: Birth, level: nat, dw: int, db: int)
    requires Consistent(s, level, dw, db, NO_TIMER)
    requires t.id == s.lastId + 1 && ValidSlot(t.wheel, t.bucket)
    requires PendingOk(t, birth.due, t.id, birth, [], s.clock)
    requires DueOk(t, birth.due, s.book.served, s.tick, dw, db)
    ensures var s' := StartedState(s, t, birth);
      Consistent(s', level, dw, db, NO_TIMER) && Proceeds(s, s')
  {
    var s' := StartedState(s, t, birth);
    FileTimer(s.wheels, s.timers, NO_TIMER, t);
    AddKeepsHistory(s.timers, t, birth, s.lastId, s.fired, s.book, s.clock);
    AddProgress(t.id, birth, s.fired, s.book);
    FiledDues(s.timers, s.book.due, s.book.served, s.tick, dw, db, t, birth.due);
  }

  // ----- draining a bucket -----

  /** The first timer of the drained bucket is taken out. */
  function PoppedState(s: Snapshot, w: int, b: int): Snapshot
    requires Shape(s.wheels) && ValidSlot(w, b) && Bucket(s.wheels, w, b) != []
  {
    s.(wheels := SetBucket(s.wheels, w, b, Bucket(s.wheels, w, b)[1..]))
  }

  lemma PopKeeps(s: Snapshot, w: int, b: int)
    requires 0 <= w && Consistent(s, w + 1, w, b, NO_TIMER) && ValidSlot(w, b) && Bucket(s.wheels, w, b) != []
    ensures var id, s' := Bucket(s.wheels, w, b)[0], PoppedState(s, w, b);
      && Consistent(s', w + 1, w, b, id)
      && id in s.timers && s.timers[id].wheel == w && s.timers[id].bucket == b && s.timers[id].id == id
      && InPlace(s.timers[id]) && s.book.due[id] == s.tick + s.timers[id].undoTickCounts
  {
    PopTimer(s.wheels, s.timers, w, b);
    var id := Bucket(s.wheels, w, b)[0];
    assert EntryOk(id, s.timers, s.fired, s.book, s.clock);
    assert DueOk(s.timers[id], s.book.due[id], s.book.served, s.tick, w, b);
  }

  /** Re-file the timer in flight with a new place and due tick. */
  lemma RefileKeepsBuckets(s: Snapshot, t: Timer, due: nat, level: nat, dw: int, db: int)
    requires Consistent(s, level, dw, db, t.id) && t.id in s.timers && ValidSlot(t.wheel, t.bucket)
    requires DueOk(t, due, s.book.served, s.tick, dw, db)
    ensures Filed(Filing(s.wheels, t), s.timers[t.id := t], NO_TIMER)
    ensures Cursors(Filing(s.wheels, t), s.book.served) && Draining(Filing(s.wheels, t), dw, db, s.tick, level)
    ensures Dues(s.timers[t.id := t], s.book.due[t.id := due], s.book.served, s.tick, dw, db, NO_TIMER)
  {
    FileTimer(s.wheels, s.timers, t.id, t);
    RefileKeepsDues(s.timers, s.book.due, s.book.served, s.tick, dw, db, t, due);
  }

  lemma UndoFits(w: WheelIndex)
    ensures 1 <= 2 * Step(w) - 1 < Step(WHEEL_NUM)
  {
    StepValues();
    StepGrows(w, 4);
  }

  /** Left-over ticks: on to a lower wheel, the due tick unchanged. */
  lemma HopKeeps(s: Snapshot, id: int, dw: int, db: int)
    requires 0 <= dw && Consistent(s, dw + 1, dw, db, id) && id in s.timers && s.timers[id].id == id
    requires s.timers[id].wheel == dw && InPlace(s.timers[id])
    requires 1 <= s.timers[id].undoTickCounts && s.book.due[id] == s.tick + s.timers[id].undoTickCounts
    ensures s.timers[id].undoTickCounts < Step(WHEEL_NUM)
    ensures var t := Placed(s.timers[id], s.book.served, s.timers[id].undoTickCounts);
      && !(t.wheel == dw && t.bucket == db)
      && Consistent(s.(wheels := Filing(s.wheels, t), timers := s.timers[id := t]), dw + 1, dw, db, NO_TIMER)
  {
    var was := s.timers[id];
    UndoFits(dw);
    var t := Placed(was, s.book.served, was.undoTickCounts);
    PlacedIsDue(s, was, dw + 1, dw, db, was.undoTickCounts);
    HopSettles(was, t, s.wheels, s.book.served, s.tick, dw, db);
    RefileKeepsBuckets(s, t, s.book.due[id], dw + 1, dw, db);
    assert s.book.due[id := s.book.due[id]] == s.book.due;
    HopKeepsHistory(s.timers, t, s.lastId, s.fired, s.book, s.clock);
  }

  /** Early by the clock: once more in the next tick. */
  function RetriedState(s: Snapshot, t: Timer): Snapshot
    requires Shape(s.wheels) && ValidSlot(t.wheel, t.bucket)
  {
    s.(wheels := Filing(s.wheels, t), timers := s.timers[t.id := t],
       book := RedueBook(s.book, t.id, s.tick + 1))
  }

  /** On a steady clock the ticks up to `tick`, and all calls so far, fit into the
      time up to `now`. */
  ghost predicate Covers(tick: nat, clock: Clock, fired: seq<Firing>, now: Timestamp) {
    clock.steady ==> now.Normal() && tick * clock.tickNs <= now.Nanos() - clock.t0 && LogUpTo(fired, now)
  }

  /** The account of the tick in progress and of the clock. */
  ghost predicate OnCourse(start: TickStart, fired: seq<Firing>, book: Book, tick: nat, clock: Clock, now: Timestamp) {
    Progress(start, fired, book, tick, now) && Covers(tick, clock, fired, now)
  }

  lemma RetryKeeps(s: Snapshot, id: int, dw: int, db: int, now: Timestamp, start: TickStart)
    requires 0 <= dw && Consistent(s, dw + 1, dw, db, id) && id in s.timers && s.timers[id].id == id
    requires s.book.due[id] == s.tick && now.Less(s.timers[id].expireTimestamp) && Covers(s.tick, s.clock, s.fired, now)
    requires Progress(start, s.fired, s.book, s.tick, now)
    ensures 1 < Step(WHEEL_NUM)
    ensures var t := Placed(s.timers[id], s.book.served, 1);
      && !(t.wheel == dw && t.bucket == db)
      && var s' := RetriedState(s, t);
      && Consistent(s', dw + 1, dw, db, NO_TIMER)
      && Progress(start, s'.fired, s'.book, s'.tick, now)
  {
    RetryKeepsBuckets(s, id, dw, db);
    RetryKeepsLedger(s, id, now, start);
  }

  lemma RetryKeepsLedger(s: Snapshot, id: int, now: Timestamp, start: TickStart)
    requires History(s.timers, s.lastId, s.fired, s.book, s.clock) && |s.book.served| == WHEEL_NUM
    requires id in s.timers && s.timers[id].id == id
    requires s.book.due[id] == s.tick && now.Less(s.timers[id].expireTimestamp) && Covers(s.tick, s.clock, s.fired, now)
    requires Progress(start, s.fired, s.book, s.tick, now)
    ensures 1 < Step(WHEEL_NUM)
    ensures var t, book' := Placed(s.timers[id], s.book.served, 1), RedueBook(s.book, id, s.tick + 1);
      && History(s.timers[id := t], s.lastId, s.fired, book', s.clock)
      && Progress(start, s.fired, book', s.tick, now)
  {
    PlacedNext(s.timers[id], s.book.served);
    assert EntryOk(id, s.timers, s.fired, s.book, s.clock);
    RetryKeepsHistory(s.timers, Placed(s.timers[id], s.book.served, 1), s.lastId, s.fired, s.book, s.clock, s.tick, now);
    RetryProgress(id, s.fired, s.book, s.tick, now, start);
  }

  /** A delay of one tick goes to the first wheel and leaves nothing over. */
  lemma PlacedNext(t: Timer, served: seq<nat>)
    requires |served| == WHEEL_NUM
    ensures 1 < Step(WHEEL_NUM) && Placed(t, served, 1).wheel == 0 && Placed(t, served, 1).undoTickCounts == 0
  {
    StepValues();
  }

  lemma RetryKeepsBuckets(s: Snapshot, id: int, dw: int, db: int)
    requires 0 <= dw && Consistent(s, dw + 1, dw, db, id) && id in s.timers && s.timers[id].id == id
    ensures 1 < Step(WHEEL_NUM)
    ensures var t := Placed(s.timers[id], s.book.served, 1);
      && InPlace(t) && !(t.wheel == dw && t.bucket == db)
      && var s' := RetriedState(s, t);
      && Filed(s'.wheels, s'.timers, NO_TIMER) && Cursors(s'.wheels, s'.book.served)
      && Dues(s'.timers, s'.book.due, s'.book.served, s'.tick, dw, db, NO_TIMER)
      && Draining(s'.wheels, dw, db, s'.tick, dw + 1)
  {
    UndoFits(0);
    PlacedIsDue(s, s.timers[id], dw + 1, dw, db, 1);
    RefileKeepsBuckets(s, Placed(s.timers[id], s.book.served, 1), s.tick + 1, dw + 1, dw, db);
  }

  /** The callback of a timer with calls left: re-armed by its period. */
  function RearmedState(s: Snapshot, id: int, t: Timer, due: nat, now: Timestamp): Snapshot
    requires Shape(s.wheels) && ValidSlot(t.wheel, t.bucket)
  {
    s.(wheels := Filing(s.wheels, t), timers := s.timers[id := t], fired := s.fired + [Firing(id, s.tick, now)],
       book := RedueBook(s.book, id, due))
  }

  /** The timer with one call less to go; a negative number of calls is no limit. */
  function Recounted(t: Timer): Timer {
    t.(callTimes := if t.callTimes < 0 then t.callTimes else t.callTimes - 1)
  }

  lemma RearmKeeps(s: Snapshot, id: int, dw: int, db: int, now: Timestamp, start: TickStart)
    requires 0 <= dw && Consistent(s, dw + 1, dw, db, id) && id in s.timers && s.timers[id].id == id
    requires s.timers[id].wheel == dw && s.timers[id].bucket == db && s.timers[id].undoTickCounts == 0
    requires s.book.due[id] == s.tick && !now.Less(s.timers[id].expireTimestamp)
    requires s.timers[id].callTimes < 0 || 0 < s.timers[id].callTimes - 1
    requires OnCourse(start, s.fired, s.book, s.tick, s.clock, now)
    ensures var was := s.timers[id];
      && was.expireTickCounts < Step(WHEEL_NUM)
      && var t := Placed(Recounted(was), s.book.served, was.expireTickCounts);
      && (t.wheel == dw && t.bucket == db <==> was.expireTickCounts == 0)
      && var s' := RearmedState(s, id, t, NextDue(s.tick, dw + 1, was.expireTickCounts), now);
      && Consistent(s', dw + 1, dw, db, NO_TIMER)
      && OnCourse(start, s'.fired, s'.book, s'.tick, s'.clock, now)
  {
    var was := s.timers[id];
    assert EntryOk(id, s.timers, s.fired, s.book, s.clock);
    var t := Placed(Recounted(was), s.book.served, was.expireTickCounts);
    var due := NextDue(s.tick, dw + 1, was.expireTickCounts);
    PlacedIsDue(s, Recounted(was), dw + 1, dw, db, was.expireTickCounts);
    RearmIsDue(s, id, dw, db);
    RefileKeepsBuckets(s, t, due, dw + 1, dw, db);
    RearmKeepsLedger(s, id, t, due, now, start);
  }

  lemma RearmKeepsLedger(s: Snapshot, id: int, t: Timer, due: nat, now: Timestamp, start: TickStart)
    requires History(s.timers, s.lastId, s.fired, s.book, s.clock) && |s.book.served| == WHEEL_NUM
    requires id in s.timers && s.timers[id].id == id
    requires s.book.due[id] == s.tick && !now.Less(s.timers[id].expireTimestamp)
    requires s.timers[id].callTimes < 0 || 0 < s.timers[id].callTimes - 1
    requires OnCourse(start, s.fired, s.book, s.tick, s.clock, now)
    requires var was := s.timers[id];
      && was.expireTickCounts < Step(WHEEL_NUM) && t == Placed(Recounted(was), s.book.served, was.expireTickCounts)
      && InPlace(t) && id in s.book.birth
      && due == s.tick + was.expireTickCounts
                - Shortfall(NextCall(s.fired, s.book.birth[id], id) < s.tick, was.expireTickCounts, s.tick)
    ensures var book', fired' := RedueBook(s.book, id, due), s.fired + [Firing(id, s.tick, now)];
      && History(s.timers[id := t], s.lastId, fired', book', s.clock)
      && OnCourse(start, fired', book', s.tick, s.clock, now)
  {
    assert EntryOk(id, s.timers, s.fired, s.book, s.clock);
    PlacementSettles(t);
    NoDelay(s.book.served);
    FireKeepsHistory(s.timers, id, s.timers[id := t], due, s.lastId, s.fired, s.book, s.clock, s.tick, now);
    FireProgress(id, due, s.fired, s.book, RedueBook(s.book, id, due), s.tick, now, start);
  }

  /** A called timer is next due as its calls say, whether it was put off or not. */
  lemma RearmIsDue(s: Snapshot, id: int, dw: int, db: int)
    requires 0 <= dw && Consistent(s, dw + 1, dw, db, id) && id in s.timers && s.timers[id].id == id
    requires s.timers[id].wheel == dw && s.timers[id].bucket == db && s.book.due[id] == s.tick
    requires s.timers[id].expireTickCounts < Step(WHEEL_NUM)
    ensures id in s.book.birth
    ensures var ticks := s.timers[id].expireTickCounts;
      NextDue(s.tick, dw + 1, ticks) == s.tick + ticks - Shortfall(NextCall(s.fired, s.book.birth[id], id) < s.tick, ticks, s.tick)
  {
    assert EntryOk(id, s.timers, s.fired, s.book, s.clock);
    var t := s.timers[id];
    if NextCall(s.fired, s.book.birth[id], id) < s.tick {
      PutOffRearm(s.tick, t.expireTickCounts);
    } else {
      SettledRearmsOnTime(s, t, dw, db);
    }
  }

  /** From the first wheel a period comes out short exactly when it does not fit that
      wheel and the wheel has just wrapped. */
  lemma PutOffRearm(T: nat, ticks: nat)
    requires ticks < Step(WHEEL_NUM)
    ensures NextDue(T, 1, ticks) == T + ticks - Shortfall(true, ticks, T)
  {
    StepValues();
  }

  /** A settled timer is re-armed for exactly one period later: either the wheel it
      fired from has not just wrapped, or its period does not reach a higher wheel. */
  lemma SettledRearmsOnTime(s: Snapshot, t: Timer, dw: int, db: int)
    requires 0 <= dw && Cursors(s.wheels, s.book.served) && ServedUpTo(s.book.served, s.tick, dw + 1)
    requires Draining(s.wheels, dw, db, s.tick, dw + 1)
    requires t.wheel == dw && t.bucket == db && Settled(t) && t.expireTickCounts < Step(WHEEL_NUM)
    requires t.expireTickCounts == 0 ==> dw == 0
    ensures NextDue(s.tick, dw + 1, t.expireTickCounts) == s.tick + t.expireTickCounts
  {
    var w := WheelFor(t.expireTickCounts);
    if dw + 1 <= w {
      StepGrows(dw + 1, w);
      WrapsAtLastBucket(s, dw, db);
    }
  }

  /** The wheel above gets its carry exactly when the last bucket was served. */
  lemma WrapsAtLastBucket(s: Snapshot, dw: int, db: int)
    requires 0 <= dw && Cursors(s.wheels, s.book.served) && Draining(s.wheels, dw, db, s.tick, dw + 1)
    requires ServedUpTo(s.book.served, s.tick, dw + 1)
    ensures s.tick % Step(dw + 1) == 0 <==> db == BucketNum(dw) - 1
  {
    WrapDigit(s.tick, dw);
    assert s.book.served[dw] == s.tick / Step(dw);
    assert s.wheels[dw].current == s.book.served[dw] % BucketNum(dw);
    CursorStep(db, BucketNum(dw));
    Quotient(db, BucketNum(dw), 0, db);
  }

  /** The last call of a timer: out of the map before its callback runs. */
  function RetiredState(s: Snapshot, id: int, now: Timestamp): Snapshot {
    s.(timers := s.timers - {id}, fired := s.fired + [Firing(id, s.tick, now)], book := RetiredBook(s.book, id))
  }

  lemma RetireKeeps(s: Snapshot, id: int, level: nat, dw: int, db: int, now: Timestamp, start: TickStart)
    requires Consistent(s, level, dw, db, id) && id in s.timers && s.timers[id].id == id
    requires s.book.due[id] == s.tick && !now.Less(s.timers[id].expireTimestamp)
    requires !(s.timers[id].callTimes < 0 || 0 < s.timers[id].callTimes - 1)
    requires OnCourse(start, s.fired, s.book, s.tick, s.clock, now)
    ensures var s' := RetiredState(s, id, now);
      && Consistent(s', level, dw, db, NO_TIMER)
      && OnCourse(start, s'.fired, s'.book, s'.tick, s'.clock, now)
  {
    assert EntryOk(id, s.timers, s.fired, s.book, s.clock);
    DropTimer(s.wheels, s.timers, id);
    FireKeepsHistory(s.timers, id, s.timers - {id}, 0, s.lastId, s.fired, s.book, s.clock, s.tick, now);
    FireProgress(id, 0, s.fired, s.book, RetiredBook(s.book, id), s.tick, now, start);
  }

  // ----- serving a wheel, ticking -----

  function ServingState(s: Snapshot, w: WheelIndex): Snapshot
    requires Shape(s.wheels) && |s.book.served| == WHEEL_NUM
  {
    s.(wheels := Advanced(s.wheels, w),
       book := s.book.(served := s.book.served[w := s.book.served[w] + 1]))
  }

  lemma ServeBegins(s: Snapshot, w: WheelIndex)
    requires Consistent(s, w, -1, 0, NO_TIMER) && CarryPending(s.tick, w)
    ensures Consistent(ServingState(s, w), w + 1, w, s.wheels[w].current, NO_TIMER)
  {
    ServeCounts(s.book.served, s.tick, w);
    AdvanceKeepsFiling(s.wheels, s.timers, w);
    AdvanceKeepsCursors(s.wheels, s.book.served, w);
    ServeBeginsFor(s, w);
  }

  lemma ServeBeginsFor(s: Snapshot, w: WheelIndex)
    requires Filed(s.wheels, s.timers, NO_TIMER) && Cursors(s.wheels, s.book.served)
    requires Dues(s.timers, s.book.due, s.book.served, s.tick, -1, 0, NO_TIMER) && History(s.timers, s.lastId, s.fired, s.book, s.clock)
    requires ServiceTick(s.book.served[w] + 1, w) == s.tick
    ensures var s' := ServingState(s, w);
      && Dues(s'.timers, s'.book.due, s'.book.served, s'.tick, w, s.wheels[w].current, NO_TIMER)
      && History(s'.timers, s'.lastId, s'.fired, s'.book, s'.clock)
  {
    var served' := s.book.served[w := s.book.served[w] + 1];
    ServeKeepsDues(s.wheels, s.timers, s.book.due, s.book.served, s.tick, w);
    SameHistory(s.timers, s.lastId, s.fired, s.book, s.book.(served := served'), s.clock, s.clock);
  }

  lemma AdvanceKeepsCursors(wheels: seq<Wheel>, served: seq<nat>, w: WheelIndex)
    requires Cursors(wheels, served)
    ensures Cursors(Advanced(wheels, w), served[w := served[w] + 1])
  {
    CursorStep(served[w], BucketNum(w));
    CursorStep(wheels[w].current, BucketNum(w));
    Quotient(wheels[w].current, BucketNum(w), 0, wheels[w].current);
  }

  /** History does not look at the service counts, nor at the clock once it has lost
      its steadiness. */
  lemma SameHistory(timers: map<int, Timer>, lastId: int, fired: seq<Firing>, book: Book, book': Book, clock: Clock, clock': Clock)
    requires History(timers, lastId, fired, book, clock)
    requires book' == book.(served := book'.served)
    requires clock' == clock || !clock'.steady || (timers == map[] && fired == [])
    ensures History(timers, lastId, fired, book', clock')
  {
    forall id | id in book'.birth ensures EntryOk(id, timers, fired, book', clock') {
      assert EntryOk(id, timers, fired, book, clock);
    }
    forall k | 0 <= k < |fired| ensures FiringOk(k, fired, book', clock') {
      assert FiringOk(k, fired, book, clock);
    }
  }

  lemma ServeEnds(s: Snapshot, w: WheelIndex, b: nat)
    requires ValidSlot(w, b) && Consistent(s, w + 1, w, b, NO_TIMER) && Bucket(s.wheels, w, b) == []
    ensures Consistent(s, w + 1, -1, 0, NO_TIMER)
    ensures CarryPending(s.tick, w + 1) <==> s.wheels[w].current == 0 && w + 1 < WHEEL_NUM
  {
    DrainedKeepsDues(s.wheels, s.timers, s.book.due, s.book.served, s.tick, w, b);
    WrapsAtLastBucket(s, w, b);
  }

  /** A wheel that has not wrapped ends the tick for those above. */
  lemma TickEnds(s: Snapshot, level: nat)
    requires Consistent(s, level, -1, 0, NO_TIMER) && !CarryPending(s.tick, level)
    ensures Consistent(s, WHEEL_NUM, -1, 0, NO_TIMER)
  {
    SkipWheels(s.book.served, s.tick, level);
  }

  function StartOf(s: Snapshot): TickStart {
    TickStart(s.book.due, s.fired, s.book.birth, s.book.cancelled.Keys)
  }

  lemma TickBegins(s: Snapshot, now: Timestamp)
    requires Consistent(s, WHEEL_NUM, -1, 0, NO_TIMER)
    ensures Consistent(s.(tick := s.tick + 1), 0, -1, 0, NO_TIMER) && CarryPending(s.tick + 1, 0)
    ensures Progress(StartOf(s), s.fired, s.book, s.tick + 1, now)
  {
    forall id | id in s.timers ensures DueOk(s.timers[id], s.book.due[id], s.book.served, s.tick + 1, -1, 0) {
      assert DueOk(s.timers[id], s.book.due[id], s.book.served, s.tick, -1, 0);
    }
    forall id | id in s.book.due ensures Handled(id, StartOf(s), s.fired, s.book, s.tick + 1, now) {
      PendingIsLater(s, id);
    }
  }

  ghost predicate CalledAt(fired: seq<Firing>, from: nat, id: int, tick: nat) {
    exists k :: from <= k < |fired| && fired[k].id == id && fired[k].tick == tick
  }

  /** What a call of OnExpired, up to tick s.tick so far, did with a timer that was
      pending before and that no callback has stopped: not due yet, it keeps its due
      tick; before its expire timestamp, it is put off to the next tick; otherwise it
      was called in its due tick. */
  ghost predicate Outcome(id: int, start: TickStart, s: Snapshot, now: Timestamp)
    requires id in start.due && id in start.birth
  {
    || id in s.book.cancelled
    || if s.tick < start.due[id] then id in s.book.due && s.book.due[id] == start.due[id]
       else if now.Less(start.birth[id].expire) then id in s.book.due && s.book.due[id] == s.tick + 1
       else CalledAt(s.fired, |start.fired|, id, start.due[id])
  }

  ghost predicate CallProgress(start: TickStart, from: nat, s: Snapshot, now: Timestamp) {
    && start.due.Keys <= start.birth.Keys <= s.book.birth.Keys
    && (forall id :: id in start.birth ==> s.book.birth[id] == start.birth[id])
    && |start.fired| <= |s.fired| && s.fired[..|start.fired|] == start.fired
    && (forall k :: |start.fired| <= k < |s.fired| ==>
          && from < s.fired[k].tick <= s.tick && s.fired[k].now == now
          && (s.fired[k].id in start.due ==> start.due[s.fired[k].id] <= s.fired[k].tick))
    && (forall id {:trigger Outcome(id, start, s, now)} :: id in start.due ==> Outcome(id, start, s, now))
  }

  lemma CallBegins(s: Snapshot, now: Timestamp)
    requires Consistent(s, WHEEL_NUM, -1, 0, NO_TIMER)
    ensures CallProgress(StartOf(s), s.tick, s, now)
  {
    forall id | id in s.book.due ensures Outcome(id, StartOf(s), s, now) {
      PendingIsLater(s, id);
    }
  }

  /** One more tick of the call. */
  lemma CallContinues(start: TickStart, from: nat, s: Snapshot, s': Snapshot, now: Timestamp)
    requires from <= s.tick && CallProgress(start, from, s, now) && Consistent(s, WHEEL_NUM, -1, 0, NO_TIMER)
    requires s'.tick == s.tick + 1 && Consistent(s', WHEEL_NUM, -1, 0, NO_TIMER)
    requires Progress(StartOf(s), s'.fired, s'.book, s'.tick, now)
    ensures CallProgress(start, from, s', now)
  {
    assert s'.fired[..|s.fired|] == s.fired;
    assert s'.fired[..|start.fired|] == s.fired[..|start.fired|];
    forall k | |start.fired| <= k < |s'.fired| && s'.fired[k].id in start.due
      ensures start.due[s'.fired[k].id] <= s'.fired[k].tick
    {
      if k < |s.fired| {
        assert s'.fired[k] == s.fired[k];
      } else {
        var id := s'.fired[k].id;
        assert Outcome(id, start, s, now);
        assert EntryOk(id, s.timers, s.fired, s.book, s.clock);
      }
    }
    forall id | id in start.due ensures Outcome(id, start, s', now) {
      assert Outcome(id, start, s, now);
      if CalledAt(s.fired, |start.fired|, id, start.due[id]) {
        var k :| |start.fired| <= k < |s.fired| && s.fired[k].id == id && s.fired[k].tick == start.due[id];
        assert s'.fired[k] == s.fired[k];
        assert FiringOk(k, s.fired, s.book, s.clock);
      } else if id !in s.book.cancelled {
        OutcomeContinues(id, start, s, s', now);
      }
    }
  }

  lemma OutcomeContinues(id: int, start: TickStart, s: Snapshot, s': Snapshot, now: Timestamp)
    requires id in start.due && id in start.birth && id in s.book.due && id in s.book.birth
    requires s.book.birth[id] == start.birth[id] && |start.fired| <= |s.fired|
    requires Outcome(id, start, s, now) && id !in s.book.cancelled && !CalledAt(s.fired, |start.fired|, id, start.due[id])
    requires s'.tick == s.tick + 1 && Consistent(s', WHEEL_NUM, -1, 0, NO_TIMER)
    requires Progress(StartOf(s), s'.fired, s'.book, s'.tick, now)
    ensures Outcome(id, start, s', now)
  {
    assert Handled(id, StartOf(s), s'.fired, s'.book, s'.tick, now);
    if id in s'.timers {
      PendingIsLater(s', id);
    }
    if FiredSince(s'.fired, |s.fired|, id) {
      var k :| |s.fired| <= k < |s'.fired| && s'.fired[k].id == id;
      assert s'.fired[k].tick == s'.tick && s'.fired[k].now == now;
      assert FiringOk(k, s'.fired, s'.book, s'.clock);
    }
  }

  /** Between ticks every pending timer is due in a later tick. */
  lemma PendingIsLater(s: Snapshot, id: int)
    requires Consistent(s, WHEEL_NUM, -1, 0, NO_TIMER) && id in s.timers
    ensures s.tick < s.book.due[id]
  {
    assert EntryOk(id, s.timers, s.fired, s.book, s.clock);
    var t := s.timers[id];
    assert DueOk(t, s.book.due[id], s.book.served, s.tick, -1, 0);
    DivMod(s.tick, Step(t.wheel));
    ServiceTickIsProduct(ServiceOf(s.book.served[t.wheel], t.wheel, t.bucket), t.wheel);
    MulMonotone(s.book.served[t.wheel] + 1, ServiceOf(s.book.served[t.wheel], t.wheel, t.bucket), Step(t.wheel));
    Distribute(s.book.served[t.wheel], 1, Step(t.wheel));
  }
}
