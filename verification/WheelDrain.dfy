/** Draining a bucket: what one round of it does, and when it comes to an end.  A
    timer without period goes back into the bucket of the first wheel it came out of,
    so the bucket need not get shorter. */
module WheelDrain {
  import opened Arithmetic
  import opened Timestamps
  import opened WheelArithmetic
  import opened TimerLedger
  import opened WheelBuckets
  import opened WheelState

  // ----- one round -----

  /** The bucket just left by the cursor of wheel w, with timers that fit the wheels. */
  ghost predicate Drainable(s: Snapshot, w: int, b: int) {
    && 0 <= w && Cursors(s.wheels, s.book.served) && Draining(s.wheels, w, b, s.tick, w + 1)
    && NoDuplicates(Bucket(s.wheels, w, b))
    && forall k :: 0 <= k < |Bucket(s.wheels, w, b)| ==> InBucket(s, Bucket(s.wheels, w, b)[k], w, b)
  }

  ghost predicate InBucket(s: Snapshot, id: int, w: int, b: int) {
    id in s.timers && s.timers[id].id == id && s.timers[id].wheel == w && s.timers[id].bucket == b && Fits(s.timers[id])
  }

  predicate Fits(t: Timer) {
    StepValues();
    t.undoTickCounts < Step(WHEEL_NUM) && t.expireTickCounts < Step(WHEEL_NUM)
  }

  predicate CallsAgain(t: Timer) { t.callTimes < 0 || 0 < t.callTimes - 1 }

  /** The timer taken out is called: re-armed if it has calls left, dropped if not. */
  function Counted(s: Snapshot, id: int, w: nat, now: Timestamp): Snapshot
    requires Shape(s.wheels) && |s.book.served| == WHEEL_NUM && id in s.timers && Fits(s.timers[id])
  {
    var t := s.timers[id];
    if CallsAgain(t) then
      RearmedState(s, id, Placed(Recounted(t), s.book.served, t.expireTickCounts), NextDue(s.tick, w + 1, t.expireTickCounts), now)
    else
      RetiredState(s, id, now)
  }

  /** One round up to the callback: the first timer of the bucket is taken out and
      placed by its left-over ticks, put off, or called. */
  function Round(s: Snapshot, w: nat, b: nat, now: Timestamp): Snapshot
    requires Drainable(s, w, b) && Bucket(s.wheels, w, b) != []
  {
    var id, popped := Bucket(s.wheels, w, b)[0], PoppedState(s, w, b);
    var t := s.timers[id];
    if 0 < t.undoTickCounts || now.Less(t.expireTimestamp) then Postponed(popped, id) else Counted(popped, id, w, now)
  }

  /** With left-over ticks the timer is placed by them; without, it is put off a tick. */
  function Postponed(s: Snapshot, id: int): Snapshot
    requires Shape(s.wheels) && |s.book.served| == WHEEL_NUM && id in s.timers && Fits(s.timers[id])
  {
    if 0 < s.timers[id].undoTickCounts then
      var t := Placed(s.timers[id], s.book.served, s.timers[id].undoTickCounts);
      s.(wheels := Filing(s.wheels, t), timers := s.timers[id := t])
    else
      NextTick();
      RetriedState(s, Placed(s.timers[id], s.book.served, 1))
  }

  lemma NextTick()
    ensures 1 < Step(WHEEL_NUM)
  {
    StepValues();
  }

  /** A round that ends with the timer back in the bucket. */
  predicate Stays(t: Timer, w: nat, now: Timestamp) {
    w == 0 && t.undoTickCounts == 0 && !now.Less(t.expireTimestamp) && t.expireTickCounts == 0 && CallsAgain(t)
  }

  /** Exactly a called timer without period that has calls left goes back into the
      bucket, which is then one of the first wheel, and with one call less to go. */
  lemma RoundReturns(s: Snapshot, w: nat, b: nat, now: Timestamp)
    requires Drainable(s, w, b) && Bucket(s.wheels, w, b) != []
    ensures var ids := Bucket(s.wheels, w, b); var s' := Round(s, w, b, now);
      && Cursors(s'.wheels, s'.book.served) && s'.book.served == s.book.served && s'.tick == s.tick
      && Bucket(s'.wheels, w, b) == ids[1..] + (if Stays(s.timers[ids[0]], w, now) then [ids[0]] else [])
      && (forall id :: id in s.timers && id != ids[0] ==> id in s'.timers && s'.timers[id] == s.timers[id])
      && (Stays(s.timers[ids[0]], w, now) ==> ids[0] in s'.timers && s'.timers[ids[0]] == Recounted(s.timers[ids[0]]))
  {
    var ids := Bucket(s.wheels, w, b);
    var id, popped := ids[0], PoppedState(s, w, b);
    assert InBucket(s, id, w, b);
    var t := s.timers[id];
    assert ids[1..] + [] == ids[1..];
    if 0 < t.undoTickCounts {
      PlaceReturns(popped, t, w, b, t.undoTickCounts);
    } else if now.Less(t.expireTimestamp) {
      NextTick();
      PlaceReturns(popped, t, w, b, 1);
    } else if CallsAgain(t) {
      PlaceReturns(popped, Recounted(t), w, b, t.expireTickCounts);
    }
  }

  /** A placement comes back into the drained bucket exactly without delay, on the
      first wheel. */
  lemma PlaceReturns(s: Snapshot, t: Timer, w: nat, b: nat, ticks: nat)
    requires Cursors(s.wheels, s.book.served) && Draining(s.wheels, w, b, s.tick, w + 1) && ticks < Step(WHEEL_NUM)
    ensures var t' := Placed(t, s.book.served, ticks); var wheels' := Filing(s.wheels, t');
      && Cursors(wheels', s.book.served)
      && Bucket(wheels', w, b) == Bucket(s.wheels, w, b) + (if ticks == 0 && w == 0 then [t.id] else [])
      && (ticks == 0 && w == 0 ==> t'.wheel == w && t'.bucket == b && t'.undoTickCounts == 0)
  {
    IntoDrained(s.wheels, s.book.served, s.tick, w, b, w + 1, ticks);
    NoDelay(s.book.served);
    assert Bucket(s.wheels, w, b) + [] == Bucket(s.wheels, w, b);
  }

  /** No timer is started or stopped. */
  ghost predicate SameNames(s: Snapshot, s': Snapshot) {
    && s'.clock == s.clock && s'.lastId == s.lastId && s'.tick == s.tick
    && s'.book.birth == s.book.birth && s'.book.cancelled == s.book.cancelled && s'.timers.Keys <= s.timers.Keys
  }

  lemma CountKeepsNames(s: Snapshot, id: int, w: nat, now: Timestamp)
    requires Shape(s.wheels) && |s.book.served| == WHEEL_NUM && id in s.timers && Fits(s.timers[id])
    ensures var s' := Counted(s, id, w, now);
      SameNames(s, s') && s'.fired == s.fired + [Firing(id, s.tick, now)]
  {}

  lemma PostponeKeepsNames(s: Snapshot, id: int)
    requires Shape(s.wheels) && |s.book.served| == WHEEL_NUM && id in s.timers && s.timers[id].id == id && Fits(s.timers[id])
    ensures var s' := Postponed(s, id);
      SameNames(s, s') && s'.fired == s.fired
  {}

  /** A round starts and stops no timer, and calls at most the one taken out. */
  lemma RoundKeepsNames(s: Snapshot, w: nat, b: nat, now: Timestamp)
    requires Drainable(s, w, b) && Bucket(s.wheels, w, b) != []
    ensures var s' := Round(s, w, b, now);
      && SameNames(s, s')
      && (s'.fired == s.fired
          || (s'.fired == s.fired + [Firing(Bucket(s.wheels, w, b)[0], s.tick, now)] && Bucket(s.wheels, w, b)[0] in s.timers))
  {
    var id, popped := Bucket(s.wheels, w, b)[0], PoppedState(s, w, b);
    assert InBucket(s, id, w, b);
    var t := s.timers[id];
    if 0 < t.undoTickCounts || now.Less(t.expireTimestamp) {
      PostponeKeepsNames(popped, id);
    } else {
      CountKeepsNames(popped, id, w, now);
    }
  }

  lemma RoundKeepsDrainable(s: Snapshot, w: nat, b: nat, now: Timestamp)
    requires Drainable(s, w, b) && Bucket(s.wheels, w, b) != []
    ensures Drainable(Round(s, w, b, now), w, b)
  {
    var ids := Bucket(s.wheels, w, b);
    RoundReturns(s, w, b, now);
    TailMembers(ids);
    AppendMembers(ids[1..], ids[0]);
    assert InBucket(s, ids[0], w, b);
    var s' := Round(s, w, b, now);
    forall k | 0 <= k < |Bucket(s'.wheels, w, b)| ensures InBucket(s', Bucket(s'.wheels, w, b)[k], w, b) {
      var id := Bucket(s'.wheels, w, b)[k];
      assert id in ids;
      assert InBucket(s, id, w, b);
    }
  }

  // ----- when the drain ends -----

  /** With callbacks that start and stop nothing, at most n rounds empty the bucket. */
  ghost predicate EndsIn(s: Snapshot, w: nat, b: nat, now: Timestamp, n: nat)
    requires Drainable(s, w, b)
    decreases n
  {
    Bucket(s.wheels, w, b) == [] || (0 < n && (RoundKeepsDrainable(s, w, b, now); EndsIn(Round(s, w, b, now), w, b, now, n - 1)))
  }

  /** No period, no limit, and its time has come. */
  predicate Endless(t: Timer, w: nat, now: Timestamp) {
    Stays(t, w, now) && t.callTimes < 0
  }

  ghost predicate NoneEndless(s: Snapshot, w: nat, b: nat, now: Timestamp)
    requires Drainable(s, w, b)
  {
    forall k :: 0 <= k < |Bucket(s.wheels, w, b)| ==>
      (assert InBucket(s, Bucket(s.wheels, w, b)[k], w, b); !Endless(s.timers[Bucket(s.wheels, w, b)[k]], w, now))
  }

  /** The drain of a bucket comes to an end if and only if no timer in it is without
      period and without limit, and due. */
  lemma DrainEnds(s: Snapshot, w: nat, b: nat, now: Timestamp)
    requires Drainable(s, w, b)
    ensures (exists n: nat :: EndsIn(s, w, b, now, n))
       <==> NoneEndless(s, w, b, now)
  {
    if NoneEndless(s, w, b, now) {
      var n: nat := Load(s, w, b) + |Bucket(s.wheels, w, b)|;
      LimitedEnd(s, w, b, now, n);
      assert exists n: nat :: EndsIn(s, w, b, now, n);
    } else {
      var k :| 0 <= k < |Bucket(s.wheels, w, b)| && Endless(s.timers[Bucket(s.wheels, w, b)[k]], w, now);
      forall n: nat ensures !EndsIn(s, w, b, now, n) {
        EndlessReturns(s, w, b, now, Bucket(s.wheels, w, b)[k], n);
      }
    }
  }

  /** The bucket being drained of a consistent wheel, and no timer in it is endless. */
  lemma ConsistentDrains(s: Snapshot, w: WheelIndex, b: nat)
    requires Consistent(s, w + 1, w, b, NO_TIMER)
    ensures Drainable(s, w, b) && forall now :: NoneEndless(s, w, b, now)
  {
    assert FiledAt(s.wheels, s.timers, NO_TIMER, w, b);
    UndoFits(w);
    forall k | 0 <= k < |Bucket(s.wheels, w, b)|
      ensures InBucket(s, Bucket(s.wheels, w, b)[k], w, b)
      ensures var t := s.timers[Bucket(s.wheels, w, b)[k]]; t.expireTickCounts == 0 ==> 0 <= t.callTimes
    {
      var id := Bucket(s.wheels, w, b)[k];
      assert id in Bucket(s.wheels, w, b);
      assert EntryOk(id, s.timers, s.fired, s.book, s.clock);
    }
  }

  /** A round may begin: the timer to take out is in order, and not endless. */
  lemma RoundBegins(s: Snapshot, w: WheelIndex, b: nat)
    requires Consistent(s, w + 1, w, b, NO_TIMER) && ValidSlot(w, b) && Bucket(s.wheels, w, b) != []
    ensures Drainable(s, w, b) && forall now :: NoneEndless(s, w, b, now)
    ensures var id, s' := Bucket(s.wheels, w, b)[0], PoppedState(s, w, b);
      && Consistent(s', w + 1, w, b, id) && InBucket(s', id, w, b)
      && InPlace(s.timers[id]) && id in s.book.due && s.book.due[id] == s.tick + s.timers[id].undoTickCounts
  {
    ConsistentDrains(s, w, b);
    PopKeeps(s, w, b);
    assert InBucket(s, Bucket(s.wheels, w, b)[0], w, b);
  }

  lemma {:induction false} EndlessReturns(s: Snapshot, w: nat, b: nat, now: Timestamp, id: int, n: nat)
    requires Drainable(s, w, b) && id in Bucket(s.wheels, w, b) && Endless(s.timers[id], w, now)
    ensures !EndsIn(s, w, b, now, n)
    decreases n
  {
    if 0 < n {
      RoundReturns(s, w, b, now);
      RoundKeepsDrainable(s, w, b, now);
      TailMembers(Bucket(s.wheels, w, b));
      EndlessReturns(Round(s, w, b, now), w, b, now, id, n - 1);
    }
  }

  // ----- what is left to do in a bucket -----

  /** The calls of a timer without period all come in the tick in which it is due. */
  function CallsIn(t: Timer): nat {
    if t.expireTickCounts == 0 then Allowed(t.callTimes) else 0
  }

  function CallsLeft(ids: seq<int>, timers: map<int, Timer>): nat {
    if ids == [] then 0
    else (if ids[0] in timers then CallsIn(timers[ids[0]]) else 0) + CallsLeft(ids[1..], timers)
  }

  function Load(s: Snapshot, w: int, b: int): nat
    requires Shape(s.wheels) && ValidSlot(w, b)
  {
    CallsLeft(Bucket(s.wheels, w, b), s.timers)
  }

  ghost predicate SameIn(id: int, timers: map<int, Timer>, timers': map<int, Timer>) {
    if id in timers then id in timers' && timers'[id] == timers[id] else id !in timers'
  }

  lemma {:induction false} SameCalls(ids: seq<int>, timers: map<int, Timer>, timers': map<int, Timer>)
    requires forall k :: 0 <= k < |ids| ==> SameIn(ids[k], timers, timers')
    ensures CallsLeft(ids, timers) == CallsLeft(ids, timers')
  {
    if ids != [] {
      assert SameIn(ids[0], timers, timers');
      SameCalls(ids[1..], timers, timers');
    }
  }

  lemma {:induction false} AppendCalls(ids: seq<int>, id: int, timers: map<int, Timer>)
    requires id in timers
    ensures CallsLeft(ids + [id], timers) == CallsLeft(ids, timers) + CallsIn(timers[id])
  {
    if ids == [] {
      assert ids + [id] == [id] && [id][1..] == [];
    } else {
      AppendCalls(ids[1..], id, timers);
      assert (ids + [id])[1..] == ids[1..] + [id];
    }
  }

  lemma {:induction false} WithoutCalls(ids: seq<int>, id: int, timers: map<int, Timer>)
    ensures CallsLeft(Without(ids, id), timers) <= CallsLeft(ids, timers)
  {
    if ids != [] && ids[0] != id {
      WithoutCalls(ids[1..], id, timers);
      assert ([ids[0]] + Without(ids[1..], id))[1..] == Without(ids[1..], id);
    }
  }

  /** A round takes calls off the bucket, or makes it shorter. */
  lemma RoundSpends(s: Snapshot, w: nat, b: nat, now: Timestamp)
    requires Drainable(s, w, b) && Bucket(s.wheels, w, b) != []
    ensures var s', t := Round(s, w, b, now), s.timers[Bucket(s.wheels, w, b)[0]];
      && Shape(s'.wheels)
      && if Stays(t, w, now)
         then Load(s', w, b) == Load(s, w, b) - (if t.callTimes < 0 then 0 else 1) && |Bucket(s'.wheels, w, b)| == |Bucket(s.wheels, w, b)|
         else Load(s', w, b) == Load(s, w, b) - CallsIn(t) && |Bucket(s'.wheels, w, b)| == |Bucket(s.wheels, w, b)| - 1
  {
    var ids, s' := Bucket(s.wheels, w, b), Round(s, w, b, now);
    assert InBucket(s, ids[0], w, b);
    RoundReturns(s, w, b, now);
    TailMembers(ids);
    forall id | id in ids[1..] ensures id in s.timers && id in s'.timers && s'.timers[id] == s.timers[id] {
      assert InBucket(s, id, w, b);
    }
    SameCalls(ids[1..], s.timers, s'.timers);
    if Stays(s.timers[ids[0]], w, now) {
      AppendCalls(ids[1..], ids[0], s'.timers);
    } else {
      assert ids[1..] + [] == ids[1..];
    }
  }

  lemma RoundKeepsLimits(s: Snapshot, w: nat, b: nat, now: Timestamp)
    requires Drainable(s, w, b) && Bucket(s.wheels, w, b) != [] && NoneEndless(s, w, b, now)
    ensures Drainable(Round(s, w, b, now), w, b) && NoneEndless(Round(s, w, b, now), w, b, now)
  {
    var ids, s' := Bucket(s.wheels, w, b), Round(s, w, b, now);
    RoundReturns(s, w, b, now);
    RoundKeepsDrainable(s, w, b, now);
    forall k | 0 <= k < |Bucket(s'.wheels, w, b)| ensures !Endless(s'.timers[Bucket(s'.wheels, w, b)[k]], w, now) {
      var id := Bucket(s'.wheels, w, b)[k];
      if k < |ids| - 1 {
        assert id == ids[k + 1] && ids[0] != ids[k + 1];
      } else {
        assert id == ids[0];
      }
    }
  }

  lemma RoundShortens(s: Snapshot, w: nat, b: nat, now: Timestamp)
    requires Drainable(s, w, b) && Bucket(s.wheels, w, b) != [] && NoneEndless(s, w, b, now)
    ensures var s' := Round(s, w, b, now);
      Shape(s'.wheels) && Load(s', w, b) + |Bucket(s'.wheels, w, b)| < Load(s, w, b) + |Bucket(s.wheels, w, b)|
  {
    RoundSpends(s, w, b, now);
    assert InBucket(s, Bucket(s.wheels, w, b)[0], w, b);
  }

  lemma {:induction false} LimitedEnd(s: Snapshot, w: nat, b: nat, now: Timestamp, n: nat)
    requires Drainable(s, w, b) && NoneEndless(s, w, b, now) && Load(s, w, b) + |Bucket(s.wheels, w, b)| <= n
    ensures EndsIn(s, w, b, now, n)
    decreases n
  {
    if Bucket(s.wheels, w, b) != [] {
      RoundKeepsLimits(s, w, b, now);
      RoundShortens(s, w, b, now);
      LimitedEnd(Round(s, w, b, now), w, b, now, n - 1);
    }
  }

  // ----- with callbacks that start and stop timers -----

  /** From s to s' the bucket did not get fuller, but for fewer than n calls. */
  ghost predicate Grows(s: Snapshot, s': Snapshot, w: int, b: int, n: nat) {
    && Shape(s.wheels) && Shape(s'.wheels)
    && (ValidSlot(w, b) ==>
          if n == 0 then Load(s', w, b) <= Load(s, w, b) && |Bucket(s'.wheels, w, b)| <= |Bucket(s.wheels, w, b)|
          else Load(s', w, b) < Load(s, w, b) + n)
  }

  lemma GrowsOn(s: Snapshot, s': Snapshot, s'': Snapshot, w: int, b: int, m: nat, n: nat)
    requires Grows(s, s', w, b, m) && Grows(s', s'', w, b, n)
    ensures Grows(s, s'', w, b, m + n)
  {}

  lemma CancelGrows(s: Snapshot, id: int, w: int, b: int)
    requires Filed(s.wheels, s.timers, NO_TIMER) && id in s.timers && s.timers[id].id == id
    ensures ValidSlot(s.timers[id].wheel, s.timers[id].bucket)
    ensures Grows(s, CancelledState(s, id), w, b, 0)
  {
    var t := s.timers[id];
    assert ValidSlot(t.wheel, t.bucket);
    if ValidSlot(w, b) {
      var ids := Bucket(s.wheels, w, b);
      assert FiledAt(s.wheels, s.timers, NO_TIMER, w, b);
      WithoutMembers(ids, id);
      WithoutCalls(ids, id, s.timers);
      var ids' := if t.wheel == w && t.bucket == b then Without(ids, id) else ids;
      forall k | 0 <= k < |ids'| ensures SameIn(ids'[k], s.timers, s.timers - {id}) {
        assert ids'[k] in ids' && (t.wheel == w && t.bucket == b ==> ids'[k] != id);
      }
      SameCalls(ids', s.timers, s.timers - {id});
    }
  }

  lemma StartGrows(s: Snapshot, t: Timer, birth: Birth, w: int, b: int)
    requires Filed(s.wheels, s.timers, NO_TIMER) && t.id !in s.timers && ValidSlot(t.wheel, t.bucket)
    ensures Grows(s, StartedState(s, t, birth), w, b, if t.wheel == w && t.bucket == b then 1 + CallsIn(t) else 0)
  {
    if ValidSlot(w, b) {
      var ids := Bucket(s.wheels, w, b);
      assert FiledAt(s.wheels, s.timers, NO_TIMER, w, b);
      forall k | 0 <= k < |ids| ensures SameIn(ids[k], s.timers, s.timers[t.id := t]) {
        assert ids[k] in ids;
      }
      SameCalls(ids, s.timers, s.timers[t.id := t]);
      AppendCalls(ids, t.id, s.timers[t.id := t]);
    }
  }

  /** Calls to come in the tick, until the first of them is made. */
  function Opening(s: Snapshot): nat {
    if s.fired != [] && s.fired[|s.fired| - 1].tick == s.tick then 0 else 1
  }

  /** What makes a drain end: a first call in the tick, then calls left in the bucket
      or to be started by callbacks, of which there are `quota`, then timers. */
  ghost predicate Shrinks(quota: seq<Firing> -> nat, s: Snapshot, s': Snapshot, w: int, b: int)
    requires Shape(s.wheels) && Shape(s'.wheels) && ValidSlot(w, b)
  {
    var left, left' := quota(s.fired) + Load(s, w, b), quota(s'.fired) + Load(s', w, b);
    || Opening(s') < Opening(s)
    || (Opening(s') == Opening(s)
        && (left' < left || (left' == left && |Bucket(s'.wheels, w, b)| < |Bucket(s.wheels, w, b)|)))
  }

  /** A round without a call. */
  lemma QuietRoundShrinks(quota: seq<Firing> -> nat, s: Snapshot, w: nat, b: nat, now: Timestamp)
    requires Drainable(s, w, b) && Bucket(s.wheels, w, b) != [] && Round(s, w, b, now).fired == s.fired
    ensures Shape(Round(s, w, b, now).wheels) && Shrinks(quota, s, Round(s, w, b, now), w, b)
  {
    assert InBucket(s, Bucket(s.wheels, w, b)[0], w, b);
    RoundSpends(s, w, b, now);
  }

  /** A round with a call, whose callback may start timers for less than n calls. */
  lemma CallShrinks(quota: seq<Firing> -> nat, s: Snapshot, s': Snapshot, w: nat, b: nat, now: Timestamp, n: nat)
    requires Drainable(s, w, b) && Bucket(s.wheels, w, b) != []
    requires !Endless(s.timers[Bucket(s.wheels, w, b)[0]], w, now)
    requires var mid := Round(s, w, b, now);
      && |mid.fired| == |s.fired| + 1 && mid.fired[|s.fired|].tick == s.tick
      && s'.fired == mid.fired && s'.tick == s.tick && Grows(mid, s', w, b, n)
    requires Opening(s) == 0 ==> n + quota(s'.fired) <= quota(s.fired)
    ensures Shrinks(quota, s, s', w, b)
  {
    assert InBucket(s, Bucket(s.wheels, w, b)[0], w, b);
    RoundSpends(s, w, b, now);
  }
}
