/** The five wheels as buckets of timer ids, and where each pending timer is filed. */
module WheelBuckets {
  import opened Arithmetic
  import opened WheelArithmetic
  import opened TimerLedger

  datatype Wheel = Wheel(current: nat, buckets: seq<seq<int>>)

  ghost predicate Shape(wheels: seq<Wheel>) {
    && |wheels| == WHEEL_NUM
    && forall w :: 0 <= w < WHEEL_NUM ==> wheels[w].current < BucketNum(w) == |wheels[w].buckets|
  }

  predicate ValidSlot(w: int, b: int) {
    0 <= w < WHEEL_NUM && 0 <= b < BucketNum(w)
  }

  function Bucket(wheels: seq<Wheel>, w: int, b: int): seq<int>
    requires Shape(wheels) && ValidSlot(w, b)
  {
    wheels[w].buckets[b]
  }

  function SetBucket(wheels: seq<Wheel>, w: int, b: int, ids: seq<int>): (wheels': seq<Wheel>)
    requires Shape(wheels) && ValidSlot(w, b)
    ensures Shape(wheels')
    ensures forall v, c :: ValidSlot(v, c) ==> Bucket(wheels', v, c) == if v == w && c == b then ids else Bucket(wheels, v, c)
    ensures forall v :: 0 <= v < WHEEL_NUM ==> wheels'[v].current == wheels[v].current
  {
    wheels[w := wheels[w].(buckets := wheels[w].buckets[b := ids])]
  }

  ghost predicate Cursors(wheels: seq<Wheel>, served: seq<nat>) {
    && Shape(wheels) && |served| == WHEEL_NUM
    && forall w :: 0 <= w < WHEEL_NUM ==> wheels[w].current == served[w] % BucketNum(w)
  }

  ghost predicate NoDuplicates(ids: seq<int>) {
    forall j, k :: 0 <= j < k < |ids| ==> ids[j] != ids[k]
  }

  /** Bucket b of wheel w holds exactly the timers that record it as their place,
      each once; `inFlight` is a timer just taken out. */
  ghost predicate FiledAt(wheels: seq<Wheel>, timers: map<int, Timer>, inFlight: int, w: int, b: int)
    requires Shape(wheels) && ValidSlot(w, b)
  {
    && NoDuplicates(Bucket(wheels, w, b))
    && forall id {:trigger id in Bucket(wheels, w, b)} :: id in Bucket(wheels, w, b) <==>
         id in timers && id != inFlight && timers[id].wheel == w && timers[id].bucket == b
  }

  ghost predicate Filed(wheels: seq<Wheel>, timers: map<int, Timer>, inFlight: int) {
    && Shape(wheels) && NO_TIMER !in timers
    && (forall w, b {:trigger FiledAt(wheels, timers, inFlight, w, b)} ::
          ValidSlot(w, b) ==> FiledAt(wheels, timers, inFlight, w, b))
    && forall id {:trigger ValidSlot(timers[id].wheel, timers[id].bucket)} ::
         id in timers && id != inFlight ==> ValidSlot(timers[id].wheel, timers[id].bucket)
  }

  /** Erase an id from a bucket. */
  function Without(ids: seq<int>, id: int): seq<int> {
    if ids == [] then [] else if ids[0] == id then ids[1..] else [ids[0]] + Without(ids[1..], id)
  }

  function Filing(wheels: seq<Wheel>, t: Timer): seq<Wheel>
    requires Shape(wheels) && ValidSlot(t.wheel, t.bucket)
  {
    SetBucket(wheels, t.wheel, t.bucket, Bucket(wheels, t.wheel, t.bucket) + [t.id])
  }

  function Unfiling(wheels: seq<Wheel>, t: Timer): seq<Wheel>
    requires Shape(wheels) && ValidSlot(t.wheel, t.bucket)
  {
    SetBucket(wheels, t.wheel, t.bucket, Without(Bucket(wheels, t.wheel, t.bucket), t.id))
  }

  /** File a timer that is in no bucket: a new one or the one in flight. */
  lemma FileTimer(wheels: seq<Wheel>, timers: map<int, Timer>, inFlight: int, t: Timer)
    requires Filed(wheels, timers, inFlight) && ValidSlot(t.wheel, t.bucket) && t.id != NO_TIMER
    requires t.id == inFlight || (inFlight == NO_TIMER && t.id !in timers)
    ensures Filed(Filing(wheels, t), timers[t.id := t], NO_TIMER)
  {
    var wheels' := Filing(wheels, t);
    forall w, b | ValidSlot(w, b) ensures FiledAt(wheels', timers[t.id := t], NO_TIMER, w, b) {
      assert FiledAt(wheels, timers, inFlight, w, b);
      if w == t.wheel && b == t.bucket {
        AppendMembers(Bucket(wheels, w, b), t.id);
      }
    }
  }

  lemma AppendMembers(ids: seq<int>, id: int)
    requires NoDuplicates(ids) && id !in ids
    ensures NoDuplicates(ids + [id])
    ensures forall i :: i in ids + [id] <==> i in ids || i == id
  {}

  /** Take the first timer out of a bucket. */
  lemma PopTimer(wheels: seq<Wheel>, timers: map<int, Timer>, w: int, b: int)
    requires Filed(wheels, timers, NO_TIMER) && ValidSlot(w, b) && Bucket(wheels, w, b) != []
    ensures var ids := Bucket(wheels, w, b);
      && Filed(SetBucket(wheels, w, b, ids[1..]), timers, ids[0])
      && ids[0] in timers && timers[ids[0]].wheel == w && timers[ids[0]].bucket == b
  {
    var ids := Bucket(wheels, w, b);
    var wheels' := SetBucket(wheels, w, b, ids[1..]);
    assert ids[0] in ids;
    assert FiledAt(wheels, timers, NO_TIMER, w, b);
    forall v, c | ValidSlot(v, c) ensures FiledAt(wheels', timers, ids[0], v, c) {
      assert FiledAt(wheels, timers, NO_TIMER, v, c);
      if v == w && c == b {
        TailMembers(ids);
      }
    }
  }

  lemma TailMembers(ids: seq<int>)
    requires ids != [] && NoDuplicates(ids)
    ensures NoDuplicates(ids[1..])
    ensures forall id :: id in ids[1..] <==> id in ids && id != ids[0]
  {
    forall id | id in ids && id != ids[0] ensures id in ids[1..] {
      var k :| 0 <= k < |ids| && ids[k] == id;
      assert ids[1..][k - 1] == id;
    }
  }

  /** A timer in flight is dropped. */
  lemma DropTimer(wheels: seq<Wheel>, timers: map<int, Timer>, id: int)
    requires Filed(wheels, timers, id)
    ensures Filed(wheels, timers - {id}, NO_TIMER)
  {
    forall w, b | ValidSlot(w, b) ensures FiledAt(wheels, timers - {id}, NO_TIMER, w, b) {
      assert FiledAt(wheels, timers, id, w, b);
    }
  }

  lemma {:induction false} WithoutMembers(ids: seq<int>, id: int)
    requires NoDuplicates(ids)
    ensures NoDuplicates(Without(ids, id))
    ensures forall i :: i in Without(ids, id) <==> i in ids && i != id
    ensures |Without(ids, id)| <= |ids|
  {
    if ids == [] {
    } else if ids[0] == id {
      TailMembers(ids);
    } else {
      TailMembers(ids);
      WithoutMembers(ids[1..], id);
      var rest := Without(ids[1..], id);
      assert ids[0] !in rest;
      assert forall i :: i in [ids[0]] + rest <==> i == ids[0] || i in rest;
    }
  }

  /** A filed timer is taken out of its bucket and forgotten. */
  lemma UnfileTimer(wheels: seq<Wheel>, timers: map<int, Timer>, id: int)
    requires Filed(wheels, timers, NO_TIMER) && id in timers && timers[id].id == id
    ensures var t := timers[id];
      && ValidSlot(t.wheel, t.bucket)
      && Filed(Unfiling(wheels, t), timers - {id}, NO_TIMER)
  {
    var t := timers[id];
    var wheels' := Unfiling(wheels, t);
    forall w, b | ValidSlot(w, b) ensures FiledAt(wheels', timers - {id}, NO_TIMER, w, b) {
      assert FiledAt(wheels, timers, NO_TIMER, w, b);
      if w == t.wheel && b == t.bucket {
        WithoutMembers(Bucket(wheels, w, b), id);
      }
    }
  }

  /** The cursor of one wheel moves on. */
  function Advanced(wheels: seq<Wheel>, w: WheelIndex): (wheels': seq<Wheel>)
    requires Shape(wheels)
    ensures Shape(wheels')
    ensures forall v, c :: ValidSlot(v, c) ==> Bucket(wheels', v, c) == Bucket(wheels, v, c)
  {
    wheels[w := wheels[w].(current := (wheels[w].current + 1) % BucketNum(w))]
  }

  lemma AdvanceKeepsFiling(wheels: seq<Wheel>, timers: map<int, Timer>, w: WheelIndex)
    requires Filed(wheels, timers, NO_TIMER)
    ensures Filed(Advanced(wheels, w), timers, NO_TIMER)
  {
    forall v, c | ValidSlot(v, c) ensures FiledAt(Advanced(wheels, w), timers, NO_TIMER, v, c) {
      assert FiledAt(wheels, timers, NO_TIMER, v, c);
    }
  }

  // ----- due ticks -----

  /** When a filed timer is due: after the service of its bucket, which for the
      bucket being drained (of wheel dw, if dw is not negative) is now. */
  ghost predicate DueOk(t: Timer, due: nat, served: seq<nat>, T: nat, dw: int, db: int) {
    && ValidSlot(t.wheel, t.bucket) && |served| == WHEEL_NUM
    && due == if t.wheel == dw && t.bucket == db then T + t.undoTickCounts
              else DueTick(served[t.wheel], t.wheel, t.bucket, t.undoTickCounts)
  }

  ghost predicate Dues(timers: map<int, Timer>, due: map<int, nat>, served: seq<nat>, T: nat, dw: int, db: int, inFlight: int) {
    && due.Keys == timers.Keys
    && forall id {:trigger DueOk(timers[id], due[id], served, T, dw, db)} ::
         id in timers && id != inFlight ==> DueOk(timers[id], due[id], served, T, dw, db)
  }

  /** The timer in flight gets a new place and due tick. */
  lemma RefileKeepsDues(timers: map<int, Timer>, due: map<int, nat>, served: seq<nat>, T: nat, dw: int, db: int, t: Timer, d: nat)
    requires Dues(timers, due, served, T, dw, db, t.id) && DueOk(t, d, served, T, dw, db) && NO_TIMER !in timers
    ensures t.id != NO_TIMER ==> Dues(timers[t.id := t], due[t.id := d], served, T, dw, db, NO_TIMER)
  {
    var timers', due' := timers[t.id := t], due[t.id := d];
    forall i | i in timers' ensures DueOk(timers'[i], due'[i], served, T, dw, db) {
      if i != t.id {
        assert DueOk(timers[i], due[i], served, T, dw, db);
      }
    }
  }

  /** A new timer gets its place and due tick. */
  lemma FiledDues(timers: map<int, Timer>, due: map<int, nat>, served: seq<nat>, T: nat, dw: int, db: int, t: Timer, d: nat)
    requires Dues(timers, due, served, T, dw, db, NO_TIMER) && DueOk(t, d, served, T, dw, db) && NO_TIMER !in timers
    ensures Dues(timers[t.id := t], due[t.id := d], served, T, dw, db, NO_TIMER)
  {
    var timers', due' := timers[t.id := t], due[t.id := d];
    forall i | i in timers' ensures DueOk(timers'[i], due'[i], served, T, dw, db) {
      if i != t.id {
        assert DueOk(timers[i], due[i], served, T, dw, db);
      }
    }
  }

  /** The bucket being drained is the one the cursor has just left. */
  ghost predicate Draining(wheels: seq<Wheel>, dw: int, db: int, T: nat, level: nat) {
    dw < 0 || (Shape(wheels) && ValidSlot(dw, db) && level == dw + 1
               && wheels[dw].current == (db + 1) % BucketNum(dw) && T % Step(dw) == 0)
  }

  /** Serving wheel w brings the timers of its bucket up for handling. */
  lemma ServeKeepsDues(wheels: seq<Wheel>, timers: map<int, Timer>, due: map<int, nat>, served: seq<nat>, T: nat, w: WheelIndex)
    requires Cursors(wheels, served) && Dues(timers, due, served, T, -1, 0, NO_TIMER) && NO_TIMER !in timers
    requires ServiceTick(served[w] + 1, w) == T
    ensures Dues(timers, due, served[w := served[w] + 1], T, w, wheels[w].current, NO_TIMER)
  {
    var served' := served[w := served[w] + 1];
    forall id | id in timers
      ensures DueOk(timers[id], due[id], served', T, w, wheels[w].current)
    {
      assert DueOk(timers[id], due[id], served, T, -1, 0);
      ServeKeepsOneDue(timers[id], due[id], served, T, w);
    }
  }

  lemma ServeCounts(served: seq<nat>, T: nat, w: WheelIndex)
    requires CarryPending(T, w) && ServedUpTo(served, T, w)
    ensures ServiceTick(served[w] + 1, w) == T && served[w] + 1 == T / Step(w)
    ensures ServedUpTo(served[w := served[w] + 1], T, w + 1)
  {
    PreviousQuotient(T, Step(w));
    ServiceTickIsProduct(served[w] + 1, w);
  }

  lemma ServeKeepsOneDue(t: Timer, due: nat, served: seq<nat>, T: nat, w: WheelIndex)
    requires DueOk(t, due, served, T, -1, 0)
    requires ServiceTick(served[w] + 1, w) == T
    ensures DueOk(t, due, served[w := served[w] + 1], T, w, served[w] % BucketNum(w))
  {
    if t.wheel == w {
      ServeKeepsDue(served[w], w, t.bucket, t.undoTickCounts);
    }
  }

  /** An emptied bucket leaves no timer to which the draining rule applies. */
  lemma DrainedKeepsDues(wheels: seq<Wheel>, timers: map<int, Timer>, due: map<int, nat>, served: seq<nat>, T: nat, dw: int, db: int)
    requires Filed(wheels, timers, NO_TIMER) && ValidSlot(dw, db) && Bucket(wheels, dw, db) == []
    requires Dues(timers, due, served, T, dw, db, NO_TIMER)
    ensures Dues(timers, due, served, T, -1, 0, NO_TIMER)
  {
    assert FiledAt(wheels, timers, NO_TIMER, dw, db);
    forall id | id in timers ensures DueOk(timers[id], due[id], served, T, -1, 0) {
      assert DueOk(timers[id], due[id], served, T, dw, db);
      assert id !in Bucket(wheels, dw, db);
    }
  }

  /** A placement goes into the bucket being drained exactly when it has no delay and
      the bucket is one of the first wheel. */
  lemma IntoDrained(wheels: seq<Wheel>, served: seq<nat>, T: nat, dw: int, db: int, level: nat, ticks: nat)
    requires Cursors(wheels, served) && Draining(wheels, dw, db, T, level) && 0 <= dw
    requires ticks < Step(WHEEL_NUM)
    ensures WheelFor(ticks) == dw && PlacedBucket(served, ticks) == db <==> ticks == 0 && dw == 0
  {
    if WheelFor(ticks) == dw {
      if 0 < ticks {
        StepsOf(ticks);
      }
      JustBehind(Over(ticks, Step(dw)), wheels[dw].current, BucketNum(dw), db);
    }
  }

  /** Only no step at all ends just behind the cursor. */
  lemma JustBehind(steps: nat, current: nat, size: nat, b: nat)
    requires steps < size && b < size && current == (b + 1) % size
    ensures BucketFor(steps, current, size) == b <==> steps == 0
  {
    StepsAhead(steps, current, size);
    if b + 1 < size {
      Quotient(b + 1, size, 0, b + 1);
    }
  }

  /** A delay of at least one tick is between one step and a full turn of its wheel. */
  lemma StepsOf(ticks: nat)
    requires 1 <= ticks < Step(WHEEL_NUM)
    ensures var w := WheelFor(ticks); 1 <= ticks / Step(w) < BucketNum(w)
  {
    var w := WheelFor(ticks);
    var d, n := Step(w), BucketNum(w);
    DivMod(ticks, d);
    assert 1 <= ticks / d by { if ticks / d < 1 { MulMonotone(ticks / d, 0, d); } }
    assert ticks / d < n by { if n <= ticks / d { MulMonotone(n, ticks / d, d); } }
  }

  /** The due tick a placement gives. */
  lemma PlacementDue(t: Timer, wheels: seq<Wheel>, served: seq<nat>, T: nat, dw: int, db: int, level: nat, ticks: nat)
    requires Cursors(wheels, served) && ServedUpTo(served, T, level) && Draining(wheels, dw, db, T, level)
    requires ticks < Step(WHEEL_NUM) && (ticks == 0 ==> (level == 1 <==> dw == 0))
    requires t.wheel == WheelFor(ticks) && t.bucket == PlacedBucket(served, ticks) && t.undoTickCounts == PlacedUndo(served, ticks)
    ensures InPlace(t)
    ensures var early := Early(T, level, t.wheel);
      early <= T && DueOk(t, T - early + Wait(ticks, level), served, T, dw, db)
  {
    UndoIsBounded(served, ticks);
    PlacementIsExact(served, ticks);
    NoDelay(served);
    MidTickReading(served, T, level, t.wheel);
    if 0 <= dw {
      IntoDrained(wheels, served, T, dw, db, level, ticks);
    }
  }

  /** Without delay a placement is on the first wheel and leaves nothing over. */
  lemma NoDelay(served: seq<nat>)
    requires |served| == WHEEL_NUM
    ensures 0 < Step(WHEEL_NUM) && WheelFor(0) == 0 && PlacedUndo(served, 0) == 0
  {
    StepValues();
  }

  /** A fresh placement by its own period is settled: its wheel is long enough. */
  lemma PlacementSettles(t: Timer)
    requires t.expireTickCounts < Step(WHEEL_NUM) && t.wheel == WheelFor(t.expireTickCounts)
    ensures Settled(t)
  {}

  /** Re-filing the left-over ticks of a timer out of the drained bucket: it goes to
      the same or a lower wheel, and stays settled. */
  lemma HopSettles(t: Timer, t': Timer, wheels: seq<Wheel>, served: seq<nat>, T: nat, dw: int, db: int)
    requires Cursors(wheels, served) && 0 <= dw && Draining(wheels, dw, db, T, dw + 1) && ServedUpTo(served, T, dw + 1)
    requires InPlace(t) && t.wheel == dw && 1 <= t.undoTickCounts < Step(WHEEL_NUM)
    requires t' == t.(wheel := WheelFor(t.undoTickCounts), bucket := PlacedBucket(served, t.undoTickCounts),
                      undoTickCounts := PlacedUndo(served, t.undoTickCounts))
    ensures t'.wheel <= dw
    ensures Settled(t) ==> Settled(t')
  {
    var u := t.undoTickCounts;
    var j := WheelFor(u);
    assert j <= dw by {
      if dw < j {
        StepGrows(dw + 1, j);
        assert Step(dw + 1) == Step(dw) * BucketNum(dw);
        MulMonotone(2, BucketNum(dw), Step(dw));
      }
    }
    if Settled(t) && Step(j + 1) <= t.expireTickCounts {
      if j == dw {
        assert false;
      } else {
        LowerHop(served, T, dw, u);
      }
    }
  }

  lemma LowerHop(served: seq<nat>, T: nat, dw: int, u: nat)
    requires 0 <= dw < WHEEL_NUM && T % Step(dw) == 0 && ServedUpTo(served, T, dw + 1)
    requires 1 <= u < Step(WHEEL_NUM) && WheelFor(u) < dw
    ensures PlacedBucket(served, u) != BucketNum(WheelFor(u)) - 1
    ensures PlacedUndo(served, u) < Step(WheelFor(u))
  {
    var j := WheelFor(u);
    CarriedDigits(T, dw, j);
    assert served[j] % BucketNum(j) == 0;
    forall i | 0 <= i < j ensures served[i] % BucketNum(i) == (T / Step(i)) % BucketNum(i) {}
    LowIsRemainder(served, j, T);
    assert Low(served, j) == 0;
    StepsOf(u);
    Quotient(u / Step(j), BucketNum(j), 0, u / Step(j));
  }
}
