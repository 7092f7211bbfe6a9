/** What a user of the timing wheel can rely on, in every state between calls. */
module TimingTheorems {
  import opened Arithmetic
  import opened Timestamps
  import opened WheelArithmetic
  import opened TimerLedger
  import opened WheelBuckets
  import opened WheelState
  import opened TimerCommands

  ghost predicate BetweenTicks(s: Snapshot) {
    Consistent(s, WHEEL_NUM, -1, 0, NO_TIMER)
  }

  /** The cursors are the mixed-radix digits of the tick count. */
  lemma Odometer(s: Snapshot, w: WheelIndex)
    requires BetweenTicks(s)
    ensures s.wheels[w].current == (s.tick / Step(w)) % BucketNum(w)
    ensures Low(s.book.served, WHEEL_NUM) == s.tick % 0x1_0000_0000
  {
    LowIsRemainder(s.book.served, WHEEL_NUM, s.tick);
    StepValues();
  }

  /** Every pending timer sits once in the one bucket it records, and nothing else
      sits in any bucket. */
  lemma OneBucketEach(s: Snapshot, id: int, w: int, b: int)
    requires BetweenTicks(s) && ValidSlot(w, b)
    ensures id in Bucket(s.wheels, w, b) <==> id in s.timers && s.timers[id].wheel == w && s.timers[id].bucket == b
    ensures multiset(Bucket(s.wheels, w, b))[id] <= 1
    ensures id in s.timers ==> ValidSlot(s.timers[id].wheel, s.timers[id].bucket)
  {
    assert FiledAt(s.wheels, s.timers, NO_TIMER, w, b);
    AtMostOnce(Bucket(s.wheels, w, b), id);
    assert id in s.timers ==> ValidSlot(s.timers[id].wheel, s.timers[id].bucket);
  }

  lemma {:induction false} AtMostOnce(ids: seq<int>, id: int)
    requires NoDuplicates(ids)
    ensures multiset(ids)[id] <= 1
    ensures id !in ids ==> multiset(ids)[id] == 0
  {
    if ids != [] {
      AtMostOnce(ids[1..], id);
      TailMembers(ids);
      assert ids == [ids[0]] + ids[1..];
    }
  }

  /** The wheel a timer is on refines the flat list: the next service of its bucket,
      plus its left-over ticks, is its due tick, and that tick is still to come. */
  lemma BucketMeetsDueTick(s: Snapshot, id: int)
    requires BetweenTicks(s) && id in s.timers
    ensures var t := s.timers[id];
      && ValidSlot(t.wheel, t.bucket)
      && s.tick < s.book.due[id]
      && s.book.due[id] == (s.tick / Step(t.wheel) + Ahead(t.bucket, s.wheels[t.wheel].current, BucketNum(t.wheel)) + 1)
                           * Step(t.wheel) + t.undoTickCounts
  {
    var t := s.timers[id];
    PendingIsLater(s, id);
    assert DueOk(t, s.book.due[id], s.book.served, s.tick, -1, 0);
    ServiceTickIsProduct(ServiceOf(s.book.served[t.wheel], t.wheel, t.bucket), t.wheel);
  }

  /** A timer limited to n calls is called at most n times (once for n = 0), and a
      timer that is gone without having been stopped was called exactly that often. */
  lemma CallsAreCounted(s: Snapshot, id: int)
    requires BetweenTicks(s) && id in s.book.birth && 0 <= s.book.birth[id].times
    ensures Fires(s.fired, id) <= Allowed(s.book.birth[id].times)
    ensures id in s.timers ==> Fires(s.fired, id) < Allowed(s.book.birth[id].times)
    ensures id !in s.timers && id !in s.book.cancelled ==> Fires(s.fired, id) == Allowed(s.book.birth[id].times)
  {
    assert EntryOk(id, s.timers, s.fired, s.book, s.clock);
  }

  /** A timer without a limit stays until it is stopped. */
  lemma UnlimitedStays(s: Snapshot, id: int)
    requires BetweenTicks(s) && id in s.book.birth && s.book.birth[id].times < 0
    ensures id in s.timers || id in s.book.cancelled
  {
    assert EntryOk(id, s.timers, s.fired, s.book, s.clock);
  }

  /** A call never comes before the tick its timer's calls so far make it due in; on a
      steady clock only the first can come later. */
  lemma CallsAreOnTime(s: Snapshot, k: nat)
    requires BetweenTicks(s) && k < |s.fired|
    ensures s.fired[k].id in s.book.birth
    ensures var id := s.fired[k].id; var birth := s.book.birth[id];
      && NextCall(s.fired[..k], birth, id) <= s.fired[k].tick
      && (s.clock.steady && birth.expire.Settled() && 0 <= LastFire(s.fired[..k], id) ==>
            s.fired[k].tick == NextCall(s.fired[..k], birth, id))
  {
    assert FiringOk(k, s.fired, s.book, s.clock);
  }

  /** On a steady clock a call comes one period after the one before, for every
      period, unless that one was the first and came late. */
  lemma CallsArePeriodic(s: Snapshot, k: nat, j: int)
    requires BetweenTicks(s) && s.clock.steady && k < |s.fired| && j == LastFire(s.fired[..k], s.fired[k].id)
    ensures s.fired[k].id in s.book.birth
    ensures var id := s.fired[k].id; var birth := s.book.birth[id];
      birth.expire.Settled() ==>
      && (j < 0 ==> birth.due <= s.fired[k].tick)
      && (0 <= j && (0 <= LastFire(s.fired[..j], id) || s.fired[j].tick == birth.due) ==>
            s.fired[k].tick == s.fired[j].tick + birth.ticks)
  {
    CallsAreOnTime(s, k);
    if 0 <= j {
      CallsAreOnTime(s, j);
      assert s.fired[..k][..j] == s.fired[..j];
    }
  }

  /** After a first call that came late, the second comes one period later if and only
      if the period fits the first wheel or that wheel did not wrap in the tick of the
      first call; otherwise it comes one turn of that wheel early. */
  lemma LateFirstCall(s: Snapshot, k: nat, j: nat)
    requires BetweenTicks(s) && s.clock.steady && k < |s.fired| && j == LastFire(s.fired[..k], s.fired[k].id)
    ensures s.fired[k].id in s.book.birth
    ensures var id := s.fired[k].id; var birth := s.book.birth[id];
      birth.expire.Settled() && LastFire(s.fired[..j], id) < 0 && birth.due < s.fired[j].tick ==>
      && (s.fired[k].tick == s.fired[j].tick + birth.ticks <==> birth.ticks < 256 || s.fired[j].tick % 256 != 0)
      && (s.fired[k].tick != s.fired[j].tick + birth.ticks ==> s.fired[k].tick == s.fired[j].tick + birth.ticks - 256)
  {
    CallsAreOnTime(s, k);
    CallsAreOnTime(s, j);
    assert s.fired[..k][..j] == s.fired[..j];
    StepValues();
  }

  /** So on a steady clock calls with a period of less than 256 ticks are one period
      apart. */
  lemma ShortPeriodsAreExact(s: Snapshot, k: nat, j: nat)
    requires BetweenTicks(s) && s.clock.steady && k < |s.fired| && j == LastFire(s.fired[..k], s.fired[k].id)
    ensures s.fired[k].id in s.book.birth
    ensures var birth := s.book.birth[s.fired[k].id];
      birth.expire.Settled() && birth.ticks < 256 ==> s.fired[k].tick == s.fired[j].tick + birth.ticks
  {
    CallsAreOnTime(s, k);
    CallsAreOnTime(s, j);
    StepValues();
  }

  /** A timer that was called is due exactly as its calls say. */
  lemma DueAfterCalls(s: Snapshot, id: int)
    requires BetweenTicks(s) && s.clock.steady && id in s.timers && 0 <= LastFire(s.fired, id)
    ensures s.book.birth[id].expire.Settled() ==> s.book.due[id] == NextCall(s.fired, s.book.birth[id], id)
  {
    assert EntryOk(id, s.timers, s.fired, s.book, s.clock);
  }

  /** On a steady clock a callback that starts a timer at the time of its own call
      starts it promptly. */
  lemma RestartIsPrompt(s: Snapshot, k: nat, expireMs: nat)
    requires BetweenTicks(s) && s.clock.steady && k < |s.fired| && 1 <= expireMs
    ensures Prompt(s.fired[k].now, expireMs, s.fired[k].tick, s.clock)
  {
    assert FiringOk(k, s.fired, s.book, s.clock);
  }

  /** No call ever comes before the expire timestamp. */
  lemma NeverEarly(s: Snapshot, k: nat)
    requires BetweenTicks(s) && k < |s.fired|
    ensures s.fired[k].id in s.book.birth
    ensures var expire := s.book.birth[s.fired[k].id].expire;
      s.fired[k].now.Normal() && expire.Settled() ==> expire.Nanos() <= s.fired[k].now.Nanos()
  {
    assert FiringOk(k, s.fired, s.book, s.clock);
    var expire := s.book.birth[s.fired[k].id].expire;
    if s.fired[k].now.Normal() && expire.Settled() {
      NormalLess(s.fired[k].now, expire);
    }
  }

  /** On a steady clock a promptly started timer that has not been called yet means
      the clock is less than one tick past its expire timestamp. */
  lemma NeverLate(s: Snapshot, id: int, undoNsec: int, timestamp: Timestamp)
    requires BetweenTicks(s) && s.clock.steady && 1 <= s.clock.tickNs
    requires undoNsec < s.clock.tickNs && s.tick * s.clock.tickNs + undoNsec == timestamp.Nanos() - s.clock.t0
    requires id in s.timers && s.book.birth[id].prompt && LastFire(s.fired, id) < 0
    ensures timestamp.Nanos() < s.book.birth[id].expire.Nanos() + s.clock.tickNs
  {
    assert EntryOk(id, s.timers, s.fired, s.book, s.clock);
    PendingIsLater(s, id);
    MulMonotone(s.tick, s.book.due[id] - 1, s.clock.tickNs);
  }

  /** When a delay counted in the middle of a tick, from a callback or for a timer
      re-armed, is exact: its wheel has already moved in this tick, or does not move.
      Otherwise the bucket found is served one step of the waiting wheel early. */
  lemma MidTickDelay(wheels: seq<Wheel>, served: seq<nat>, T: nat, level: nat, dw: int, db: int, t: Timer, ticks: nat)
    requires Cursors(wheels, served) && ServedUpTo(served, T, level) && Draining(wheels, dw, db, T, level)
    requires 1 <= ticks < Step(WHEEL_NUM)
    ensures DueOk(Placed(t, served, ticks), T + ticks, served, T, dw, db)
       <==> ticks < Step(level) || T % Step(level) != 0 || level == WHEEL_NUM
    ensures !DueOk(Placed(t, served, ticks), T + ticks, served, T, dw, db) ==>
      Step(level) <= T + ticks && DueOk(Placed(t, served, ticks), T + ticks - Step(level), served, T, dw, db)
  {
    var w := WheelFor(ticks);
    PlacementDue(Placed(t, served, ticks), wheels, served, T, dw, db, level, ticks);
    if w < level {
      StepGrows(w + 1, level);
    } else {
      StepGrows(level, w);
    }
  }

  // ----- stopped timers -----

  /** No call of a timer comes after it was stopped, whoever stopped it. */
  lemma StoppedIsSilent(s: Snapshot, id: int)
    requires BetweenTicks(s) && id in s.book.cancelled
    ensures id !in s.timers
    ensures forall k :: s.book.cancelled[id] <= k < |s.fired| ==> s.fired[k].id != id
  {
    assert EntryOk(id, s.timers, s.fired, s.book, s.clock);
    forall k | s.book.cancelled[id] <= k < |s.fired| ensures s.fired[k].id != id {
      assert FiringOk(k, s.fired, s.book, s.clock);
    }
  }

  /** A timer that is gone, stopped or called for the last time, stays so and is not
      called by what comes after. */
  lemma GoneIsSilent(react: Reaction, s: Snapshot, s': Snapshot, tickMs: TickMs, id: int)
    requires Obeys(react, s, s', tickMs) && id <= s.lastId && id !in s.timers
    ensures id <= s'.lastId && id !in s'.timers && Fires(s'.fired, id) == Fires(s.fired, id)
  {
    NotCalledSince(s'.fired, |s.fired|, id);
    assert s'.fired[..|s.fired|] == s.fired;
  }

  lemma {:induction false} NotCalledSince(fired: seq<Firing>, from: nat, id: int)
    requires from <= |fired| && forall k :: from <= k < |fired| ==> fired[k].id != id
    ensures Fires(fired, id) == Fires(fired[..from], id)
    decreases |fired|
  {
    if from < |fired| {
      NotCalledSince(fired[..|fired| - 1], from, id);
      assert fired[..|fired| - 1][..from] == fired[..from];
    } else {
      assert fired[..from] == fired;
    }
  }

  /** An order of a callback to stop a timer that is there, or that an order before it
      started, leaves that timer out from the next call on, in the same tick too. */
  lemma StopIsObeyed(react: Reaction, s: Snapshot, s': Snapshot, tickMs: TickMs, i: nat) returns (k: nat)
    requires Obeys(react, s, s', tickMs) && i < |Orders(react, s'.fired, |s.fired|)|
    requires Meets(Orders(react, s'.fired, |s.fired|), s.lastId, i)
    ensures |s.fired| < k <= |s'.fired|
    ensures var id := Orders(react, s'.fired, |s.fired|)[i].command.id;
      && Stop(id) in react(s'.fired[..k]) && id !in s'.timers
      && forall n :: k <= n < |s'.fired| ==> s'.fired[n].id != id
  {
    k := OrderComesFrom(react, s'.fired, |s.fired|, i);
    assert Silenced(Orders(react, s'.fired, |s.fired|)[i], s');
  }

  // ----- timers that are not stopped -----

  /** What no command of a stretch of the run stops stays known as not stopped. */
  lemma NotStopped(react: Reaction, s: Snapshot, s': Snapshot, tickMs: TickMs, id: int)
    requires BetweenTicks(s) && Obeys(react, s, s', tickMs) && id in s.timers
    requires !Stops(Orders(react, s'.fired, |s.fired|), id)
    ensures id in s'.book.birth && s'.book.birth[id] == s.book.birth[id] && id !in s'.book.cancelled
  {
    assert EntryOk(id, s.timers, s.fired, s.book, s.clock);
    if id in s'.book.cancelled {
      StoppedIsOrdered(Orders(react, s'.fired, |s.fired|), s.lastId, id, s'.book.cancelled[id]);
    }
  }

  /** An order to stop a timer comes from one of the calls in between. */
  lemma {:induction false} OrderComesFrom(react: Reaction, fired: seq<Firing>, from: nat, i: nat) returns (k: nat)
    requires i < |Orders(react, fired, from)|
    ensures from < k <= |fired|
    ensures Orders(react, fired, from)[i].command in react(fired[..k])
    ensures Orders(react, fired, from)[i].tick == fired[k - 1].tick && Orders(react, fired, from)[i].calls == k
    decreases |fired|
  {
    var before := fired[..|fired| - 1];
    if i < |Orders(react, before, from)| {
      k := OrderComesFrom(react, before, from, i);
      assert before[..k] == fired[..k];
    } else {
      k := |fired|;
      assert fired[..k] == fired;
      var command := Orders(react, fired, from)[i].command;
      assert command == react(fired)[i - |Orders(react, before, from)|];
    }
  }

  /** A promptly started timer for one call that was not stopped has been called once
      the clock is one tick past its expire timestamp. */
  lemma OneShotCalled(s: Snapshot, id: int, undoNsec: int, timestamp: Timestamp)
    requires BetweenTicks(s) && s.clock.steady && 1 <= s.clock.tickNs && undoNsec < s.clock.tickNs
    requires s.tick * s.clock.tickNs + undoNsec == timestamp.Nanos() - s.clock.t0
    requires id in s.book.birth && id !in s.book.cancelled && s.book.birth[id].prompt && 0 <= s.book.birth[id].times <= 1
    requires s.book.birth[id].expire.Nanos() + s.clock.tickNs <= timestamp.Nanos()
    ensures Fires(s.fired, id) == 1 && id !in s.timers
  {
    CallsAreCounted(s, id);
    if id in s.timers {
      NoCallYet(s.fired, id);
      NeverLate(s, id, undoNsec, timestamp);
    }
  }

  /** Not stopped means here: by no command of the calls since it was pending. */
  lemma CalledUnlessStopped(react: Reaction, s: Snapshot, s': Snapshot, tickMs: TickMs, id: int, undoNsec: int, timestamp: Timestamp)
    requires BetweenTicks(s) && id in s.timers && s.book.birth[id].prompt && 0 <= s.book.birth[id].times <= 1
    requires BetweenTicks(s') && s'.clock.steady && 1 <= s'.clock.tickNs && Obeys(react, s, s', tickMs)
    requires !Stops(Orders(react, s'.fired, |s.fired|), id)
    requires undoNsec < s'.clock.tickNs && s'.tick * s'.clock.tickNs + undoNsec == timestamp.Nanos() - s'.clock.t0
    requires s.book.birth[id].expire.Nanos() + s'.clock.tickNs <= timestamp.Nanos()
    ensures Fires(s'.fired, id) == 1 && id !in s'.timers
  {
    NotStopped(react, s, s', tickMs, id);
    OneShotCalled(s', id, undoNsec, timestamp);
  }

  lemma {:induction false} NoCallYet(fired: seq<Firing>, id: int)
    ensures Fires(fired, id) == 0 <==> LastFire(fired, id) < 0
  {
    if fired != [] {
      NoCallYet(fired[..|fired| - 1], id);
    }
  }
}
