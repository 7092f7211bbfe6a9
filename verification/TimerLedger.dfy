/** What is known of every timer ever started: the flat list of due ticks that the
    wheels implement, and the history of callbacks. */
module TimerLedger {
  import opened Arithmetic
  import opened Timestamps
  import opened WheelArithmetic

  datatype Timer = Timer(id: int, expireTimestamp: Timestamp, expireTickCounts: nat, callTimes: int,
                         undoTickCounts: nat, wheel: nat, bucket: nat)

  /** One callback invocation. */
  datatype Firing = Firing(id: int, tick: nat, now: Timestamp)

  /** How a timer was started.  `due` is the tick its first placement aims at;
      `prompt` says that the start time given was not behind the ticks issued. */
  datatype Birth = Birth(due: nat, expire: Timestamp, ticks: nat, times: int, prompt: bool)

  /** The proof's book: how often each wheel was served, when each pending timer is
      due, how each timer was started, and which were stopped after how many calls. */
  datatype Book = Book(served: seq<nat>, due: map<int, nat>, birth: map<int, Birth>, cancelled: map<int, nat>)

  /** Clock bookkeeping: tick length, time zero, and whether every update so far was
      monotone and small enough for the 32-bit remainder. */
  datatype Clock = Clock(tickNs: nat, t0: int, steady: bool)

  const NO_TIMER := 0

  // ----- the callback history -----

  function Fires(fired: seq<Firing>, id: int): nat {
    if fired == [] then 0
    else Fires(fired[..|fired| - 1], id) + if fired[|fired| - 1].id == id then 1 else 0
  }

  /** The index of the last callback of `id`, or -1. */
  function LastFire(fired: seq<Firing>, id: int): (k: int)
    ensures -1 <= k < |fired| && (0 <= k ==> fired[k].id == id)
  {
    if fired == [] then -1
    else if fired[|fired| - 1].id == id then |fired| - 1
    else LastFire(fired[..|fired| - 1], id)
  }

  lemma AppendFiring(fired: seq<Firing>, x: Firing, id: int)
    ensures Fires(fired + [x], id) == Fires(fired, id) + if x.id == id then 1 else 0
    ensures LastFire(fired + [x], id) == if x.id == id then |fired| else LastFire(fired, id)
  {
    assert (fired + [x])[..|fired|] == fired;
  }

  /** The tick at which a timer is due again by its calls so far: first as its start
      says, then one period after its last call.  After a call that had been put off
      to a tick in which the first wheel wraps, a period too long for that wheel is
      one turn of it short. */
  ghost function NextCall(fired: seq<Firing>, birth: Birth, id: int): int
    decreases |fired|
  {
    var j := LastFire(fired, id);
    if j < 0 then birth.due
    else fired[j].tick + birth.ticks - Shortfall(NextCall(fired[..j], birth, id) < fired[j].tick, birth.ticks, fired[j].tick)
  }

  function Shortfall(putOff: bool, ticks: nat, tick: nat): nat {
    if putOff && Step(1) <= ticks && tick % Step(1) == 0 then Step(1) else 0
  }

  lemma CallMovesNext(fired: seq<Firing>, x: Firing, birth: Birth, id: int)
    ensures NextCall(fired + [x], birth, id) ==
      if x.id == id then x.tick + birth.ticks - Shortfall(NextCall(fired, birth, id) < x.tick, birth.ticks, x.tick)
      else NextCall(fired, birth, id)
  {
    AppendFiring(fired, x, id);
    var j := LastFire(fired, id);
    assert (fired + [x])[..|fired|] == fired;
    assert 0 <= j ==> (fired + [x])[..j] == fired[..j];
  }

  /** On a steady clock only the first call of a timer can be put off. */
  ghost predicate FirstOnly(fired: seq<Firing>, id: int, birth: Birth, clock: Clock) {
    clock.steady && birth.expire.Settled() ==> LastFire(fired, id) < 0
  }

  /** No call was made after `now`. */
  ghost predicate LogUpTo(fired: seq<Firing>, now: Timestamp) {
    forall k :: 0 <= k < |fired| ==> fired[k].now.Normal() && fired[k].now.Nanos() <= now.Nanos()
  }

  function Allowed(times: int): nat { if times <= 1 then 1 else times }

  /** Callbacks left: negative means no limit, zero and one both mean one. */
  ghost predicate CountsLeft(callTimes: int, times: int, fires: nat) {
    if times < 0 then callTimes == times
    else if times == 0 then callTimes == 0 && fires == 0
    else 1 <= callTimes && callTimes + fires == times
  }

  /** Not in the bucket whose service makes the next wheel turn, unless the period
      is short enough not to need that wheel. */
  ghost predicate Settled(t: Timer)
  {
    Step(t.wheel + 1) <= t.expireTickCounts ==>
      t.bucket != BucketNum(t.wheel) - 1 && t.undoTickCounts < Step(t.wheel)
  }

  ghost predicate InPlace(t: Timer) {
    t.wheel < WHEEL_NUM && t.bucket < BucketNum(t.wheel) && t.undoTickCounts <= 2 * Step(t.wheel) - 2
  }

  /** A due tick is never later than the first tick at or after the expire timestamp. */
  ghost predicate InTime(due: int, expire: Timestamp, clock: Clock) {
    (due - 1) * clock.tickNs < expire.Nanos() - clock.t0
  }

  /** A pending timer is due when its calls say, or was put off from there, tick by
      tick, on the first wheel. */
  ghost predicate PendingOk(t: Timer, due: nat, id: int, birth: Birth, fired: seq<Firing>, clock: Clock) {
    && t.id == id && t.expireTimestamp == birth.expire && t.expireTickCounts == birth.ticks < Step(WHEEL_NUM)
    && (birth.ticks == 0 ==> 0 <= birth.times && t.wheel == 0 && t.undoTickCounts == 0)
    && InPlace(t)
    && CountsLeft(t.callTimes, birth.times, Fires(fired, id))
    && NextCall(fired, birth, id) <= due
    && (NextCall(fired, birth, id) < due ==> t.wheel == 0 && t.undoTickCounts == 0 && FirstOnly(fired, id, birth, clock))
    && (NextCall(fired, birth, id) == due ==> Settled(t))
    && (birth.prompt ==> birth.expire.Settled())
    && (birth.prompt && LastFire(fired, id) < 0 && clock.steady ==> InTime(due, birth.expire, clock))
  }

  ghost predicate DoneOk(times: int, fires: nat, cancelled: bool) {
    if times < 0 then cancelled
    else fires <= Allowed(times) && (!cancelled ==> fires == Allowed(times))
  }

  ghost predicate EntryOk(id: int, timers: map<int, Timer>, fired: seq<Firing>, book: Book, clock: Clock)
    requires id in book.birth && book.due.Keys == timers.Keys
  {
    if id in timers
    then id !in book.cancelled && PendingOk(timers[id], book.due[id], id, book.birth[id], fired, clock)
    else DoneOk(book.birth[id].times, Fires(fired, id), id in book.cancelled)
  }

  /** A call never comes before the expire timestamp, nor before its tick has come,
      nor before it is due by the calls before, nor after the timer was stopped. */
  ghost predicate FiringOk(k: nat, fired: seq<Firing>, book: Book, clock: Clock)
    requires k < |fired|
  {
    var x := fired[k];
    && x.id in book.birth
    && (x.id in book.cancelled ==> k < book.cancelled[x.id])
    && !x.now.Less(book.birth[x.id].expire)
    && (clock.steady ==> x.now.Normal() && x.tick * clock.tickNs <= x.now.Nanos() - clock.t0)
    && var next := NextCall(fired[..k], book.birth[x.id], x.id);
    && next <= x.tick
    && (next < x.tick ==> FirstOnly(fired[..k], x.id, book.birth[x.id], clock))
  }

  ghost predicate History(timers: map<int, Timer>, lastId: int, fired: seq<Firing>, book: Book, clock: Clock) {
    && book.due.Keys == timers.Keys <= book.birth.Keys
    && book.cancelled.Keys <= book.birth.Keys
    && 0 <= lastId
    && (forall id :: id in book.birth ==> 1 <= id <= lastId)
    && (forall id {:trigger EntryOk(id, timers, fired, book, clock)} ::
          id in book.birth ==> EntryOk(id, timers, fired, book, clock))
    && (forall k {:trigger FiringOk(k, fired, book, clock)} :: 0 <= k < |fired| ==> FiringOk(k, fired, book, clock))
  }

  // ----- one tick against the flat list -----

  /** What was pending, logged, known and stopped when the tick began. */
  datatype TickStart = TickStart(due: map<int, nat>, fired: seq<Firing>, birth: map<int, Birth>, cancelled: set<int>)

  ghost predicate FiredSince(fired: seq<Firing>, from: nat, id: int) {
    exists k :: from <= k < |fired| && fired[k].id == id
  }

  /** What tick T did with a timer due at or after it: later ones keep their due
      tick, one due now was called back, put off by one tick for being early, or is
      still waiting for its turn; any may have been stopped by a callback. */
  ghost predicate Handled(id: int, start: TickStart, fired: seq<Firing>, book: Book, T: nat, now: Timestamp)
    requires id in start.due
  {
    || id in book.cancelled
    || (T < start.due[id] && id in book.due && book.due[id] == start.due[id])
    || (T == start.due[id]
        && (|| FiredSince(fired, |start.fired|, id)
            || (id in book.due && book.due[id] == T)
            || (id in book.due && book.due[id] == T + 1 && id in book.birth && now.Less(book.birth[id].expire))))
  }

  ghost predicate Progress(start: TickStart, fired: seq<Firing>, book: Book, T: nat, now: Timestamp) {
    && |start.fired| <= |fired| && fired[..|start.fired|] == start.fired
    && start.due.Keys <= start.birth.Keys <= book.birth.Keys
    && (forall id :: id in start.birth ==> book.birth[id] == start.birth[id])
    && start.cancelled <= book.cancelled.Keys
    && (forall id :: id in book.due && id in start.birth ==> id in start.due)
    && (forall k :: |start.fired| <= k < |fired| ==>
          && fired[k].tick == T && fired[k].now == now
          && if fired[k].id in start.birth then fired[k].id in start.due && start.due[fired[k].id] == T else true)
    && (forall id {:trigger Handled(id, start, fired, book, T, now)} ::
          id in start.due ==> Handled(id, start, fired, book, T, now))
  }

  // ----- the book after each of the things that can happen to a timer -----

  function RedueBook(book: Book, id: int, due: nat): Book {
    book.(due := book.due[id := due])
  }

  function RetiredBook(book: Book, id: int): Book {
    book.(due := book.due - {id})
  }

  /** Stopped after the first n calls of the log. */
  function CancelledBook(book: Book, id: int, n: nat): Book {
    book.(due := book.due - {id}, cancelled := book.cancelled[id := n])
  }

  function StartedBook(book: Book, id: int, birth: Birth): Book {
    book.(due := book.due[id := birth.due], birth := book.birth[id := birth])
  }

  /** A timer moves to another bucket, its due tick unchanged. */
  lemma HopKeepsHistory(timers: map<int, Timer>, t: Timer, lastId: int, fired: seq<Firing>, book: Book, clock: Clock)
    requires History(timers, lastId, fired, book, clock)
    requires t.id in timers
    requires t == timers[t.id].(undoTickCounts := t.undoTickCounts, wheel := t.wheel, bucket := t.bucket)
    requires 1 <= timers[t.id].undoTickCounts && InPlace(t) && (Settled(timers[t.id]) ==> Settled(t))
    ensures History(timers[t.id := t], lastId, fired, book, clock)
  {
    forall id | id in book.birth ensures EntryOk(id, timers[t.id := t], fired, book, clock) {
      assert EntryOk(id, timers, fired, book, clock);
    }
  }

  /** The clock has not reached the expire timestamp: one more tick. */
  lemma RetryKeepsHistory(timers: map<int, Timer>, t: Timer, lastId: int, fired: seq<Firing>, book: Book, clock: Clock,
                          T: nat, now: Timestamp)
    requires History(timers, lastId, fired, book, clock)
    requires t.id in timers && book.due[t.id] == T && now.Less(t.expireTimestamp)
    requires t == timers[t.id].(undoTickCounts := t.undoTickCounts, wheel := t.wheel, bucket := t.bucket)
    requires InPlace(t) && t.wheel == 0 && t.undoTickCounts == 0
    requires clock.steady ==> now.Normal() && T * clock.tickNs <= now.Nanos() - clock.t0 && LogUpTo(fired, now)
    ensures History(timers[t.id := t], lastId, fired, RedueBook(book, t.id, T + 1), clock)
  {
    var book' := RedueBook(book, t.id, T + 1);
    assert EntryOk(t.id, timers, fired, book, clock);
    if book.birth[t.id].prompt && clock.steady {
      NormalLess(now, t.expireTimestamp);
    }
    assert FirstOnly(fired, t.id, book.birth[t.id], clock) by {
      var k := LastFire(fired, t.id);
      if 0 <= k && clock.steady && book.birth[t.id].expire.Settled() {
        assert FiringOk(k, fired, book, clock);
        NormalLess(now, t.expireTimestamp);
        NormalLess(fired[k].now, t.expireTimestamp);
      }
    }
    forall id | id in book'.birth ensures EntryOk(id, timers[t.id := t], fired, book', clock) {
      assert EntryOk(id, timers, fired, book, clock);
    }
    forall k | 0 <= k < |fired| ensures FiringOk(k, fired, book', clock) {
      assert FiringOk(k, fired, book, clock);
    }
  }

  lemma RetryProgress(id: int, fired: seq<Firing>, book: Book, T: nat, now: Timestamp, start: TickStart)
    requires Progress(start, fired, book, T, now)
    requires id in book.due && book.due[id] == T && id in book.birth && now.Less(book.birth[id].expire)
    ensures Progress(start, fired, RedueBook(book, id, T + 1), T, now)
  {
    forall i | i in start.due ensures Handled(i, start, fired, RedueBook(book, id, T + 1), T, now) {
      assert Handled(i, start, fired, book, T, now);
    }
  }

  /** A due timer is called: re-armed if it has calls left, dropped if not. */
  ghost predicate Called(timers: map<int, Timer>, id: int, timers': map<int, Timer>, due: nat,
                         fired: seq<Firing>, book: Book, clock: Clock, T: nat, now: Timestamp) {
    && id in timers && id in book.due && id in book.birth
    && book.due[id] == T && !now.Less(timers[id].expireTimestamp)
    && (clock.steady ==> now.Normal() && T * clock.tickNs <= now.Nanos() - clock.t0)
    && var t := timers[id];
      if t.callTimes < 0 || 0 < t.callTimes - 1 then
        && id in timers' && timers' == timers[id := timers'[id]]
        && timers'[id] == t.(callTimes := if t.callTimes < 0 then t.callTimes else t.callTimes - 1,
             undoTickCounts := timers'[id].undoTickCounts, wheel := timers'[id].wheel, bucket := timers'[id].bucket)
        && InPlace(timers'[id]) && Settled(timers'[id])
        && (t.expireTickCounts == 0 ==> timers'[id].wheel == 0 && timers'[id].undoTickCounts == 0)
        && due == T + t.expireTickCounts - Shortfall(NextCall(fired, book.birth[id], id) < T, t.expireTickCounts, T)
      else
        timers' == timers - {id}
  }

  function CalledBook(timers': map<int, Timer>, id: int, due: nat, book: Book): Book {
    if id in timers' then RedueBook(book, id, due) else RetiredBook(book, id)
  }

  lemma FireKeepsHistory(timers: map<int, Timer>, id: int, timers': map<int, Timer>, due: nat,
                         lastId: int, fired: seq<Firing>, book: Book, clock: Clock, T: nat, now: Timestamp)
    requires History(timers, lastId, fired, book, clock)
    requires Called(timers, id, timers', due, fired, book, clock, T, now)
    ensures History(timers', lastId, fired + [Firing(id, T, now)], CalledBook(timers', id, due, book), clock)
  {
    var book' := CalledBook(timers', id, due, book);
    var fired' := fired + [Firing(id, T, now)];
    forall i | i in book'.birth ensures EntryOk(i, timers', fired', book', clock) {
      assert EntryOk(i, timers, fired, book, clock);
      FireKeepsEntry(i, timers, id, timers', due, fired, book, clock, T, now);
    }
    forall k | 0 <= k < |fired'| ensures FiringOk(k, fired', book', clock) {
      assert fired'[..k] == fired[..k];
      if k < |fired| {
        assert FiringOk(k, fired, book, clock);
      } else {
        assert EntryOk(id, timers, fired, book, clock);
        assert fired'[..k] == fired;
      }
    }
  }

  lemma FireKeepsEntry(i: int, timers: map<int, Timer>, id: int, timers': map<int, Timer>, due: nat,
                       fired: seq<Firing>, book: Book, clock: Clock, T: nat, now: Timestamp)
    requires i in book.birth && book.due.Keys == timers.Keys && EntryOk(i, timers, fired, book, clock)
    requires Called(timers, id, timers', due, fired, book, clock, T, now)
    ensures CalledBook(timers', id, due, book).due.Keys == timers'.Keys
    ensures EntryOk(i, timers', fired + [Firing(id, T, now)], CalledBook(timers', id, due, book), clock)
  {
    AppendFiring(fired, Firing(id, T, now), i);
    CallMovesNext(fired, Firing(id, T, now), book.birth[i], i);
  }

  lemma FireProgress(id: int, due: nat, fired: seq<Firing>, book: Book, book': Book,
                     T: nat, now: Timestamp, start: TickStart)
    requires Progress(start, fired, book, T, now)
    requires id in book.due && book.due[id] == T
    requires book' == RedueBook(book, id, due) || book' == RetiredBook(book, id)
    requires id !in book.cancelled
    ensures Progress(start, fired + [Firing(id, T, now)], book', T, now)
  {
    var fired' := fired + [Firing(id, T, now)];
    assert fired'[..|start.fired|] == fired[..|start.fired|];
    if id in start.due {
      assert Handled(id, start, fired, book, T, now);
    }
    assert fired'[|fired|].id == id;
    forall i | i in start.due ensures Handled(i, start, fired', book', T, now) {
      assert Handled(i, start, fired, book, T, now);
      if FiredSince(fired, |start.fired|, i) {
        var k :| |start.fired| <= k < |fired| && fired[k].id == i;
        assert fired'[k].id == i;
      }
    }
  }

  lemma AddKeepsHistory(timers: map<int, Timer>, t: Timer, birth: Birth, lastId: int, fired: seq<Firing>, book: Book, clock: Clock)
    requires History(timers, lastId, fired, book, clock)
    requires t.id == lastId + 1
    requires PendingOk(t, birth.due, t.id, birth, [], clock)
    ensures History(timers[t.id := t], lastId + 1, fired, StartedBook(book, t.id, birth), clock)
  {
    var book' := StartedBook(book, t.id, birth);
    forall k | 0 <= k < |fired| ensures FiringOk(k, fired, book', clock) {
      assert FiringOk(k, fired, book, clock);
    }
    forall k | 0 <= k < |fired| ensures fired[k].id in book.birth {
      assert FiringOk(k, fired, book, clock);
    }
    NeverFired(fired, t.id, book);
    forall id | id in book'.birth ensures EntryOk(id, timers[t.id := t], fired, book', clock) {
      if id != t.id {
        assert EntryOk(id, timers, fired, book, clock);
      }
    }
  }

  lemma AddProgress(id: int, birth: Birth, fired: seq<Firing>, book: Book)
    requires id !in book.birth && id !in book.due
    ensures forall start, T, now | Progress(start, fired, book, T, now) ::
      Progress(start, fired, StartedBook(book, id, birth), T, now)
  {
    var book' := StartedBook(book, id, birth);
    forall start, T, now | Progress(start, fired, book, T, now)
      ensures Progress(start, fired, book', T, now)
    {
      forall i | i in start.due ensures Handled(i, start, fired, book', T, now) {
        assert Handled(i, start, fired, book, T, now);
      }
    }
  }

  lemma {:induction false} NeverFired(fired: seq<Firing>, id: int, book: Book)
    requires forall k :: 0 <= k < |fired| ==> fired[k].id in book.birth
    requires id !in book.birth
    ensures Fires(fired, id) == 0 && LastFire(fired, id) == -1
  {
    if fired != [] {
      NeverFired(fired[..|fired| - 1], id, book);
    }
  }

  lemma RemoveKeepsHistory(timers: map<int, Timer>, id: int, lastId: int, fired: seq<Firing>, book: Book, clock: Clock)
    requires History(timers, lastId, fired, book, clock)
    requires id in timers
    ensures History(timers - {id}, lastId, fired, CancelledBook(book, id, |fired|), clock)
  {
    var book' := CancelledBook(book, id, |fired|);
    forall k | 0 <= k < |fired| ensures FiringOk(k, fired, book', clock) {
      assert FiringOk(k, fired, book, clock);
    }
    forall i | i in book'.birth ensures EntryOk(i, timers - {id}, fired, book', clock) {
      assert EntryOk(i, timers, fired, book, clock);
    }
  }

  lemma RemoveProgress(id: int, n: nat, fired: seq<Firing>, book: Book)
    ensures forall start, T, now | Progress(start, fired, book, T, now) ::
      Progress(start, fired, CancelledBook(book, id, n), T, now)
  {
    var book' := CancelledBook(book, id, n);
    forall start, T, now | Progress(start, fired, book, T, now)
      ensures Progress(start, fired, book', T, now)
    {
      forall i | i in start.due ensures Handled(i, start, fired, book', T, now) {
        assert Handled(i, start, fired, book, T, now);
      }
    }
  }
}
