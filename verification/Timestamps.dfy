/** Wall-clock timestamps: seconds and nanoseconds. */
module Timestamps {

  const NANOS_PER_SECOND := 1_000_000_000
  const NANOS_PER_MILLI := 1_000_000

  /** C++ integer division: towards zero. */
  function TruncDiv(a: int, b: int): int
    requires 0 < b
  {
    if 0 <= a then a / b else -((-a) / b)
  }

  function TruncMod(a: int, b: int): int
    requires 0 < b
  {
    a - TruncDiv(a, b) * b
  }

  datatype Timestamp = Timestamp(second: int, nanosecond: int) {
    function Nanos(): int {
      second * NANOS_PER_SECOND + nanosecond
    }

    // As read from the clock.
    predicate Normal() {
      0 <= nanosecond < NANOS_PER_SECOND
    }

    // As left by adding milliseconds to a normal timestamp: the carry is only
    // taken above a full second, so the field may hold a full second.
    predicate Settled() {
      0 <= nanosecond <= NANOS_PER_SECOND
    }

    predicate Less(other: Timestamp) {
      if second != other.second then second < other.second else nanosecond < other.nanosecond
    }

    function Plus(millisecond: int): Timestamp {
      var sec := second + TruncDiv(millisecond, 1000);
      var nsec := nanosecond + TruncMod(millisecond, 1000) * NANOS_PER_MILLI;
      if NANOS_PER_SECOND < nsec then Timestamp(sec + 1, nsec - NANOS_PER_SECOND) else Timestamp(sec, nsec)
    }

    function DistanceNanoSecond(other: Timestamp): int {
      var bigger, smaller := if Less(other) then other else this, if Less(other) then this else other;
      (bigger.second - smaller.second) * NANOS_PER_SECOND + (bigger.nanosecond - smaller.nanosecond)
    }

    function DistanceMillisecond(other: Timestamp): int {
      var bigger, smaller := if Less(other) then other else this, if Less(other) then this else other;
      (bigger.second - smaller.second) * 1000 + TruncDiv(bigger.nanosecond - smaller.nanosecond, NANOS_PER_MILLI)
    }
  }

  function Abs(x: int): int { if x < 0 then -x else x }

  /** Adding milliseconds adds exactly their nanoseconds, and keeps the result settled. */
  lemma PlusAddsNanos(t: Timestamp, millisecond: int)
    ensures t.Plus(millisecond).Nanos() == t.Nanos() + millisecond * NANOS_PER_MILLI
    ensures t.Normal() && 0 <= millisecond ==> t.Plus(millisecond).Settled()
  {
    assert millisecond == TruncDiv(millisecond, 1000) * 1000 + TruncMod(millisecond, 1000);
  }

  /** The field-wise order is the order of total nanoseconds, one case apart: a
      full second in the left nanosecond field against the start of the next second. */
  lemma LessIsByNanos(t: Timestamp, u: Timestamp)
    requires t.Settled() && u.Settled()
    ensures (t.Less(u) <==> t.Nanos() < u.Nanos())
       <==> !(t.nanosecond == NANOS_PER_SECOND && u.second == t.second + 1 && u.nanosecond == 0)
  {}

  /** So a normal clock reading compares with any deadline by total nanoseconds. */
  lemma NormalLess(t: Timestamp, u: Timestamp)
    requires t.Normal() && u.Settled()
    ensures t.Less(u) <==> t.Nanos() < u.Nanos()
  {
    LessIsByNanos(t, u);
  }

  lemma DistanceIsAbsolute(t: Timestamp, u: Timestamp)
    requires t.Settled() && u.Settled()
    ensures t.DistanceNanoSecond(u) == Abs(t.Nanos() - u.Nanos())
  {}

  /** The millisecond distance is the nanosecond distance rounded down, unless a
      borrow from the seconds leaves a fraction: then it is rounded up. */
  lemma MillisecondRounding(t: Timestamp, u: Timestamp)
    requires t.Settled() && u.Settled()
    ensures var later, earlier := if t.Less(u) then u else t, if t.Less(u) then t else u;
      t.DistanceMillisecond(u) == t.DistanceNanoSecond(u) / NANOS_PER_MILLI
      <==> earlier.nanosecond <= later.nanosecond || (earlier.nanosecond - later.nanosecond) % NANOS_PER_MILLI == 0
    ensures 0 <= t.DistanceMillisecond(u) - t.DistanceNanoSecond(u) / NANOS_PER_MILLI <= 1
  {}
}
