/** The arithmetic of the five wheels: which bucket a delay goes to and at which
    tick that bucket is served. */
module WheelArithmetic {

  import opened Arithmetic

  const WHEEL_NUM: nat := 5

  type WheelIndex = i: nat | i < WHEEL_NUM

  function BucketNum(i: nat): nat { if i == 0 then 256 else 64 }

  /** Ticks per step of wheel i: the product of the sizes of the wheels below. */
  function Step(i: nat): (s: nat)
    ensures 1 <= s
  {
    if i == 0 then 1 else Step(i - 1) * BucketNum(i - 1)
  }

  lemma StepValues()
    ensures Step(0) == 1 && Step(1) == 256 && Step(2) == 16384 && Step(3) == 1048576
    ensures Step(4) == 67108864 && Step(5) == 4294967296
  {
    assert Step(1) == 256 && Step(2) == 256 * 64 && Step(3) == 256 * 64 * 64;
    assert Step(4) == Step(3) * 64 && Step(5) == Step(4) * 64;
  }

  /** Serving wheel i once more than T / Step(i) times carries into wheel i + 1. */
  lemma NextDigit(i: WheelIndex, T: nat)
    ensures T / Step(i + 1) == T / Step(i) / BucketNum(i)
    ensures T % Step(i + 1) == (T / Step(i)) % BucketNum(i) * Step(i) + T % Step(i)
  {
    StepValues();
    if i == 0 {
    } else if i == 1 {
    } else if i == 2 {
    } else if i == 3 {
    } else {
      assert i == 4;
    }
  }

  /** The value shown by the cursors of the wheels below j. */
  function Low(served: seq<nat>, j: nat): nat
    requires j <= |served|
  {
    if j == 0 then 0 else Low(served, j - 1) + served[j - 1] % BucketNum(j - 1) * Step(j - 1)
  }

  /** The tick count that a placement on wheel j takes the present to be. */
  function Reading(served: seq<nat>, j: nat): nat
    requires j < |served|
  {
    served[j] * Step(j) + Low(served, j)
  }

  /** The cursors below j show the digits of T. */
  lemma {:induction false} LowIsRemainder(served: seq<nat>, j: nat, T: nat)
    requires j <= |served| == WHEEL_NUM
    requires forall i :: 0 <= i < j ==> served[i] % BucketNum(i) == (T / Step(i)) % BucketNum(i)
    ensures Low(served, j) == T % Step(j)
  {
    if j != 0 {
      LowIsRemainder(served, j - 1, T);
      NextDigit(j - 1, T);
    }
  }

  lemma ReadingIs(served: seq<nat>, j: nat, T: nat)
    requires j < |served| == WHEEL_NUM
    requires forall i :: 0 <= i < j ==> served[i] % BucketNum(i) == (T / Step(i)) % BucketNum(i)
    requires served[j] == T / Step(j)
    ensures Reading(served, j) == T
  {
    LowIsRemainder(served, j, T);
    DivMod(T, Step(j));
  }

  /** How often each wheel has been served when `level` wheels are through tick T
      and the rest are not: the ones below count T, the others T - 1. */
  ghost predicate ServedUpTo(served: seq<nat>, T: nat, level: nat) {
    && |served| == WHEEL_NUM && level <= WHEEL_NUM && (level < WHEEL_NUM ==> 1 <= T)
    && forall i :: 0 <= i < WHEEL_NUM ==> served[i] == (if i < level then T else T - 1) / Step(i)
  }

  /** Whether the wheels from `level` on wait for the carry out of the ones below. */
  predicate CarryPending(T: nat, level: nat)
  {
    level < WHEEL_NUM && T % Step(level) == 0
  }

  lemma SkipWheels(served: seq<nat>, T: nat, level: nat)
    requires ServedUpTo(served, T, level) && !CarryPending(T, level)
    ensures ServedUpTo(served, T, WHEEL_NUM)
  {
    StepValues();
    forall i | level <= i < WHEEL_NUM ensures T / Step(i) == (T - 1) / Step(i) {
      NoCarry(level, i, T);
    }
  }

  lemma {:induction false} NoCarry(level: WheelIndex, i: WheelIndex, T: nat)
    requires level <= i && 1 <= T && T % Step(level) != 0
    ensures T % Step(i) != 0 && T / Step(i) == (T - 1) / Step(i)
    decreases i
  {
    if i == level {
      PreviousQuotient(T, Step(i));
    } else {
      NoCarry(level, i - 1, T);
      NextDigit(i - 1, T);
      NextDigit(i - 1, T - 1);
    }
  }

  lemma PreviousQuotient(T: nat, d: nat)
    requires 1 <= d && 1 <= T
    ensures T % d != 0 ==> T / d == (T - 1) / d
    ensures T % d == 0 ==> T / d == (T - 1) / d + 1 && T == (T / d) * d
  {
    var q, r := T / d, T % d;
    DivMod(T, d);
    if r != 0 {
      Quotient(T - 1, d, q, r - 1);
    } else {
      Distribute(q, -1, d);
      Quotient(T - 1, d, q - 1, d - 1);
    }
  }

  /** By how much a placement on wheel w is early in the middle of tick T: the wheels
      from `level` on may still wait for the carry of this tick. */
  function Early(T: nat, level: nat, w: nat): nat {
    if w < level || !CarryPending(T, level) then 0 else Step(level)
  }

  /** How long a placement waits from what its wheel reads: the delay asked for, or
      without delay a full turn of the first wheel, but nothing at all while that wheel
      is drained, which is the case at level 1. */
  function Wait(ticks: nat, level: nat): nat {
    if 1 <= ticks then ticks else if level == 1 then 0 else BucketNum(0)
  }

  /** What a placement in the middle of a tick takes the present to be: the tick
      itself, except on a wheel that still waits for its carry. */
  lemma MidTickReading(served: seq<nat>, T: nat, level: nat, j: WheelIndex)
    requires ServedUpTo(served, T, level)
    ensures Early(T, level, j) <= T && Reading(served, j) == T - Early(T, level, j)
  {
    if CarryPending(T, level) {
      FirstMultiple(T, Step(level));
    }
    if j < level {
      ReadingIs(served, j, T);
    } else if !CarryPending(T, level) {
      SkipWheels(served, T, level);
      ReadingIs(served, j, T);
    } else {
      PendingReading(served, T, level, j);
    }
  }

  lemma FirstMultiple(T: nat, d: nat)
    requires 1 <= d && 1 <= T && T % d == 0
    ensures d <= T && (T - d) % d == 0 && (T - d) / d == T / d - 1
  {
    DivMod(T, d);
    MulMonotone(1, T / d, d);
    Distribute(T / d, -1, d);
    Quotient(T - d, d, T / d - 1, 0);
  }

  lemma PendingReading(served: seq<nat>, T: nat, level: nat, j: WheelIndex)
    requires ServedUpTo(served, T, level) && CarryPending(T, level) && level <= j && Step(level) <= T
    ensures Reading(served, j) == T - Step(level)
  {
    var t := T - Step(level);
    forall i | 0 <= i < j ensures served[i] % BucketNum(i) == (t / Step(i)) % BucketNum(i) {
      PendingDigit(served, T, level, i);
    }
    StepBack(T, level, j);
    ReadingIs(served, j, t);
  }

  lemma PendingDigit(served: seq<nat>, T: nat, level: nat, i: WheelIndex)
    requires ServedUpTo(served, T, level) && CarryPending(T, level) && Step(level) <= T
    ensures served[i] % BucketNum(i) == ((T - Step(level)) / Step(i)) % BucketNum(i)
  {
    if i < level {
      CarriedBoth(T, level, i);
    } else {
      StepBack(T, level, i);
    }
  }

  lemma CarriedBoth(T: nat, level: nat, i: nat)
    requires i < level < WHEEL_NUM && T % Step(level) == 0 && Step(level) <= T
    ensures (T / Step(i)) % BucketNum(i) == ((T - Step(level)) / Step(i)) % BucketNum(i) == 0
  {
    FirstMultiple(T, Step(level));
    CarriedDigits(T, level, i);
    CarriedDigits(T - Step(level), level, i);
  }

  /** On a multiple of Step(level) every digit below is zero. */
  lemma {:induction false} CarriedDigits(T: nat, level: nat, i: nat)
    requires i < level <= WHEEL_NUM && T % Step(level) == 0
    ensures T % Step(i) == 0 && (T / Step(i)) % BucketNum(i) == 0
    decreases level
  {
    NextDigit(level - 1, T);
    SmallMultiple((T / Step(level - 1)) % BucketNum(level - 1), Step(level - 1));
    if i < level - 1 {
      CarriedDigits(T, level - 1, i);
    }
  }

  lemma WrapDigit(T: nat, w: WheelIndex)
    requires T % Step(w) == 0
    ensures T % Step(w + 1) == 0 <==> (T / Step(w)) % BucketNum(w) == 0
  {
    NextDigit(w, T);
    var digit := (T / Step(w)) % BucketNum(w);
    if T % Step(w + 1) == 0 {
      SmallMultiple(digit, Step(w));
    }
  }

  lemma {:induction false} StepBack(T: nat, level: WheelIndex, i: WheelIndex)
    requires level <= i && T % Step(level) == 0 && Step(level) <= T
    ensures (T - 1) / Step(i) == (T - Step(level)) / Step(i)
    decreases i
  {
    var d := Step(level);
    if i == level {
      PreviousQuotient(T, d);
      FirstMultiple(T, d);
    } else {
      StepBack(T, level, i - 1);
      NextDigit(i - 1, T - 1);
      NextDigit(i - 1, T - d);
    }
  }

  // ----- buckets -----

  /** The bucket `steps` services ahead of the cursor, counting the next as one. */
  function BucketFor(steps: nat, current: nat, size: nat): (b: nat)
    requires 0 < size
    ensures b < size
  {
    var b := (steps + current) % size;
    if 0 < b then b - 1 else size - 1
  }

  /** How many services come before the one of bucket b. */
  function Ahead(b: nat, current: nat, size: nat): nat
    requires b < size && current < size
  {
    if current <= b then b - current else b + size - current
  }

  /** The number of the service that empties bucket b, counted from the start. */
  function ServiceOf(served: nat, w: nat, b: nat): nat
    requires b < BucketNum(w)
  {
    served + Ahead(b, served % BucketNum(w), BucketNum(w)) + 1
  }

  /** The tick of the n-th service of wheel w. */
  function ServiceTick(n: nat, w: nat): nat {
    if n == 0 then 0 else ServiceTick(n - 1, w) + Step(w)
  }

  lemma {:induction false} ServiceTickIsProduct(n: nat, w: nat)
    ensures ServiceTick(n, w) == n * Step(w)
  {
    if n != 0 {
      ServiceTickIsProduct(n - 1, w);
      Distribute(n, -1, Step(w));
    }
  }

  /** The tick at which a timer in bucket b of wheel w is served, and the undo ticks
      after it. */
  function DueTick(served: nat, w: nat, b: nat, undo: nat): nat
    requires b < BucketNum(w)
  {
    ServiceTick(ServiceOf(served, w, b), w) + undo
  }

  /** Serving a wheel leaves the due tick of every bucket but the served one. */
  lemma ServeKeepsDue(served: nat, w: nat, b: nat, undo: nat)
    requires b < BucketNum(w)
    ensures b != served % BucketNum(w) ==> DueTick(served + 1, w, b, undo) == DueTick(served, w, b, undo)
    ensures b == served % BucketNum(w) ==> DueTick(served, w, b, undo) == ServiceTick(served + 1, w) + undo
  {
    ServiceNumber(served, w, b);
  }

  lemma ServiceNumber(served: nat, w: nat, b: nat)
    requires b < BucketNum(w)
    ensures if b == served % BucketNum(w) then ServiceOf(served, w, b) == served + 1
            else ServiceOf(served + 1, w, b) == ServiceOf(served, w, b)
  {
    CursorStep(served, BucketNum(w));
  }

  lemma CursorStep(served: nat, n: nat)
    requires 0 < n
    ensures (served + 1) % n == if served % n + 1 < n then served % n + 1 else 0
  {
    DivMod(served, n);
    if served % n + 1 < n {
      Quotient(served + 1, n, served / n, served % n + 1);
    } else {
      Distribute(served / n, 1, n);
      Quotient(served + 1, n, served / n + 1, 0);
    }
  }

  /** The first wheel whose whole turn is longer than the delay. */
  function WheelFor(ticks: nat): (w: nat)
    requires ticks < Step(WHEEL_NUM)
    ensures w < WHEEL_NUM && ticks < Step(w + 1) && (w == 0 || Step(w) <= ticks)
  {
    StepValues();
    if ticks < Step(1) then 0
    else if ticks < Step(2) then 1
    else if ticks < Step(3) then 2
    else if ticks < Step(4) then 3
    else 4
  }

  lemma {:induction false} StepGrows(i: nat, j: nat)
    requires i <= j
    ensures Step(i) <= Step(j)
    decreases j
  {
    if i < j {
      StepGrows(i, j - 1);
      MulMonotone(1, BucketNum(j - 1), Step(j - 1));
    }
  }

  function PlacedBucket(served: seq<nat>, ticks: nat): (b: nat)
    requires |served| == WHEEL_NUM && ticks < Step(WHEEL_NUM)
    ensures b < BucketNum(WheelFor(ticks))
  {
    var w := WheelFor(ticks);
    BucketFor(Over(ticks, Step(w)), served[w] % BucketNum(w), BucketNum(w))
  }

  function PlacedUndo(served: seq<nat>, ticks: nat): nat
    requires |served| == WHEEL_NUM && ticks < Step(WHEEL_NUM)
  {
    var w := WheelFor(ticks);
    Low(served, w) + ticks % Step(w)
  }

  /** A delay of at least one tick is due exactly that long after the reading of
      its wheel; a delay of zero lands just behind the cursor, a full turn away. */
  lemma PlacementIsExact(served: seq<nat>, ticks: nat)
    requires |served| == WHEEL_NUM && ticks < Step(WHEEL_NUM)
    ensures var w := WheelFor(ticks);
      DueTick(served[w], w, PlacedBucket(served, ticks), PlacedUndo(served, ticks))
      == Reading(served, w) + if ticks == 0 then BucketNum(0) else ticks
  {
    var w := WheelFor(ticks);
    var d, n, c := Step(w), BucketNum(w), served[w] % BucketNum(w);
    var k := ticks / d;
    DivMod(ticks, d);
    assert k < n by { if n <= k { MulMonotone(n, k, d); } }
    assert 1 <= w ==> 1 <= k by { if 1 <= w && k < 1 { MulMonotone(k, 0, d); } }
    StepsAhead(k, c, n);
    Distribute(served[w], if k == 0 then n else k, d);
    ServiceTickIsProduct(ServiceOf(served[w], w, PlacedBucket(served, ticks)), w);
  }

  lemma StepsAhead(k: nat, c: nat, n: nat)
    requires c < n && k < n
    ensures Ahead(BucketFor(k, c, n), c, n) + 1 == if k == 0 then n else k
  {
    if k + c < n {
      Quotient(k + c, n, 0, k + c);
    } else {
      Quotient(k + c, n, 1, k + c - n);
    }
  }

  lemma {:induction false} LowBelowStep(served: seq<nat>, j: nat)
    requires j <= |served| == WHEEL_NUM
    ensures Low(served, j) < Step(j)
  {
    if j != 0 {
      LowBelowStep(served, j - 1);
      MixedRadix(served[j - 1] % BucketNum(j - 1), BucketNum(j - 1), Step(j - 1), Low(served, j - 1));
    }
  }

  lemma UndoIsBounded(served: seq<nat>, ticks: nat)
    requires |served| == WHEEL_NUM && ticks < Step(WHEEL_NUM)
    ensures PlacedUndo(served, ticks) <= 2 * Step(WheelFor(ticks)) - 2
  {
    LowBelowStep(served, WheelFor(ticks));
  }
}
