/** The 32-bit tick counter of the autorelease queue and the ages it gives to queued objects. */
module QueueClock {
  const TIME_MAX := 0xFFFF_FFFF
  const LIFE_IN_TICKS := 5

  type TimePoint = t: nat | t <= TIME_MAX

  /** The times the counter really takes: TIME_MAX itself is never one of them. */
  type Moment = t: nat | t < TIME_MAX

  function TimeSubtract(minuend: TimePoint, subtrahend: TimePoint): (r: TimePoint)
  {
    if minuend >= subtrahend then minuend - subtrahend else TIME_MAX - (subtrahend - minuend)
  }

  function TimeAdd(a: TimePoint, b: TimePoint): (r: TimePoint)
  {
    if TIME_MAX - a > b then a + b else b - (TIME_MAX - a)
  }

  /** Both operations are arithmetic modulo 2^32 - 1, and below it they undo each other. */
  lemma ModularTime(a: Moment, b: Moment)
    ensures TimeAdd(a, b) == (a + b) % 0xFFFF_FFFF && TimeSubtract(a, b) == (a - b) % 0xFFFF_FFFF
    ensures TimeAdd(TimeSubtract(a, b), b) == a && TimeSubtract(TimeAdd(a, b), b) == a
    ensures TimeSubtract(a, TimeSubtract(a, b)) == b
  {
  }

  /** Subtraction undoes addition exactly for the times below 2^32 - 1. */
  lemma SubtractUndoesAdd(a: TimePoint, b: TimePoint)
    ensures TimeSubtract(TimeAdd(a, b), b) == a <==> a < 0xFFFF_FFFF
  {
  }

  /** How many ticks ago a push time was. */
  function Age(now: Moment, pushed: Moment): (age: nat)
    ensures age < TIME_MAX
  {
    TimeSubtract(now, pushed)
  }

  /** The push time that makes an object leave the queue on the next tick. */
  function Overdue(now: Moment): Moment
  {
    TimeSubtract(now, LIFE_IN_TICKS)
  }

  function NextTick(now: Moment): (next: Moment)
  {
    TimeAdd(now, 1)
  }

  /** The test made in tick(). */
  predicate Expires(age: nat)
  {
    age + 1 >= LIFE_IN_TICKS
  }

  /** Ages count ticks, whether or not the counter wrapped in between. */
  lemma Ages(now: Moment, pushed: Moment)
    ensures Age(now, now) == 0 && Age(now, Overdue(now)) == LIFE_IN_TICKS
    ensures Age(now, pushed) + 1 < TIME_MAX ==> Age(NextTick(now), pushed) == Age(now, pushed) + 1
  {
  }

  function After(now: Moment, ticks: nat): Moment
  {
    if ticks == 0 then now else NextTick(After(now, ticks - 1))
  }

  lemma {:induction false} AgeAfter(now: Moment, pushed: Moment, ticks: nat)
    requires Age(now, pushed) + ticks < TIME_MAX
    ensures Age(After(now, ticks), pushed) == Age(now, pushed) + ticks
  {
    if ticks > 0 {
      AgeAfter(now, pushed, ticks - 1);
      Ages(After(now, ticks - 1), pushed);
    }
  }

  /** An object pushed as public stays through four ticks and leaves on exactly the fifth;
      a private or zeroed one leaves on the next tick. The k-th later tick sees After(now, k - 1). */
  lemma LeavesOnTime(now: Moment, k: nat)
    requires 1 <= k <= 5
    ensures Expires(Age(After(now, k - 1), now)) <==> k == 5
    ensures Expires(Age(now, Overdue(now)))
  {
    AgeAfter(now, now, k - 1);
  }
}
