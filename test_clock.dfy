/** The counting clock of testutil/clock.go: each `Now()` returns the start
    time advanced by the unit once more than the call before, beginning at
    the start time itself.
 */
module TestClock {
  import opened Base

  /** 2019-09-20 14:00:00 UTC: 1568988000 seconds after the Unix epoch, which
      lies 62135596800 seconds after Go's zero instant. */
  const DefaultStart: Time := (1568988000 + 62135596800) * 1_000_000_000

  /** What the `k`-th call of `Now()`, counting from 0, returns:
      `start.Add(time.Duration(k) * unit)`, where the product is an `int64`
      multiplication and wraps. */
  function Tick(start: Time, unit: int, k: nat): Time
  {
    start + Wrap64(k * unit)
  }

  class Clock {
    var start: Time
    var unit: int
    var last: Time
    var count: nat
    /** The results of every `Now()` call so far, oldest first. */
    ghost var history: seq<Time>

    ghost predicate Valid()
      reads this
    {
      && IsInt64(unit)
      && |history| == count
      && (forall k :: 0 <= k < |history| ==> history[k] == Tick(start, unit, k))
      && last == (if history == [] then start else history[|history| - 1])
    }

    /** `NewClock(unit)`. */
    constructor (unit: int)
      requires IsInt64(unit)
      ensures Valid() && history == []
      ensures start == DefaultStart && this.unit == unit && last == DefaultStart && count == 0
    {
      start, this.unit, last, count := DefaultStart, unit, DefaultStart, 0;
      history := [];
    }

    /** `Now()`: the next tick; the count goes up by one and the start and the
        unit stay as they are. */
    method Now() returns (t: Time)
      requires Valid()
      modifies this`last, this`count, this`history
      ensures Valid()
      ensures t == Tick(start, unit, old(count)) && last == t && count == old(count) + 1
      ensures history == old(history) + [t]
    {
      last := start + Wrap64(count * unit);
      count := count + 1;
      history := history + [last];
      t := last;
    }

    /** `Last()`: the result of the latest `Now()`, or the start time before
        the first. */
    function Last(): (t: Time)
      reads this
      requires Valid()
      ensures history == [] ==> t == start
      ensures history != [] ==> t == history[|history| - 1] == Tick(start, unit, |history| - 1)
    {
      last
    }
  }

  /** `a * c < b * c` for `a < b` and a positive `c`. */
  lemma {:induction false} MulStrict(a: nat, b: nat, c: int)
    requires a < b && c > 0
    ensures a * c < b * c
    decreases b - a
  {
    if a + 1 < b {
      MulStrict(a + 1, b, c);
    }
    assert (a + 1) * c == a * c + c;
  }

  /** With a positive unit, and no `int64` overflow in the products, every
      later tick is later. */
  lemma {:induction false} TicksIncrease(start: Time, unit: int, i: nat, j: nat)
    requires unit > 0 && i < j && j * unit <= MaxInt64
    ensures Tick(start, unit, i) < Tick(start, unit, j)
  {
    MulStrict(i, j, unit);
  }

  /** With a unit of zero or more, and no `int64` overflow in the products,
      no later tick is earlier. */
  lemma {:induction false} TicksNeverDecrease(start: Time, unit: int, i: nat, j: nat)
    requires unit >= 0 && i <= j && j * unit <= MaxInt64
    ensures Tick(start, unit, i) <= Tick(start, unit, j)
  {
    if unit > 0 && i < j {
      MulStrict(i, j, unit);
    }
  }

  /** The overflow hypothesis is needed: once `k * unit` passes the `int64`
      range the product wraps and the clock jumps back. */
  lemma WrapMakesClockGoBack(start: Time)
    ensures Tick(start, 0x4000_0000_0000_0000, 2) < Tick(start, 0x4000_0000_0000_0000, 1)
  {
  }
}
