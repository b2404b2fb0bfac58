/** The random replacement policy (Policies/random/random.cc): the victim
    is `randrange(0, NUM_WAY - 1)`, with `randrange(low, high)` written as
    `rand() % (low + high) + low + 1`.  The value `rand()` drew is a
    parameter; it lies in `0 .. RAND_MAX`.  Initialising and updating do
    nothing. */
module RandomPolicy {
  import opened Wrappers

  /** `randrange`; `None` where the remainder divides by zero.  `rand()`
      is never negative, so C's truncating `%` is the remainder of `r`
      by the divisor's magnitude. */
  function RandRange(low: int, high: int, r: nat): (v: Option<int>)
    ensures v.None? <==> low + high == 0
    ensures v.Some? ==> low + 1 <= v.value <= low + Abs(low + high)
  {
    if low + high == 0 then None
    else Some(r % Abs(low + high) + low + 1)
  }

  function Abs(x: int): nat
  {
    if x < 0 then -x else x
  }

  /** `find_victim` as written. */
  function FindVictim(ways: nat, r: nat): (v: Option<int>)
    requires ways >= 1
    ensures v.None? <==> ways == 1
    ensures v.Some? ==> 1 <= v.value < ways
  {
    RandRange(0, ways - 1, r)
  }

  /** Way 0 is never evicted ... */
  lemma NeverWayZero(ways: nat, r: nat)
    requires ways >= 1
    ensures FindVictim(ways, r) != Some(0)
  {
  }

  /** ... while every other way is, for some draw. */
  lemma EveryOtherWayDrawn(ways: nat, w: nat)
    requires 1 <= w < ways
    ensures FindVictim(ways, w - 1) == Some(w)
  {
  }

  /** A one-way cache divides by zero. */
  lemma OneWayDividesByZero(r: nat)
    ensures FindVictim(1, r).None?
  {
  }

  /** The victim drawn uniformly from all the set's ways. */
  function FindVictimAnyWay(ways: nat, r: nat): (v: nat)
    requires ways >= 1
    ensures v < ways
  {
    r % ways
  }

  /** Every way, way 0 included, is drawn for some value, and a one-way
      cache always evicts its only way. */
  lemma AnyWayDrawn(ways: nat, w: nat)
    requires w < ways
    ensures FindVictimAnyWay(ways, w) == w
    ensures FindVictimAnyWay(1, w) == 0
  {
  }
}
