/** The FIFO replacement policy (Policies/fifo/fifo.cc): a miss stores the
    policy's `cycle` for its line and the victim is the set's first line
    with the smallest stored value.  `cycle` starts at 0 and nothing ever
    advances it. */
module Fifo {
  import opened Wrappers
  import opened CacheSets

  datatype Fifo = Fifo(ways: nat, stamps: seq<int>, cycle: int)

  /** The constructor: every stamp 0, `cycle` 0. */
  function New(sets: nat, ways: nat): (r: Fifo)
    ensures r.ways == ways && |r.stamps| == sets * ways && r.cycle == 0
    ensures forall i :: 0 <= i < |r.stamps| ==> r.stamps[i] == 0
  {
    Fifo(ways, seq(sets * ways, _ => 0), 0)
  }

  /** `find_victim`: `std::min_element` over the set's stamps. */
  method FindVictim(p: Fifo, s: nat) returns (victim: nat)
    requires p.ways > 0 && HasSet(p.stamps, s, p.ways)
    ensures victim < p.ways
    ensures IsFirstMin(SetOf(p.stamps, s, p.ways), victim)
  {
    victim := FirstMin(SetOf(p.stamps, s, p.ways));
  }

  /** `update_replacement_state` as written: a miss stores `cycle`; `.at()`
      throws past the end of the vector. */
  function Update(p: Fifo, s: nat, way: nat, hit: bool): (r: Result<Fifo, string>)
    ensures r.Failure? <==> Slot(s, p.ways, way) >= |p.stamps|
    ensures r.Success? ==> r.value.ways == p.ways && r.value.cycle == p.cycle
    ensures r.Success? ==> OnlyAt(p.stamps, r.value.stamps, Slot(s, p.ways, way))
    ensures r.Success? && hit ==> r.value == p
    ensures r.Success? && !hit ==> r.value.stamps[Slot(s, p.ways, way)] == p.cycle
  {
    UpdateAt(p, s, way, hit, p.cycle)
  }

  /** `update_replacement_state` with the stamp taken from the current
      cycle `now`, as a first-in first-out order needs. */
  function UpdateAt(p: Fifo, s: nat, way: nat, hit: bool, now: int): (r: Result<Fifo, string>)
    ensures r.Failure? <==> Slot(s, p.ways, way) >= |p.stamps|
    ensures r.Success? ==> r.value.ways == p.ways && r.value.cycle == p.cycle
    ensures r.Success? ==> OnlyAt(p.stamps, r.value.stamps, Slot(s, p.ways, way))
    ensures r.Success? && hit ==> r.value == p
    ensures r.Success? && !hit ==> r.value.stamps[Slot(s, p.ways, way)] == now
  {
    var i := Slot(s, p.ways, way);
    if i >= |p.stamps| then Failure("std::out_of_range")
    else if hit then Success(p)
    else Success(p.(stamps := p.stamps[i := now]))
  }

  predicate AllZero(p: Fifo)
  {
    forall i :: 0 <= i < |p.stamps| ==> p.stamps[i] == 0
  }

  /** As written the stamps never leave 0 ... */
  lemma StampsStayZero(p: Fifo, s: nat, way: nat, hit: bool)
    requires AllZero(p) && p.cycle == 0
    ensures Update(p, s, way, hit).Success? ==> AllZero(Update(p, s, way, hit).value) && Update(p, s, way, hit).value.cycle == 0
  {
  }

  /** ... so line 0 is the first minimum of every set: the policy always
      evicts line 0. */
  lemma AlwaysEvictsLineZero(p: Fifo, s: nat)
    requires AllZero(p) && p.ways > 0 && HasSet(p.stamps, s, p.ways)
    ensures IsFirstMin(SetOf(p.stamps, s, p.ways), 0)
  {
    var xs := SetOf(p.stamps, s, p.ways);
    assert forall j :: 0 <= j < |xs| ==> xs[j] == 0;
  }

  /** With the current cycle stored, the line a miss just filled is not the
      next victim of a set with more than one line. */
  lemma FilledLineNotNextVictim(p: Fifo, s: nat, way: nat, now: int, m: nat)
    requires p.ways > 1 && way < p.ways && HasSet(p.stamps, s, p.ways)
    requires forall w :: 0 <= w < p.ways ==> p.stamps[Slot(s, p.ways, w)] < now
    requires UpdateAt(p, s, way, false, now).Success?
    requires IsFirstMin(SetOf(UpdateAt(p, s, way, false, now).value.stamps, s, p.ways), m)
    ensures m != way
  {
    var r := UpdateAt(p, s, way, false, now).value;
    var xs := SetOf(r.stamps, s, p.ways);
    var other := if way == 0 then 1 else 0;
    assert Slot(s, p.ways, other) != Slot(s, p.ways, way);
    assert xs[other] == p.stamps[Slot(s, p.ways, other)] < now;
    assert xs[way] == now;
  }
}
