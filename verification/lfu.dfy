/** The LFU replacement policy (Policies/lfu/lfu.cc): a use counter per
    line; a miss sets the line's counter to 1, a read hit adds 1, and the
    victim is the set's first line with the smallest counter. */
module Lfu {
  import opened Wrappers
  import opened CacheSets

  datatype Lfu = Lfu(ways: nat, counts: seq<int>)

  /** The constructor as written: `last_used_cycles` is never sized, so
      the policy starts with no counters at all. */
  function NewAsWritten(sets: nat, ways: nat): (r: Lfu)
    ensures r.ways == ways && |r.counts| == 0
  {
    Lfu(ways, [])
  }

  /** The constructor as the other policies write it: one zero counter
      per line. */
  function New(sets: nat, ways: nat): (r: Lfu)
    ensures r.ways == ways && |r.counts| == sets * ways
    ensures forall i :: 0 <= i < |r.counts| ==> r.counts[i] == 0
  {
    Lfu(ways, seq(sets * ways, _ => 0))
  }

  predicate CountsU64(p: Lfu)
  {
    forall i :: 0 <= i < |p.counts| ==> IsU64(p.counts[i])
  }

  /** `find_victim`: `std::min_element` over the set's counters. */
  method FindVictim(p: Lfu, s: nat) returns (victim: nat)
    requires p.ways > 0 && HasSet(p.counts, s, p.ways)
    ensures victim < p.ways
    ensures IsFirstMin(SetOf(p.counts, s, p.ways), victim)
  {
    victim := FirstMin(SetOf(p.counts, s, p.ways));
  }

  /** `update_replacement_state`: `.at()` throws `std::out_of_range` for a
      position past the end of the vector. */
  function Update(p: Lfu, s: nat, way: nat, t: AccessType, hit: bool): (r: Result<Lfu, string>)
    ensures r.Failure? <==> Slot(s, p.ways, way) >= |p.counts|
    ensures r.Success? ==> r.value.ways == p.ways && OnlyAt(p.counts, r.value.counts, Slot(s, p.ways, way))
    ensures r.Success? && !hit ==> r.value.counts[Slot(s, p.ways, way)] == 1
    ensures r.Success? && hit && t == Write ==> r.value == p
    ensures r.Success? && hit && t != Write ==>
      r.value.counts[Slot(s, p.ways, way)] == (p.counts[Slot(s, p.ways, way)] + 1) % U64
    ensures r.Success? && CountsU64(p) ==> CountsU64(r.value)
  {
    var i := Slot(s, p.ways, way);
    if i >= |p.counts| then Failure("std::out_of_range")
    else if !hit then Success(p.(counts := p.counts[i := 1]))
    else if t != Write then Success(p.(counts := p.counts[i := (p.counts[i] + 1) % U64]))
    else Success(p)
  }

  /** As written, no access can be recorded: every update of a freshly
      built policy throws. */
  lemma UpdateAsWrittenFails(sets: nat, ways: nat, s: nat, way: nat, t: AccessType, hit: bool)
    ensures Update(NewAsWritten(sets, ways), s, way, t, hit).Failure?
  {
  }

  /** With the counters sized, every access to a line of the cache is
      recorded, and a miss leaves the line counted once. */
  lemma UpdateOnNew(sets: nat, ways: nat, s: nat, way: nat, t: AccessType, hit: bool)
    requires s < sets && way < ways
    ensures var r := Update(New(sets, ways), s, way, t, hit);
      r.Success? && r.value.counts[Slot(s, ways, way)] == (if hit && t == Write then 0 else 1)
  {
    SlotInRange(sets, ways, s, way);
  }
}
