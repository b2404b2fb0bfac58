/** The EMISSARY replacement policy (Polices/emissary/emissary.cc): each
    line has a priority bit and a last-use stamp.  An access marks its line
    high priority when a 1-in-32 draw comes up (`result`, a parameter
    here), at most `hp_threshold` times before high-priority lines start
    being demoted; the victim is the least recently used line among the
    low-priority lines, or among the high-priority ones once the threshold
    is reached.  The stamp written is `cycle`, which stays 0. */
module Emissary {
  import opened CacheSets

  datatype Emissary = Emissary(ways: nat, cycles: seq<int>, bits: seq<int>, hpCount: int, cycle: int)

  /** `hp_threshold`. */
  const HpThreshold: int := 32

  /** `UINT64_MAX`, the scan's starting minimum. */
  const MaxU64: int := U64 - 1

  /** The constructor followed by `initialize_replacement`. */
  function New(sets: nat, ways: nat): (r: Emissary)
    ensures r.ways == ways && |r.cycles| == sets * ways && |r.bits| == sets * ways
    ensures forall i :: 0 <= i < sets * ways ==> r.cycles[i] == 0 && r.bits[i] == 0
    ensures r.hpCount == 0 && r.cycle == 0
  {
    Emissary(ways, seq(sets * ways, _ => 0), seq(sets * ways, _ => 0), 0, 0)
  }

  predicate WellFormed(p: Emissary)
  {
    |p.cycles| == |p.bits|
  }

  /** A line the scan may pick: its bit is the one sought and its stamp
      is below `UINT64_MAX`. */
  predicate Eligible(bits: seq<int>, cycles: seq<int>, target: int, w: nat)
    requires w < |bits| && w < |cycles|
  {
    bits[w] == target && cycles[w] < MaxU64
  }

  /** The scan's answer over the first `n` lines: the first eligible line
      with the smallest stamp, or 0 when no line is eligible. */
  predicate IsLruPick(bits: seq<int>, cycles: seq<int>, target: int, n: nat, v: nat)
    requires n <= |bits| && n <= |cycles|
  {
    if exists w :: 0 <= w < n && Eligible(bits, cycles, target, w) then
      v < n && Eligible(bits, cycles, target, v) &&
      (forall w :: 0 <= w < n && Eligible(bits, cycles, target, w) ==> cycles[v] <= cycles[w]) &&
      (forall w :: 0 <= w < v && Eligible(bits, cycles, target, w) ==> cycles[w] > cycles[v])
    else v == 0
  }

  /** The loop of `find_victim` (and of the demotion on a hit) over the
      first `n` positions: the position kept and the smallest stamp seen. */
  function Scan(bits: seq<int>, cycles: seq<int>, target: int, n: nat): (r: (nat, int))
    requires n <= |bits| && n <= |cycles|
    ensures IsLruPick(bits, cycles, target, n, r.0)
    ensures (exists w :: 0 <= w < n && Eligible(bits, cycles, target, w)) ==> r.1 == cycles[r.0]
    ensures !(exists w :: 0 <= w < n && Eligible(bits, cycles, target, w)) ==> r.1 == MaxU64
  {
    if n == 0 then (0, MaxU64)
    else
      var prev := Scan(bits, cycles, target, n - 1);
      var w := n - 1;
      if bits[w] == target && cycles[w] < prev.1 then
        assert Eligible(bits, cycles, target, w) by {
          assert !(exists u :: 0 <= u < n - 1 && Eligible(bits, cycles, target, u)) ==> prev.1 == MaxU64;
        }
        (w, cycles[w])
      else
        prev
  }

  /** The scan's answer is determined: at most one position meets it. */
  lemma LruPickUnique(bits: seq<int>, cycles: seq<int>, target: int, n: nat, v1: nat, v2: nat)
    requires n <= |bits| && n <= |cycles|
    requires IsLruPick(bits, cycles, target, n, v1) && IsLruPick(bits, cycles, target, n, v2)
    ensures v1 == v2
  {
  }

  /** The bit `find_victim` looks for: 1 once the threshold is reached. */
  function Target(p: Emissary): int
  {
    if p.hpCount >= HpThreshold then 1 else 0
  }

  /** `find_victim` as written: the loop walks the set's range but reads
      `priority_bits` and `last_used_cycles` at the offset within the set,
      which are set 0's entries whatever the set. */
  function FindVictimAsWritten(p: Emissary, s: nat): (v: nat)
    requires WellFormed(p) && HasSet(p.bits, s, p.ways)
    ensures v < p.ways || v == 0
    ensures IsLruPick(p.bits, p.cycles, Target(p), p.ways, v)
  {
    Scan(p.bits, p.cycles, Target(p), p.ways).0
  }

  /** As written, every set gets the victim of set 0. */
  lemma VictimOfSetZero(p: Emissary, s: nat)
    requires WellFormed(p) && HasSet(p.bits, s, p.ways)
    ensures FindVictimAsWritten(p, s) == FindVictimAsWritten(p, 0)
  {
  }

  /** `find_victim` reading the set's own lines. */
  function FindVictim(p: Emissary, s: nat): (v: nat)
    requires WellFormed(p) && HasSet(p.bits, s, p.ways)
    ensures v < p.ways || v == 0
    ensures IsLruPick(SetOf(p.bits, s, p.ways), SetOf(p.cycles, s, p.ways), Target(p), p.ways, v)
  {
    Scan(SetOf(p.bits, s, p.ways), SetOf(p.cycles, s, p.ways), Target(p), p.ways).0
  }

  /** Stamps are only ever `cycle`, which is 0, so among the lines of the
      sought priority the victim is simply the first. */
  lemma FirstOfPriority(p: Emissary, s: nat, w: nat)
    requires WellFormed(p) && HasSet(p.bits, s, p.ways)
    requires forall i :: 0 <= i < |p.cycles| ==> p.cycles[i] == 0
    requires w < p.ways && p.bits[Slot(s, p.ways, w)] == Target(p)
    requires forall u :: 0 <= u < w ==> p.bits[Slot(s, p.ways, u)] != Target(p)
    ensures FindVictim(p, s) == w
  {
    var bs, cs := SetOf(p.bits, s, p.ways), SetOf(p.cycles, s, p.ways);
    var v := FindVictim(p, s);
    assert Eligible(bs, cs, Target(p), w);
    assert v < p.ways && Eligible(bs, cs, Target(p), v);
    assert bs[v] == Target(p);
    assert !(v < w);
    assert cs[w] == 0 && cs[v] == 0;
    assert !(w < v);
  }

  /** A hit whose draw came up once the threshold is reached demotes a
      high-priority line before promoting the accessed one. */
  predicate Demotes(p: Emissary, hit: bool, result: bool)
  {
    hit && result && p.hpCount >= HpThreshold
  }

  /** The accessed line is stamped on a read hit, and on a miss whose draw
      came up; a write hit and a miss without the draw leave it alone. */
  predicate Stamps(t: AccessType, hit: bool, result: bool)
  {
    (hit && t != Write) || (!hit && result)
  }

  /** The part of `update_replacement_state` every variant shares: the
      accessed line's bit, the count of promotions and the stamp.  On a
      hit with the threshold reached, `demote` is the position whose bit
      is cleared first. */
  function Access(p: Emissary, s: nat, way: nat, t: AccessType, hit: bool, result: bool, demote: nat): (r: Emissary)
    requires WellFormed(p) && HasSet(p.bits, s, p.ways) && way < p.ways && demote < |p.bits|
    ensures WellFormed(r) && r.ways == p.ways && r.cycle == p.cycle && |r.bits| == |p.bits|
    ensures r.bits[Slot(s, p.ways, way)] == (if result then 1 else 0)
    ensures forall j :: 0 <= j < |p.bits| && j != Slot(s, p.ways, way) && j != demote ==> r.bits[j] == p.bits[j]
    ensures Demotes(p, hit, result) && demote != Slot(s, p.ways, way) ==> r.bits[demote] == 0
    ensures !Demotes(p, hit, result) ==> OnlyAt(p.bits, r.bits, Slot(s, p.ways, way))
    ensures OnlyAt(p.cycles, r.cycles, Slot(s, p.ways, way))
    ensures Stamps(t, hit, result) ==> r.cycles[Slot(s, p.ways, way)] == p.cycle
    ensures !Stamps(t, hit, result) ==> r.cycles == p.cycles
    ensures r.hpCount == (if result && p.hpCount < HpThreshold then p.hpCount + 1 else p.hpCount)
  {
    var i := Slot(s, p.ways, way);
    var promote := result && p.hpCount < HpThreshold;
    var bits :=
      if result && !promote && hit then p.bits[demote := 0][i := 1]
      else p.bits[i := if result then 1 else 0];
    var cycles :=
      if (hit && t != Write) || (!hit && result) then p.cycles[i := p.cycle] else p.cycles;
    p.(bits := bits, cycles := cycles, hpCount := if promote then p.hpCount + 1 else p.hpCount)
  }

  /** `update_replacement_state` as written: the line demoted on a hit is
      found by the same set-0 scan and cleared at its offset, in set 0. */
  function UpdateAsWritten(p: Emissary, s: nat, way: nat, t: AccessType, hit: bool, result: bool): (r: Emissary)
    requires WellFormed(p) && HasSet(p.bits, s, p.ways) && way < p.ways
    ensures WellFormed(r) && r.ways == p.ways && |r.bits| == |p.bits|
    ensures r.bits[Slot(s, p.ways, way)] == (if result then 1 else 0)
    ensures forall j :: 0 <= j < |p.bits| && j != Slot(s, p.ways, way) && j >= p.ways ==> r.bits[j] == p.bits[j]
  {
    var demote := Scan(p.bits, p.cycles, 1, p.ways).0;
    assert demote < p.ways;
    Access(p, s, way, t, hit, result, demote)
  }

  /** A hit in set 1 demotes a line of set 0. */
  lemma DemotesInSetZero()
    ensures var p := Emissary(2, [0, 0, 0, 0], [1, 0, 0, 0], HpThreshold, 0);
      UpdateAsWritten(p, 1, 0, Load, true, true).bits == [0, 0, 1, 0]
  {
    var p := Emissary(2, [0, 0, 0, 0], [1, 0, 0, 0], HpThreshold, 0);
    assert Eligible(p.bits, p.cycles, 1, 0);
    assert Scan(p.bits, p.cycles, 1, 2).0 == 0;
  }

  /** `update_replacement_state` demoting the least recently used
      high-priority line of the accessed set. */
  function Update(p: Emissary, s: nat, way: nat, t: AccessType, hit: bool, result: bool): (r: Emissary)
    requires WellFormed(p) && HasSet(p.bits, s, p.ways) && way < p.ways
    ensures WellFormed(r) && r.ways == p.ways && r.cycle == p.cycle && |r.bits| == |p.bits|
    ensures r.bits[Slot(s, p.ways, way)] == (if result then 1 else 0)
    ensures OnlyInSet(p.bits, r.bits, s, p.ways)
    ensures Demotes(p, hit, result) ==> exists w :: 0 <= w < p.ways && DemotedAt(p, r, s, way, w)
    ensures !Demotes(p, hit, result) ==> OnlyAt(p.bits, r.bits, Slot(s, p.ways, way))
    ensures OnlyAt(p.cycles, r.cycles, Slot(s, p.ways, way))
    ensures Stamps(t, hit, result) ==> r.cycles[Slot(s, p.ways, way)] == p.cycle
    ensures !Stamps(t, hit, result) ==> r.cycles == p.cycles
    ensures r.hpCount == (if result && p.hpCount < HpThreshold then p.hpCount + 1 else p.hpCount)
    ensures p.hpCount <= HpThreshold ==> r.hpCount <= HpThreshold
  {
    var w := Scan(SetOf(p.bits, s, p.ways), SetOf(p.cycles, s, p.ways), 1, p.ways).0;
    assert w < p.ways;
    var demote := Slot(s, p.ways, w);
    var r := Access(p, s, way, t, hit, result, demote);
    if Demotes(p, hit, result) then
      DemotedAtSlot(p, r, s, way, w, demote);
      r
    else r
  }

  /** Way `w` of the set is its least recently used high-priority line:
      it lost its bit unless it is the accessed line, and every other line
      of the set but the accessed one kept its bit. */
  predicate DemotedAt(p: Emissary, r: Emissary, s: nat, way: nat, w: nat)
    requires WellFormed(p) && HasSet(p.bits, s, p.ways) && |r.bits| == |p.bits| && w < p.ways
  {
    && IsLruPick(SetOf(p.bits, s, p.ways), SetOf(p.cycles, s, p.ways), 1, p.ways, w)
    && (w != way ==> r.bits[Slot(s, p.ways, w)] == 0)
    && forall u :: 0 <= u < p.ways && u != way && u != w ==> r.bits[Slot(s, p.ways, u)] == p.bits[Slot(s, p.ways, u)]
  }

  lemma DemotedAtSlot(p: Emissary, r: Emissary, s: nat, way: nat, w: nat, demote: nat)
    requires WellFormed(p) && HasSet(p.bits, s, p.ways) && |r.bits| == |p.bits| && w < p.ways && way < p.ways
    requires IsLruPick(SetOf(p.bits, s, p.ways), SetOf(p.cycles, s, p.ways), 1, p.ways, w)
    requires demote == Slot(s, p.ways, w)
    requires demote != Slot(s, p.ways, way) ==> r.bits[demote] == 0
    requires forall j :: 0 <= j < |p.bits| && j != Slot(s, p.ways, way) && j != demote ==> r.bits[j] == p.bits[j]
    ensures DemotedAt(p, r, s, way, w)
  {
    forall u | 0 <= u < p.ways && u != way && u != w
      ensures r.bits[Slot(s, p.ways, u)] == p.bits[Slot(s, p.ways, u)]
    {
      SlotsApart(s, p.ways, u, way);
      SlotsApart(s, p.ways, u, w);
    }
    if w != way {
      SlotsApart(s, p.ways, w, way);
    }
  }

  lemma SlotsApart(s: nat, ways: nat, a: nat, b: nat)
    requires a < ways && b < ways && a != b
    ensures Slot(s, ways, a) != Slot(s, ways, b)
  {
  }

  /** A promoting hit past the threshold in set 1, whose second line is
      its only high-priority one: as written set 0's first line is
      demoted, while the corrected update demotes set 1's second line. */
  lemma DemotesInOwnSet()
    ensures var p := Emissary(2, [0, 0, 0, 0], [1, 0, 0, 1], HpThreshold, 0);
      && UpdateAsWritten(p, 1, 0, Load, true, true).bits == [0, 0, 1, 1]
      && Update(p, 1, 0, Load, true, true).bits == [1, 0, 1, 0]
  {
    var p := Emissary(2, [0, 0, 0, 0], [1, 0, 0, 1], HpThreshold, 0);
    assert Eligible(p.bits, p.cycles, 1, 0);
    assert Scan(p.bits, p.cycles, 1, 2).0 == 0;
    var bs, cs := SetOf(p.bits, 1, 2), SetOf(p.cycles, 1, 2);
    assert bs == [0, 1] && cs == [0, 0];
    assert Eligible(bs, cs, 1, 1);
    assert Scan(bs, cs, 1, 2).0 == 1;
  }

  /** Starting from the constructor, stamps stay 0 and the promotion count
      stays within the threshold and never falls. */
  lemma UpdateKeepsInvariants(p: Emissary, s: nat, way: nat, t: AccessType, hit: bool, result: bool)
    requires WellFormed(p) && HasSet(p.bits, s, p.ways) && way < p.ways
    requires p.cycle == 0 && forall i :: 0 <= i < |p.cycles| ==> p.cycles[i] == 0
    requires 0 <= p.hpCount <= HpThreshold
    ensures var r := Update(p, s, way, t, hit, result);
      (forall i :: 0 <= i < |r.cycles| ==> r.cycles[i] == 0) && p.hpCount <= r.hpCount <= HpThreshold
  {
    var r := Update(p, s, way, t, hit, result);
    forall i | 0 <= i < |r.cycles| ensures r.cycles[i] == 0 {
      if i != Slot(s, p.ways, way) {
        assert r.cycles[i] == p.cycles[i];
      }
    }
  }
}
