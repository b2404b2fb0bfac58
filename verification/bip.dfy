/** The BIP replacement policy (Polices/bip/bip.cc): one mark per line,
    1 for "most recently used" and 0 for "least"; the victim is the set's
    first unmarked line, and a set whose lines are all marked is cleared.
    The random draw of a miss is a parameter. */
module Bip {
  import opened CacheSets

  datatype Bip = Bip(ways: nat, marks: seq<int>)

  /** `eps`: a miss marks its line when the draw is below it. */
  const Eps: real := 1.0

  /** The constructor: every line of every set unmarked. */
  function New(sets: nat, ways: nat): (r: Bip)
    ensures r.ways == ways && |r.marks| == sets * ways
    ensures forall i :: 0 <= i < |r.marks| ==> r.marks[i] == 0
  {
    Bip(ways, seq(sets * ways, _ => 0))
  }

  predicate Marks01(p: Bip)
  {
    forall i :: 0 <= i < |p.marks| ==> p.marks[i] == 0 || p.marks[i] == 1
  }

  /** `find_victim`: the first unmarked line of the set, else line 0. */
  method FindVictim(p: Bip, s: nat) returns (victim: nat)
    requires p.ways > 0 && HasSet(p.marks, s, p.ways)
    ensures victim < p.ways
    ensures 0 in SetOf(p.marks, s, p.ways) ==> IsFirstOf(SetOf(p.marks, s, p.ways), 0, victim)
    ensures 0 !in SetOf(p.marks, s, p.ways) ==> victim == 0
  {
    var w := FirstOf(SetOf(p.marks, s, p.ways), 0);
    victim := if w < p.ways then w else 0;
  }

  /** Every line of the set is marked. */
  predicate AllMarked(marks: seq<int>, s: nat, ways: nat)
    requires HasSet(marks, s, ways)
  {
    forall w :: 0 <= w < ways ==> marks[Slot(s, ways, w)] == 1
  }

  /** The mark the access leaves on its line before the set is checked. */
  function Marked(p: Bip, s: nat, way: nat, t: AccessType, hit: bool, draw: real): (m: seq<int>)
    requires HasSet(p.marks, s, p.ways) && way < p.ways
    ensures OnlyAt(p.marks, m, Slot(s, p.ways, way))
    ensures (!hit && draw < Eps) || (hit && t != Write && p.marks[Slot(s, p.ways, way)] == 0) ==> m[Slot(s, p.ways, way)] == 1
    ensures !hit && draw >= Eps ==> m[Slot(s, p.ways, way)] == 0
    ensures hit && (t == Write || p.marks[Slot(s, p.ways, way)] != 0) ==> m == p.marks
  {
    var i := Slot(s, p.ways, way);
    if !hit then p.marks[i := if draw < Eps then 1 else 0]
    else if t != Write && p.marks[i] == 0 then p.marks[i := 1]
    else p.marks
  }

  /** `update_replacement_state`.  A draw lies in `[0, 1)` and `eps` is 1,
      so a miss always marks its line, exactly like a read hit; the line
      ends unmarked only when that completed the set and the set was
      cleared. */
  function Update(p: Bip, s: nat, way: nat, t: AccessType, hit: bool, draw: real): (r: Bip)
    requires HasSet(p.marks, s, p.ways) && way < p.ways
    ensures r.ways == p.ways && OnlyInSet(p.marks, r.marks, s, p.ways)
    ensures Marks01(p) ==> Marks01(r)
    ensures exists w :: 0 <= w < p.ways && r.marks[Slot(s, p.ways, w)] != 1
    ensures Marks01(p) && ((!hit && 0.0 <= draw < 1.0) || (hit && t != Write)) ==>
      (r.marks[Slot(s, p.ways, way)] == 1 <==> exists w :: 0 <= w < p.ways && w != way && p.marks[Slot(s, p.ways, w)] == 0)
    ensures hit && t == Write && !AllMarked(p.marks, s, p.ways) ==> r == p
    ensures AllMarked(Marked(p, s, way, t, hit, draw), s, p.ways) ==>
      forall w :: 0 <= w < p.ways ==> r.marks[Slot(s, p.ways, w)] == 0
    ensures !AllMarked(Marked(p, s, way, t, hit, draw), s, p.ways) ==> r.marks == Marked(p, s, way, t, hit, draw)
  {
    var m := Marked(p, s, way, t, hit, draw);
    var base := s * p.ways;
    if AllMarked(m, s, p.ways) then
      var cleared := seq(|m|, i requires 0 <= i < |m| => if base <= i < base + p.ways then 0 else m[i]);
      assert cleared[Slot(s, p.ways, way)] == 0;
      Bip(p.ways, cleared)
    else
      Bip(p.ways, m)
  }

  /** A read hit that completes the set clears it; one that does not
      marks only its own line. */
  lemma ResetExamples()
    ensures Update(Bip(3, [0, 1, 1]), 0, 0, Load, true, 0.5).marks == [0, 0, 0]
    ensures Update(Bip(3, [0, 0, 1]), 0, 0, Load, true, 0.5).marks == [1, 0, 1]
  {
    assert AllMarked([1, 1, 1], 0, 3);
    assert !AllMarked([1, 0, 1], 0, 3) by {
      assert [1, 0, 1][Slot(0, 3, 1)] == 0;
    }
  }

  /** After any update the set has an unmarked line, so the next
      `find_victim` picks an unmarked line rather than falling back to
      line 0. */
  lemma UpdateLeavesUnmarked(p: Bip, s: nat, way: nat, t: AccessType, hit: bool, draw: real)
    requires HasSet(p.marks, s, p.ways) && way < p.ways && Marks01(p)
    ensures var r := Update(p, s, way, t, hit, draw); 0 in SetOf(r.marks, s, r.ways)
  {
    var r := Update(p, s, way, t, hit, draw);
    var w :| 0 <= w < p.ways && r.marks[Slot(s, p.ways, w)] != 1;
    assert SetOf(r.marks, s, r.ways)[w] == 0;
  }
}
