/** The RLR replacement policy (Polices/rlr/rlr.cc): every line keeps an
    age, whether it has been hit and whether its last access was a demand
    access; a line's priority is 8 when its age is below the reuse
    distance, plus 1 for each of the other two, and the victim is the line
    with the lowest (priority, age, way).  The reuse distance is learned
    from the ages of hit lines, 32 at a time, in `rd_entries[0]`, the only
    entry ever read or written. */
module Rlr {
  import opened CacheSets

  /** `SetRD`. */
  datatype SetRd = SetRd(entries: int, accum: int, rd: int)

  /** `Status`. */
  datatype Status = Status(age: int, typeAccess: int, typeHit: int)

  datatype Rlr = Rlr(ways: nat, lines: seq<Status>, rd0: SetRd)

  /** The number of hit ages averaged per reuse-distance update. */
  const Window: int := 32

  /** C's `/`, which truncates toward zero. */
  function CDiv(a: int, b: int): int
    requires b > 0
  {
    if a >= 0 then a / b else -((-a) / b)
  }

  function Max(a: int, b: int): int
  {
    if a >= b then a else b
  }

  function NewSetRd(): SetRd
  {
    SetRd(0, 0, 2)
  }

  /** `SetRD` between calls: the reuse distance is at least 2 and fewer
      than 32 ages are pending. */
  predicate SetRdValid(r: SetRd)
  {
    r.rd >= 2 && 0 <= r.entries < Window
  }

  /** `addEntry`. */
  function AddEntry(r: SetRd, age: int): (r': SetRd)
    requires SetRdValid(r)
    ensures SetRdValid(r')
    ensures r.entries + 1 < Window ==> r' == SetRd(r.entries + 1, r.accum + age, r.rd)
    ensures r.entries + 1 == Window ==> r' == SetRd(0, 0, Max(CDiv(2 * (r.accum + age), Window), 2))
  {
    var accum := r.accum + age;
    var entries := r.entries + 1;
    if entries == Window then SetRd(0, 0, Max(CDiv(2 * accum, entries), 2))
    else SetRd(entries, accum, r.rd)
  }

  function Sum(xs: seq<int>): int
  {
    if |xs| == 0 then 0 else Sum(xs[..|xs| - 1]) + xs[|xs| - 1]
  }

  function AddEntries(r: SetRd, ages: seq<int>): (r': SetRd)
    requires SetRdValid(r)
    ensures SetRdValid(r')
    decreases |ages|
  {
    if |ages| == 0 then r else AddEntry(AddEntries(r, ages[..|ages| - 1]), ages[|ages| - 1])
  }

  /** Fewer than 32 ages after a reset are only accumulated. */
  lemma {:induction false} Accumulates(r: SetRd, ages: seq<int>)
    requires SetRdValid(r) && r.entries == 0 && r.accum == 0
    requires |ages| < Window
    ensures AddEntries(r, ages) == SetRd(|ages|, Sum(ages), r.rd)
    decreases |ages|
  {
    if |ages| > 0 {
      Accumulates(r, ages[..|ages| - 1]);
    }
  }

  /** After 32 ages the reuse distance is twice their mean, truncated, and
      at least 2; the window starts afresh. */
  lemma WindowSetsRd(r: SetRd, ages: seq<int>)
    requires SetRdValid(r) && r.entries == 0 && r.accum == 0
    requires |ages| == Window
    ensures AddEntries(r, ages) == SetRd(0, 0, Max(CDiv(2 * Sum(ages), Window), 2))
  {
    Accumulates(r, ages[..Window - 1]);
  }

  function NewStatus(): Status
  {
    Status(0, 1, 0)
  }

  /** `returnPriority`. */
  function Priority(s: Status, rd: int): (p: int)
    ensures p in {0, 1, 2, 8, 9, 10}
    ensures p >= 8 <==> s.age < rd
    ensures p % 8 == (if s.typeHit == 1 then 1 else 0) + (if s.typeAccess == 1 then 1 else 0)
  {
    8 * (if s.age < rd then 1 else 0) + (if s.typeHit == 1 then 1 else 0) + (if s.typeAccess == 1 then 1 else 0)
  }

  /** `reset`. */
  function Reset(access: int): Status
  {
    Status(0, access, 0)
  }

  /** `initialize_replacement`. */
  function New(sets: nat, ways: nat): (r: Rlr)
    ensures r.ways == ways && |r.lines| == sets * ways && r.rd0 == NewSetRd()
    ensures forall i :: 0 <= i < |r.lines| ==> r.lines[i] == NewStatus()
  {
    Rlr(ways, seq(sets * ways, _ => NewStatus()), NewSetRd())
  }

  /** The triple `find_victim` sorts on. */
  function Key(p: Rlr, s: nat, w: nat): (int, int, int)
    requires HasSet(p.lines, s, p.ways) && w < p.ways
  {
    var line := p.lines[Slot(s, p.ways, w)];
    (Priority(line, p.rd0.rd), line.age, w)
  }

  predicate LexLess(a: (int, int, int), b: (int, int, int))
  {
    a.0 < b.0 || (a.0 == b.0 && (a.1 < b.1 || (a.1 == b.1 && a.2 < b.2)))
  }

  /** `find_victim`: the way of the smallest triple, which is what sorting
      the triples and taking the first yields. */
  method FindVictim(p: Rlr, s: nat) returns (victim: nat)
    requires p.ways > 0 && HasSet(p.lines, s, p.ways)
    ensures victim < p.ways
    ensures forall w :: 0 <= w < p.ways && w != victim ==> LexLess(Key(p, s, victim), Key(p, s, w))
  {
    victim := 0;
    var i := 1;
    while i < p.ways
      invariant 1 <= i <= p.ways && victim < i
      invariant forall w :: 0 <= w < i && w != victim ==> LexLess(Key(p, s, victim), Key(p, s, w))
    {
      if LexLess(Key(p, s, i), Key(p, s, victim)) {
        victim := i;
      }
      i := i + 1;
    }
  }

  /** `update_replacement_state`. */
  function Update(p: Rlr, s: nat, way: nat, t: AccessType, hit: bool): (r: Rlr)
    requires HasSet(p.lines, s, p.ways) && way < p.ways && SetRdValid(p.rd0)
    ensures r.ways == p.ways && OnlyInSet(p.lines, r.lines, s, p.ways) && SetRdValid(r.rd0)
    ensures hit && t == Write ==> r == p
    ensures !(hit && t == Write) ==> forall w :: 0 <= w < p.ways && w != way ==>
      r.lines[Slot(s, p.ways, w)] == p.lines[Slot(s, p.ways, w)].(age := p.lines[Slot(s, p.ways, w)].age + 1)
    ensures hit && t != Write ==>
      r.lines[Slot(s, p.ways, way)] == Status(0, if t == Prefetch then 0 else 1, 1) &&
      r.rd0 == AddEntry(p.rd0, p.lines[Slot(s, p.ways, way)].age)
    ensures !hit ==> r.lines[Slot(s, p.ways, way)] == Reset(if t == Prefetch then 0 else 1) && r.rd0 == p.rd0
  {
    if hit && t == Write then p
    else
      var base := s * p.ways;
      var i := Slot(s, p.ways, way);
      var aged := seq(|p.lines|, j requires 0 <= j < |p.lines| =>
        if base <= j < base + p.ways && j != i then p.lines[j].(age := p.lines[j].age + 1) else p.lines[j]);
      var access := if t == Prefetch then 0 else 1;
      if hit then
        Rlr(p.ways, aged[i := Status(0, access, 1)], AddEntry(p.rd0, p.lines[i].age))
      else
        Rlr(p.ways, aged[i := Reset(access)], p.rd0)
  }
}
