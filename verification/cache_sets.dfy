/** What the replacement policies share: ChampSim's access types, per-line
    state kept in one flat vector (line `way` of set `s` at
    `s * ways + way`), and `std::min_element` over a set's slice. */
module CacheSets {
  /** ChampSim's `access_type`. */
  datatype AccessType = Load | Rfo | Prefetch | Write | Translation

  /** `2^64`: the values a `uint64_t` holds are `0 .. U64 - 1`. */
  const U64: int := 0x1_0000_0000_0000_0000

  predicate IsU64(x: int)
  {
    0 <= x < U64
  }

  /** The position of line `way` of set `s`. */
  function Slot(s: nat, ways: nat, way: nat): nat
  {
    s * ways + way
  }

  /** The set's lines lie inside the vector. */
  predicate HasSet<T>(v: seq<T>, s: nat, ways: nat)
  {
    s * ways + ways <= |v|
  }

  /** The slice of the vector holding the set's lines. */
  function SetOf<T>(v: seq<T>, s: nat, ways: nat): (r: seq<T>)
    requires HasSet(v, s, ways)
    ensures |r| == ways
    ensures forall w :: 0 <= w < ways ==> r[w] == v[Slot(s, ways, w)]
  {
    v[s * ways .. s * ways + ways]
  }

  /** `a` and `b` differ at most at position `i`. */
  predicate OnlyAt<T(==)>(a: seq<T>, b: seq<T>, i: nat)
  {
    |a| == |b| && forall j :: 0 <= j < |a| && j != i ==> a[j] == b[j]
  }

  /** `a` and `b` differ at most inside the set's slice. */
  predicate OnlyInSet<T(==)>(a: seq<T>, b: seq<T>, s: nat, ways: nat)
  {
    |a| == |b| && forall j :: 0 <= j < |a| && !(s * ways <= j < s * ways + ways) ==> a[j] == b[j]
  }

  /** `std::min_element`: the first position holding the smallest value. */
  predicate IsFirstMin(xs: seq<int>, m: nat)
  {
    m < |xs| && (forall j :: 0 <= j < |xs| ==> xs[m] <= xs[j]) && (forall j :: 0 <= j < m ==> xs[j] > xs[m])
  }

  /** There is only one first minimum. */
  lemma FirstMinUnique(xs: seq<int>, a: nat, b: nat)
    requires IsFirstMin(xs, a) && IsFirstMin(xs, b)
    ensures a == b
  {
    assert xs[a] <= xs[b] && xs[b] <= xs[a];
  }

  /** The scan `std::min_element` performs. */
  method FirstMin(xs: seq<int>) returns (m: nat)
    requires |xs| > 0
    ensures IsFirstMin(xs, m)
  {
    m := 0;
    var i := 1;
    while i < |xs|
      invariant 1 <= i <= |xs| && m < i
      invariant forall j :: 0 <= j < i ==> xs[m] <= xs[j]
      invariant forall j :: 0 <= j < m ==> xs[j] > xs[m]
    {
      if xs[i] < xs[m] {
        m := i;
      }
      i := i + 1;
    }
  }

  /** The first position holding `x`, if any. */
  predicate IsFirstOf(xs: seq<int>, x: int, m: nat)
  {
    m < |xs| && xs[m] == x && forall j :: 0 <= j < m ==> xs[j] != x
  }

  /** The scan for the first `x`: its position, or `|xs|` when there is none. */
  method FirstOf(xs: seq<int>, x: int) returns (m: nat)
    ensures m <= |xs|
    ensures m < |xs| ==> IsFirstOf(xs, x, m)
    ensures m == |xs| <==> x !in xs
  {
    m := 0;
    while m < |xs| && xs[m] != x
      invariant m <= |xs|
      invariant forall j :: 0 <= j < m ==> xs[j] != x
    {
      m := m + 1;
    }
  }

  /** A vector of `sets * ways` entries holds every line of every set. */
  lemma SlotInRange(sets: nat, ways: nat, s: nat, way: nat)
    requires s < sets && way < ways
    ensures Slot(s, ways, way) < sets * ways
    ensures s * ways + ways <= sets * ways
  {
    var k: nat := sets - s - 1;
    assert sets * ways == s * ways + ways + k * ways;
  }
}
