/** The PCN replacement policy (Policies/pcn/pcn.cc): a perceptron with one
    weight table per feature (`pc`, `setIndex`, `is_write`) of the line's
    last access.  The victim is the line with the smallest prediction; an
    update trains the tables on the accessed line (down on a hit, up on a
    miss) and then lets each table grow or shrink by its usage count.  The
    perceptron is one global instance shared by every cache. */
module Pcn {
  import opened CacheSets
  import WT = WeightTables

  /** `MAX_WEIGHT` and `MIN_WEIGHT`: the saturating bounds of a weight. */
  const MaxWeight: int := 31
  const MinWeight: int := -32

  /** `INT32_MAX`, the starting minimum of `find_victim`. */
  const Int32Max: int := 0x7fff_ffff

  /** The features, in the order `extract_features` lists them. */
  datatype Feature = PcFeature | SetIndexFeature | IsWriteFeature

  const Features: seq<Feature> := [PcFeature, SetIndexFeature, IsWriteFeature]

  function Index(f: Feature): nat
  {
    match f
    case PcFeature => 0
    case SetIndexFeature => 1
    case IsWriteFeature => 2
  }

  /** `BlockMetadata`: the last access of a line. */
  datatype Meta = Meta(pc: bv64, isWrite: bool)

  /** The table sizes reachable from `INITIAL_TABLE_SIZE` by doubling and
      halving no lower than it: `256 * 2^k`. */
  predicate IsTableSize(n: int)
    decreases n
  {
    n == WT.InitialSize || (n > WT.InitialSize && n % 2 == 0 && IsTableSize(n / 2))
  }

  /** The global perceptron: one table and one usage count per feature. */
  datatype Perceptron = Perceptron(tables: seq<WT.WeightTable>, usage: seq<int>)

  predicate ValidPerceptron(q: Perceptron)
  {
    |q.tables| == 3 && |q.usage| == 3
    && forall f :: 0 <= f < 3 ==>
      WT.Valid(q.tables[f]) && IsTableSize(q.tables[f].size) && WT.InRange(q.tables[f], MinWeight, MaxWeight)
  }

  /** Every table size is a positive multiple of 256. */
  lemma TableSizePositive(n: int)
    requires IsTableSize(n)
    ensures n >= WT.InitialSize
  {
  }

  /** `pcn()`: three default tables; usage counts start at 0. */
  function NewPerceptron(): (q: Perceptron)
    ensures ValidPerceptron(q)
    ensures forall f :: 0 <= f < 3 ==> q.tables[f].size == WT.InitialSize && q.usage[f] == 0
  {
    var t := WT.Default();
    Perceptron([t, t, t], [0, 0, 0])
  }

  /** The policy: one `BlockMetadata` per line, plus the global perceptron. */
  datatype Pcn = Pcn(ways: nat, meta: seq<Meta>, perceptron: Perceptron)

  /** The constructor and `initialize_replacement`. */
  function New(sets: nat, ways: nat): (p: Pcn)
    ensures p.ways == ways && |p.meta| == sets * ways
    ensures ValidPerceptron(p.perceptron)
    ensures forall i :: 0 <= i < |p.meta| ==> p.meta[i] == Meta(0, false)
  {
    Pcn(ways, seq(sets * ways, _ => Meta(0, false)), NewPerceptron())
  }

  /** `hash_feature`: the feature xor the low 16 bits of the PC, modulo the
      table size. */
  function Hash(feature: bv64, pc: bv64, size: int): (r: nat)
    requires size > 0
    ensures r < size
  {
    ((feature ^ (pc & 0xFFFF)) as int) % size
  }

  /** Only the low 16 bits of the PC take part in the hash. */
  lemma HashLow16(feature: bv64, pc1: bv64, pc2: bv64, size: int)
    requires size > 0
    requires pc1 & 0xFFFF == pc2 & 0xFFFF
    ensures Hash(feature, pc1, size) == Hash(feature, pc2, size)
  {
  }

  /** The set index as `extract_features` receives it: a `uint32_t`. */
  function SetFeature(s: nat): bv64
  {
    (s % 0x1_0000_0000) as bv64
  }

  /** `extract_features`: the line's PC, the set index and 1 for a write. */
  function FeatureValues(m: Meta, s: nat): (v: seq<bv64>)
    ensures |v| == 3
    ensures v[Index(PcFeature)] == m.pc && v[Index(SetIndexFeature)] == SetFeature(s)
    ensures v[Index(IsWriteFeature)] == 1 <==> m.isWrite
    ensures v[Index(IsWriteFeature)] == 0 <==> !m.isWrite
  {
    [m.pc, SetFeature(s), if m.isWrite then 1 else 0]
  }

  /** The weight feature `f` contributes to a prediction. */
  function WeightOf(q: Perceptron, v: seq<bv64>, pc: bv64, f: nat): (w: int)
    requires ValidPerceptron(q) && |v| == 3 && f < 3
    ensures MinWeight <= w <= MaxWeight
  {
    TableSizePositive(q.tables[f].size);
    q.tables[f].weights[Hash(v[f], pc, q.tables[f].size)]
  }

  /** The perceptron output `yout` before the activation. */
  function Output(q: Perceptron, v: seq<bv64>, pc: bv64): (y: int)
    requires ValidPerceptron(q) && |v| == 3
    ensures 3 * MinWeight <= y <= 3 * MaxWeight
  {
    WeightOf(q, v, pc, 0) + WeightOf(q, v, pc, 1) + WeightOf(q, v, pc, 2)
  }

  /** The leaky ReLU, `yout > 0 ? yout : (int)(0.01f * yout)`.  The cast
      truncates toward zero, and for an output of at least -99 the product
      lies in `(-1, 0]`, so a non-positive output becomes 0. */
  function Activate(y: int): (r: int)
    requires y >= -99
    ensures r >= 0 && (r == y || (r == 0 && y <= 0))
    ensures y > 0 ==> r == y
  {
    if y > 0 then y else 0
  }

  /** `compute_prediction`.  Weights stay in `[-32, 31]`, so the output is
      never below -96 and the prediction never reaches `INT32_MAX`. */
  function Predict(q: Perceptron, v: seq<bv64>, pc: bv64): (r: int)
    requires ValidPerceptron(q) && |v| == 3
    ensures 0 <= r <= 3 * MaxWeight < Int32Max
    ensures r == 0 <==> Output(q, v, pc) <= 0
  {
    Activate(Output(q, v, pc))
  }

  /** The predictions `find_victim` computes for the ways of set `s`. */
  function Predictions(p: Pcn, s: nat, ip: bv64): (ys: seq<int>)
    requires ValidPerceptron(p.perceptron) && HasSet(p.meta, s, p.ways)
    ensures |ys| == p.ways
    ensures forall w :: 0 <= w < p.ways ==> 0 <= ys[w] < Int32Max
  {
    seq(p.ways, w requires 0 <= w < p.ways =>
      Predict(p.perceptron, FeatureValues(p.meta[Slot(s, p.ways, w)], s), ip))
  }

  /** The scan of `find_victim`: starting from `INT32_MAX`, a way replaces
      the victim only when its prediction is strictly smaller. */
  method ScanMin(ys: seq<int>) returns (victim: nat)
    requires forall w :: 0 <= w < |ys| ==> ys[w] < Int32Max
    ensures |ys| > 0 ==> IsFirstMin(ys, victim)
    ensures |ys| == 0 ==> victim == 0
  {
    victim := 0;
    var minY := Int32Max;
    var way := 0;
    while way < |ys|
      invariant 0 <= way <= |ys|
      invariant way == 0 ==> victim == 0 && minY == Int32Max
      invariant way > 0 ==> victim < way && minY == ys[victim]
      invariant forall j :: 0 <= j < way ==> minY <= ys[j]
      invariant forall j :: 0 <= j < victim ==> ys[j] > minY
    {
      if ys[way] < minY {
        minY := ys[way];
        victim := way;
      }
      way := way + 1;
    }
  }

  /** `find_victim`: the first way with the smallest prediction (way 0 when
      the cache has no ways). */
  method FindVictim(p: Pcn, s: nat, ip: bv64) returns (victim: nat)
    requires ValidPerceptron(p.perceptron) && HasSet(p.meta, s, p.ways)
    ensures p.ways > 0 ==> IsFirstMin(Predictions(p, s, ip), victim)
    ensures p.ways == 0 ==> victim == 0
  {
    victim := ScanMin(Predictions(p, s, ip));
  }

  /** `std::clamp(w + adjustment, MIN_WEIGHT, MAX_WEIGHT)`. */
  function Clamp(x: int): (r: int)
    ensures MinWeight <= r <= MaxWeight
    ensures MinWeight <= x <= MaxWeight ==> r == x
  {
    if x < MinWeight then MinWeight else if x > MaxWeight then MaxWeight else x
  }

  /** Trains one table: its entry for the feature moves one step against the
      outcome (down when the line hit), saturating at the bounds. */
  function Train(t: WT.WeightTable, value: bv64, pc: bv64, correct: bool): (r: WT.WeightTable)
    requires WT.Valid(t) && IsTableSize(t.size) && WT.InRange(t, MinWeight, MaxWeight)
    ensures WT.Valid(r) && r.size == t.size && WT.InRange(r, MinWeight, MaxWeight)
    ensures var i := Hash(value, pc, t.size);
      OnlyAt(t.weights, r.weights, i)
      && (correct ==> r.weights[i] == if t.weights[i] == MinWeight then MinWeight else t.weights[i] - 1)
      && (!correct ==> r.weights[i] == if t.weights[i] == MaxWeight then MaxWeight else t.weights[i] + 1)
  {
    TableSizePositive(t.size);
    var i := Hash(value, pc, t.size);
    var adjustment := if correct then -1 else 1;
    WT.WeightTable(t.weights[i := Clamp(t.weights[i] + adjustment)], t.size)
  }

  /** `update_weights`: every feature's table is trained and its usage count
      goes up by one. */
  function UpdateWeights(q: Perceptron, v: seq<bv64>, pc: bv64, correct: bool): (r: Perceptron)
    requires ValidPerceptron(q) && |v| == 3
    ensures ValidPerceptron(r)
    ensures forall f :: 0 <= f < 3 ==>
      r.tables[f] == Train(q.tables[f], v[f], pc, correct) && r.usage[f] == q.usage[f] + 1
  {
    Perceptron(
      seq(3, f requires 0 <= f < 3 => Train(q.tables[f], v[f], pc, correct)),
      seq(3, f requires 0 <= f < 3 => q.usage[f] + 1))
  }

  /** Doubling and halving stay among the table sizes. */
  lemma DoubleSize(n: int)
    requires IsTableSize(n)
    ensures IsTableSize(2 * n)
  {
    TableSizePositive(n);
    assert (2 * n) / 2 == n;
  }

  lemma HalfSize(n: int)
    requires IsTableSize(n) && n > WT.InitialSize
    ensures IsTableSize(n / 2) && 2 * (n / 2) == n
  {
  }

  /** One table's step of `dynamic_resize` as a relation: `resize` to
      twice the size when the table was used more than ten times per entry,
      to half the size (never below the initial size) when used less than
      once per ten entries, and otherwise the table as it was. */
  predicate ResizeStep(t: WT.WeightTable, usage: int, r: WT.WeightTable)
    requires WT.Valid(t) && t.size > 0
  {
    if usage > t.size * 10 then WT.ResizedFrom(t, 2 * t.size, r)
    else if usage < t.size / 10 && t.size > WT.InitialSize then WT.ResizedFrom(t, t.size / 2, r)
    else r == t
  }

  /** The resize step determines the new table. */
  lemma ResizeStepUnique(t: WT.WeightTable, usage: int, r1: WT.WeightTable, r2: WT.WeightTable)
    requires WT.Valid(t) && t.size > 0 && ResizeStep(t, usage, r1) && ResizeStep(t, usage, r2)
    ensures r1 == r2
  {
    if usage > t.size * 10 {
      WT.ResizedFromUnique(t, 2 * t.size, r1, r2);
    } else if usage < t.size / 10 && t.size > WT.InitialSize {
      WT.ResizedFromUnique(t, t.size / 2, r1, r2);
    }
  }

  /** One table's step of `dynamic_resize`: it doubles when used more than
      ten times per entry, halves (never below the initial size) when used
      less than once per ten entries, and otherwise stays as it is. */
  method ResizeTable(t: WT.WeightTable, usage: int) returns (r: WT.WeightTable)
    requires WT.Valid(t) && IsTableSize(t.size) && WT.InRange(t, MinWeight, MaxWeight)
    ensures WT.Valid(r) && IsTableSize(r.size) && WT.InRange(r, MinWeight, MaxWeight)
    ensures ResizeStep(t, usage, r)
    ensures usage > t.size * 10 ==>
      (r.size == 2 * t.size && forall i :: 0 <= i < t.size ==> r.weights[i] == t.weights[i])
    ensures Shrinks(t, usage) ==>
      (2 * r.size == t.size && forall j :: 0 <= j < r.size ==> r.weights[j] == t.weights[j + r.size])
    ensures usage <= t.size * 10 && !Shrinks(t, usage) ==> r == t
  {
    TableSizePositive(t.size);
    if usage > t.size * 10 {
      r := Grow(t);
    } else if usage < t.size / 10 && t.size > WT.InitialSize {
      r := Halve(t);
    } else {
      r := t;
    }
  }

  /** The shrink condition of `dynamic_resize` (when it does not grow). */
  predicate Shrinks(t: WT.WeightTable, usage: int)
  {
    usage <= t.size * 10 && usage < t.size / 10 && t.size > WT.InitialSize
  }

  method Grow(t: WT.WeightTable) returns (r: WT.WeightTable)
    requires WT.Valid(t) && IsTableSize(t.size) && WT.InRange(t, MinWeight, MaxWeight)
    ensures WT.Valid(r) && IsTableSize(r.size) && WT.InRange(r, MinWeight, MaxWeight)
    ensures r.size == 2 * t.size && forall i :: 0 <= i < t.size ==> r.weights[i] == t.weights[i]
    ensures WT.ResizedFrom(t, 2 * t.size, r)
  {
    TableSizePositive(t.size);
    DoubleSize(t.size);
    r := WT.Resize(t, t.size * 2);
    WT.ResizeInRange(t, t.size * 2, r, MinWeight, MaxWeight);
    WT.GrowKeeps(t, t.size * 2, r);
  }

  method Halve(t: WT.WeightTable) returns (r: WT.WeightTable)
    requires WT.Valid(t) && IsTableSize(t.size) && WT.InRange(t, MinWeight, MaxWeight) && t.size > WT.InitialSize
    ensures WT.Valid(r) && IsTableSize(r.size) && WT.InRange(r, MinWeight, MaxWeight)
    ensures 2 * r.size == t.size && forall j :: 0 <= j < r.size ==> r.weights[j] == t.weights[j + r.size]
    ensures WT.ResizedFrom(t, t.size / 2, r)
  {
    HalfSize(t.size);
    var half := t.size / 2;
    r := WT.Resize(t, half);
    WT.ResizeInRange(t, half, r, MinWeight, MaxWeight);
    WT.HalveKeepsUpper(t, half, r);
  }

  /** `dynamic_resize`: every table takes its resize step and every usage
      count goes back to 0. */
  method DynamicResize(q: Perceptron) returns (r: Perceptron)
    requires ValidPerceptron(q)
    ensures ValidPerceptron(r)
    ensures forall f :: 0 <= f < 3 ==> r.usage[f] == 0
    ensures forall f :: 0 <= f < 3 ==> ResizeStep(q.tables[f], q.usage[f], r.tables[f])
    ensures forall f :: 0 <= f < 3 && q.usage[f] <= q.tables[f].size * 10 && !Shrinks(q.tables[f], q.usage[f]) ==>
      r.tables[f] == q.tables[f]
    ensures forall f :: 0 <= f < 3 && q.usage[f] > q.tables[f].size * 10 ==>
      r.tables[f].size == 2 * q.tables[f].size
  {
    var t0 := ResizeTable(q.tables[0], q.usage[0]);
    var t1 := ResizeTable(q.tables[1], q.usage[1]);
    var t2 := ResizeTable(q.tables[2], q.usage[2]);
    r := Perceptron([t0, t1, t2], [0, 0, 0]);
  }

  /** No usage, every table at the initial size: the state of a fresh
      perceptron. */
  predicate AtRest(q: Perceptron)
    requires |q.tables| == 3 && |q.usage| == 3
  {
    forall f :: 0 <= f < 3 ==> q.usage[f] == 0 && q.tables[f].size == WT.InitialSize
  }

  /** `update_replacement_state`: the line records the access, the
      perceptron trains on the line's features (a hit counts as a correct
      prediction) and then resizes.  Because `dynamic_resize` runs after
      every update and resets the counts, a count is at most 1 when it is
      examined: that is never more than ten times a size and, for the
      initial size, not below a tenth of it, so tables at rest never
      change size. */
  method Update(p: Pcn, s: nat, way: nat, ip: bv64, t: AccessType, hit: bool) returns (r: Pcn)
    requires ValidPerceptron(p.perceptron) && HasSet(p.meta, s, p.ways) && way < p.ways
    ensures r.ways == p.ways && ValidPerceptron(r.perceptron)
    ensures OnlyAt(p.meta, r.meta, Slot(s, p.ways, way))
    ensures r.meta[Slot(s, p.ways, way)] == Meta(ip, t == Write)
    ensures AtRest(p.perceptron) ==> AtRest(r.perceptron)
    ensures forall f :: 0 <= f < 3 ==> r.perceptron.usage[f] == 0
    ensures var u := UpdateWeights(p.perceptron, FeatureValues(Meta(ip, t == Write), s), ip, hit);
      forall f :: 0 <= f < 3 ==> ResizeStep(u.tables[f], u.usage[f], r.perceptron.tables[f])
  {
    var m := Meta(ip, t == Write);
    var meta := p.meta[Slot(s, p.ways, way) := m];
    var v := FeatureValues(m, s);
    var trained := UpdateWeights(p.perceptron, v, ip, hit);
    var q := DynamicResize(trained);
    r := Pcn(p.ways, meta, q);
  }
}
