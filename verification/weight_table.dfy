/** PCN's `WeightTable` (Polices/pcn/pcn.h): a vector of small signed
    weights and its size.  Resizing copies every old weight `i` to
    position `i % new_size`, so growing keeps every weight in place and
    shrinking keeps, for each new position, the last old weight that maps
    to it. */
module WeightTables {
  import opened Arith

  datatype WeightTable = WeightTable(weights: seq<int>, size: int)

  /** `INITIAL_TABLE_SIZE`. */
  const InitialSize: int := 256

  predicate Valid(t: WeightTable)
  {
    t.size == |t.weights|
  }

  /** `WeightTable()`. */
  function Default(): (t: WeightTable)
    ensures Valid(t) && t.size == InitialSize
    ensures forall i :: 0 <= i < t.size ==> t.weights[i] == 0
  {
    OfSize(InitialSize)
  }

  /** `WeightTable(table_size)`. */
  function OfSize(n: nat): (t: WeightTable)
    ensures Valid(t) && t.size == n
    ensures forall i :: 0 <= i < n ==> t.weights[i] == 0
  {
    WeightTable(seq(n, _ => 0), n)
  }

  /** Old positions `i` and `k` with `0 < k - i < n` land on different new
      positions. */
  lemma ResidueDiffers(i: nat, k: nat, n: nat)
    requires 0 < k - i < n
    ensures i % n != k % n
  {
    var a, b := i / n, k / n;
    assert i == a * n + i % n;
    assert k == b * n + k % n;
    if i % n == k % n {
      assert k - i == (b - a) * n;
      MultipleApart(b - a, n);
    }
  }

  /** After copying old positions `0 .. k - 1`: the last old position
      mapped to each new one has been copied there, and the positions not
      reached yet are still 0. */
  predicate CopiedUpTo(t: WeightTable, n: nat, w: seq<int>, k: nat)
    requires Valid(t) && n > 0 && |w| == n && k <= t.size
  {
    (forall i :: 0 <= i < k && i + n >= k ==> w[i % n] == t.weights[i])
    && (forall j :: k <= j < n ==> w[j] == 0)
  }

  /** Copying old position `k` keeps `CopiedUpTo` one step further. */
  lemma CopyStep(t: WeightTable, n: nat, w: seq<int>, k: nat)
    requires Valid(t) && n > 0 && |w| == n && k < t.size && CopiedUpTo(t, n, w, k)
    ensures CopiedUpTo(t, n, w[k % n := t.weights[k]], k + 1)
  {
    CopyStepCopied(t, n, w, k);
    CopyStepUntouched(t, n, w, k);
  }

  lemma CopyStepCopied(t: WeightTable, n: nat, w: seq<int>, k: nat)
    requires Valid(t) && n > 0 && |w| == n && k < t.size
    requires forall i :: 0 <= i < k && i + n >= k ==> w[i % n] == t.weights[i]
    ensures var w' := w[k % n := t.weights[k]];
      forall i :: 0 <= i < k + 1 && i + n >= k + 1 ==> w'[i % n] == t.weights[i]
  {
    var w' := w[k % n := t.weights[k]];
    forall i | 0 <= i < k + 1 && i + n >= k + 1
      ensures w'[i % n] == t.weights[i]
    {
      if i < k {
        ResidueDiffers(i, k, n);
      }
    }
  }

  lemma CopyStepUntouched(t: WeightTable, n: nat, w: seq<int>, k: nat)
    requires Valid(t) && n > 0 && |w| == n && k < t.size
    requires forall j :: k <= j < n ==> w[j] == 0
    ensures var w' := w[k % n := t.weights[k]]; forall j :: k + 1 <= j < n ==> w'[j] == 0
  {
    assert k % n <= k;
  }

  /** `r` is `t` resized to `n`: each old weight whose position is the last
      one mapped to its new position sits there, and the positions beyond
      the old size hold 0. */
  predicate ResizedFrom(t: WeightTable, n: nat, r: WeightTable)
    requires Valid(t) && n > 0
  {
    Valid(r) && r.size == n
    && (forall i {:trigger r.weights[i % n]} :: 0 <= i < t.size && i + n >= t.size ==> r.weights[i % n] == t.weights[i])
    && (forall j :: t.size <= j < n ==> r.weights[j] == 0)
  }

  /** `ResizedFrom` pins the resized table down: two tables resized from
      the same table to the same size are equal. */
  lemma ResizedFromUnique(t: WeightTable, n: nat, r1: WeightTable, r2: WeightTable)
    requires Valid(t) && n > 0 && ResizedFrom(t, n, r1) && ResizedFrom(t, n, r2)
    ensures r1 == r2
  {
    forall j | 0 <= j < n ensures r1.weights[j] == r2.weights[j] {
      if j < t.size {
        var i := LastCongruent(j, n, t.size);
        assert r1.weights[i % n] == t.weights[i] && r2.weights[i % n] == t.weights[i];
      }
    }
    assert r1.weights == r2.weights;
  }

  /** `resize(new_size)`. */
  method Resize(t: WeightTable, n: nat) returns (r: WeightTable)
    requires Valid(t) && n > 0
    ensures ResizedFrom(t, n, r)
  {
    var w := seq(n, _ => 0);
    var k := 0;
    while k < t.size
      invariant 0 <= k <= t.size && |w| == n
      invariant CopiedUpTo(t, n, w, k)
    {
      CopyStep(t, n, w, k);
      w := w[k % n := t.weights[k]];
      k := k + 1;
    }
    r := WeightTable(w, n);
  }

  /** Growing keeps every weight where it was and fills the rest with 0. */
  lemma GrowKeeps(t: WeightTable, n: nat, r: WeightTable)
    requires Valid(t) && n >= t.size && n > 0 && ResizedFrom(t, n, r)
    ensures forall i :: 0 <= i < t.size ==> r.weights[i] == t.weights[i]
  {
    forall i | 0 <= i < t.size ensures r.weights[i] == t.weights[i] {
      assert i % n == i;
    }
  }

  /** Halving keeps, at each position, the weight of its upper-half
      partner: later entries overwrite earlier ones. */
  lemma HalveKeepsUpper(t: WeightTable, n: nat, r: WeightTable)
    requires Valid(t) && n > 0 && t.size == 2 * n && ResizedFrom(t, n, r)
    ensures forall j :: 0 <= j < n ==> r.weights[j] == t.weights[j + n]
  {
    forall j | 0 <= j < n ensures r.weights[j] == t.weights[j + n] {
      ModMulAdd(j, n, 1);
      var i := j + n;
      assert i < t.size && i + n >= t.size;
      assert r.weights[i % n] == t.weights[i];
    }
  }

  /** Weights stay between the saturating bounds. */
  predicate InRange(t: WeightTable, lo: int, hi: int)
  {
    forall i :: 0 <= i < |t.weights| ==> lo <= t.weights[i] <= hi
  }

  /** Resizing only copies weights, so it keeps them in range. */
  lemma ResizeInRange(t: WeightTable, n: nat, r: WeightTable, lo: int, hi: int)
    requires Valid(t) && n > 0 && ResizedFrom(t, n, r) && InRange(t, lo, hi) && lo <= 0 <= hi
    ensures InRange(r, lo, hi)
  {
    forall j | 0 <= j < n ensures lo <= r.weights[j] <= hi {
      if j < t.size {
        var i := LastCongruent(j, n, t.size);
        assert r.weights[i % n] == t.weights[i];
      }
    }
  }

  /** Every new position below the old size has a last old position that
      maps to it. */
  lemma LastCongruent(j: nat, n: nat, size: nat) returns (i: nat)
    requires j < n && j < size
    ensures i < size && i + n >= size && i % n == j
  {
    var q := (size - 1 - j) / n;
    var rem := (size - 1 - j) % n;
    assert size - 1 - j == q * n + rem;
    i := j + n * q;
    assert i == size - 1 - rem;
    assert (j + n * q) % n == j by {
      ModMulAdd(j, n, q);
    }
  }
}
