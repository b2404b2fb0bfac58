/** The nested `for` loops the runners sweep with, as sequences: a product
    enumerates its left factor in the outer loop, `zip` stops at the
    shortest list, and `enumerate(..., start=n)` numbers from `n`. */
module Sweep {
  import opened Wrappers

  /** The pairs of `for x in xs: for y in ys:`, in loop order. */
  function Product<A, B>(xs: seq<A>, ys: seq<B>): seq<(A, B)>
    decreases |xs|
  {
    if |xs| == 0 then []
    else seq(|ys|, j requires 0 <= j < |ys| => (xs[0], ys[j])) + Product(xs[1..], ys)
  }

  /** The loops visit as many pairs as the product of the lengths.  Kept
      out of `Product`'s contract so that the non-linear fact enters only
      the proofs that ask for it. */
  lemma {:induction false} ProductLength<A, B>(xs: seq<A>, ys: seq<B>)
    ensures |Product(xs, ys)| == |xs| * |ys|
    decreases |xs|
  {
    if |xs| > 0 {
      ProductLength(xs[1..], ys);
      assert |xs| * |ys| == |ys| + (|xs| - 1) * |ys|;
    }
  }

  /** Pair `(i, j)` of the loops is visited `i * |ys| + j`-th. */
  lemma {:induction false} ProductAt<A, B>(xs: seq<A>, ys: seq<B>, i: nat, j: nat)
    requires i < |xs| && j < |ys|
    ensures i * |ys| + j < |Product(xs, ys)|
    ensures Product(xs, ys)[i * |ys| + j] == (xs[i], ys[j])
    decreases i
  {
    var head := seq(|ys|, j requires 0 <= j < |ys| => (xs[0], ys[j]));
    assert Product(xs, ys) == head + Product(xs[1..], ys);
    if i > 0 {
      ProductAt(xs[1..], ys, i - 1, j);
      assert (i - 1) * |ys| + j + |ys| == i * |ys| + j;
    }
    ProductLength(xs, ys);
    ProductBound(|xs|, |ys|, i, j);
  }

  /** The position of the `j`-th inner step of the `i`-th outer one, for an
      inner loop of `m` steps. */
  function Lin(i: nat, m: nat, j: nat): nat
  {
    i * m + j
  }

  /** `ProductAt`, handing back the position it speaks of. */
  lemma ProductIndex<A, B>(xs: seq<A>, ys: seq<B>, i: nat, j: nat) returns (n: nat)
    requires i < |xs| && j < |ys|
    ensures n == Lin(i, |ys|, j) && n < |Product(xs, ys)| && Product(xs, ys)[n] == (xs[i], ys[j])
  {
    ProductAt(xs, ys, i, j);
    n := i * |ys| + j;
  }

  /** Four nested loops: the tuple of indices `(i, j, k, l)` is visited
      `((i * |ys| + j) * |zs| + k) * |ws| + l`-th. */
  lemma Product3At<A, B, C, D>(xs: seq<A>, ys: seq<B>, zs: seq<C>, ws: seq<D>, i: nat, j: nat, k: nat, l: nat)
    requires i < |xs| && j < |ys| && k < |zs| && l < |ws|
    ensures var n := ((i * |ys| + j) * |zs| + k) * |ws| + l;
      n < |Product(Product(Product(xs, ys), zs), ws)| &&
      Product(Product(Product(xs, ys), zs), ws)[n] == (((xs[i], ys[j]), zs[k]), ws[l])
  {
    var l1 := Product(xs, ys);
    var l2 := Product(l1, zs);
    ProductAt(xs, ys, i, j);
    ProductAt(l1, zs, i * |ys| + j, k);
    ProductAt(l2, ws, (i * |ys| + j) * |zs| + k, l);
  }

  lemma Product3Length<A, B, C, D>(xs: seq<A>, ys: seq<B>, zs: seq<C>, ws: seq<D>)
    ensures |Product(Product(Product(xs, ys), zs), ws)| == |xs| * |ys| * |zs| * |ws|
  {
    ProductLength(xs, ys);
    ProductLength(Product(xs, ys), zs);
    ProductLength(Product(Product(xs, ys), zs), ws);
  }

  lemma ProductBound(n: nat, m: nat, i: nat, j: nat)
    requires i < n && j < m
    ensures i * m + j < n * m
  {
    assert (i + 1) * m <= n * m by {
      assert n * m - (i + 1) * m == (n - i - 1) * m;
    }
  }

  /** Every element of a product comes from some pair of the loops. */
  lemma ProductMember<A, B>(xs: seq<A>, ys: seq<B>, k: nat)
    requires k < |Product(xs, ys)|
    ensures exists i, j :: 0 <= i < |xs| && 0 <= j < |ys| && k == i * |ys| + j && Product(xs, ys)[k] == (xs[i], ys[j])
  {
    var m := |ys|;
    ProductLength(xs, ys);
    assert m > 0;
    var i, j := DivMod(k, m);
    assert i < |xs| by {
      if i >= |xs| {
        MulMono(|xs|, i, m);
      }
    }
    ProductAt(xs, ys, i, j);
  }

  /** The outer loop's value of any pair is one of the outer loop's. */
  lemma ProductLeft<A, B>(xs: seq<A>, ys: seq<B>, k: nat) returns (i: nat)
    requires k < |Product(xs, ys)|
    ensures i < |xs| && Product(xs, ys)[k].0 == xs[i]
  {
    ProductMember(xs, ys, k);
    var i', j :| 0 <= i' < |xs| && 0 <= j < |ys| && k == i' * |ys| + j && Product(xs, ys)[k] == (xs[i'], ys[j]);
    i := i';
  }

  lemma DivMod(k: nat, m: nat) returns (i: nat, j: nat)
    requires m > 0
    ensures k == i * m + j && j < m
  {
    i := k / m;
    j := k % m;
  }

  lemma MulMono(a: nat, b: nat, m: nat)
    requires a <= b
    ensures a * m <= b * m
  {
    assert b * m - a * m == (b - a) * m;
  }

  /** `lst or [None]`: an empty dimension still runs once, with `None`. */
  function OrNone<T>(l: seq<T>): (r: seq<Option<T>>)
    ensures |l| == 0 ==> r == [None]
    ensures |l| > 0 ==> |r| == |l| && forall i :: 0 <= i < |l| ==> r[i] == Some(l[i])
  {
    if |l| == 0 then [None] else seq(|l|, i requires 0 <= i < |l| => Some(l[i]))
  }

  function Min(a: nat, b: nat): nat
  {
    if a <= b then a else b
  }

  /** `zip(a, b)`: pairs up to the shorter list. */
  function Zip<A, B>(a: seq<A>, b: seq<B>): (r: seq<(A, B)>)
    ensures |r| == Min(|a|, |b|)
    ensures forall i :: 0 <= i < |r| ==> r[i] == (a[i], b[i])
  {
    seq(Min(|a|, |b|), i requires 0 <= i < Min(|a|, |b|) => (a[i], b[i]))
  }

  /** `enumerate(xs, start=n)`. */
  function Enumerate<T>(xs: seq<T>, start: nat): (r: seq<(nat, T)>)
    ensures |r| == |xs|
    ensures forall i :: 0 <= i < |xs| ==> r[i] == (start + i, xs[i])
  {
    seq(|xs|, i requires 0 <= i < |xs| => (start + i, xs[i]))
  }
}
