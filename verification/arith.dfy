/** Integer facts the models of C bit manipulation share: powers of two,
    Euclidean division by positive divisors, and the `(x << (64 - k)) >>
    (64 - k)` idiom that keeps the low `k` bits of a `uint64_t`. */
module Arith {
  /** `2^n`. */
  function Pow2(n: nat): (r: nat)
    ensures r >= 1
  {
    if n == 0 then 1 else 2 * Pow2(n - 1)
  }

  lemma {:induction false} Pow2Add(a: nat, b: nat)
    ensures Pow2(a + b) == Pow2(a) * Pow2(b)
  {
    if a > 0 {
      Pow2Add(a - 1, b);
      assert Pow2(a + b) == 2 * Pow2(a - 1 + b);
    }
  }

  lemma {:induction false} Pow2Monotone(a: nat, b: nat)
    requires a <= b
    ensures Pow2(a) <= Pow2(b)
  {
    if a < b {
      Pow2Monotone(a, b - 1);
    }
  }

  /** A non-zero multiple of `n` is at least `n` in size. */
  lemma MultipleApart(c: int, n: int)
    requires n >= 0
    ensures c >= 1 ==> c * n >= n
    ensures c <= -1 ==> c * n <= -n
  {
    if c >= 1 {
      assert c * n == n + (c - 1) * n;
    } else if c <= -1 {
      assert c * n == -n + (c + 1) * n;
      assert (c + 1) * n == -((-c - 1) * n);
    }
  }

  /** Quotient and remainder are the only ones with `0 <= r < n`. */
  lemma DivModUnique(x: int, n: int, q: int, r: int)
    requires n > 0 && 0 <= r < n && x == q * n + r
    ensures x / n == q && x % n == r
  {
    var q', r' := x / n, x % n;
    assert x == q' * n + r';
    assert (q - q') * n == r' - r;
    MultipleApart(q - q', n);
  }

  lemma ModMulAdd(j: nat, n: nat, q: nat)
    requires j < n
    ensures (j + n * q) % n == j
  {
    var x := j + n * q;
    assert x == q * n + j;
    assert x / n == q && x % n == j by {
      DivModUnique(x, n, q, j);
    }
  }

  /** Splitting a remainder modulo `a * b` into its low part modulo `a`
      and the next digit in base `a`. */
  lemma ModProduct(y: nat, a: nat, b: nat)
    requires a > 0 && b > 0
    ensures y % (a * b) == y % a + a * ((y / a) % b)
    ensures y / a / b == y / (a * b)
  {
    var q, r := y / a, y % a;
    var q2, r2 := q / b, q % b;
    assert y == q * a + r;
    assert q == q2 * b + r2;
    assert y == q2 * (a * b) + (a * r2 + r) by {
      assert q * a == (q2 * b + r2) * a;
    }
    assert a * r2 + r < a * b by {
      assert r2 <= b - 1;
      assert a * r2 <= a * (b - 1);
    }
    DivModUnique(y, a * b, q2, a * r2 + r);
  }

  /** `m` low ones reduced modulo `2^w` are the low `min(m, w)` ones. */
  lemma OnesMod(m: nat, w: nat)
    ensures (Pow2(m) - 1) % Pow2(w) == Pow2(if m <= w then m else w) - 1
  {
    if m <= w {
      Pow2Monotone(m, w);
      DivModUnique(Pow2(m) - 1, Pow2(w), 0, Pow2(m) - 1);
    } else {
      Pow2Add(w, m - w);
      assert Pow2(m) - 1 == (Pow2(m - w) - 1) * Pow2(w) + (Pow2(w) - 1);
      DivModUnique(Pow2(m) - 1, Pow2(w), Pow2(m - w) - 1, Pow2(w) - 1);
    }
  }

  /** Division of a natural number by a positive one stays natural. */
  lemma DivNat(x: nat, d: nat)
    requires d > 0
    ensures x / d >= 0 && x % d >= 0
  {
  }

  /** `(x << (64 - k)) >> (64 - k)` on a `uint64_t`: the left shift drops
      the bits that leave the word, the right shift brings the rest back. */
  function KeepLowBits(x: nat, k: nat): nat
    requires 0 < k <= 64
  {
    DivNat(x * Pow2(64 - k), Pow2(64));
    DivNat((x * Pow2(64 - k)) % Pow2(64), Pow2(64 - k));
    (x * Pow2(64 - k)) % Pow2(64) / Pow2(64 - k)
  }

  lemma ScaleSplit(x: nat, p: nat, m: nat)
    requires m > 0
    ensures x * p == (x / m) * (p * m) + (x % m) * p
  {
    var hi, lo := x / m, x % m;
    assert x == hi * m + lo;
    assert x * p == (hi * m + lo) * p;
    assert (hi * m) * p == hi * (p * m);
  }

  lemma BelowScaled(lo: nat, p: nat, m: nat)
    requires lo < m
    ensures lo * p <= (m - 1) * p
  {
    var d: nat := m - 1 - lo;
    assert (m - 1) * p == lo * p + d * p;
  }

  /** Scaling by `p` inside a word of `p * m` and scaling back keeps
      exactly the remainder modulo `m`. */
  lemma ScaleBack(x: nat, p: nat, m: nat)
    requires p > 0 && m > 0
    ensures (x * p) % (p * m) / p == x % m
  {
    var lo := x % m;
    ScaleSplit(x, p, m);
    BelowScaled(lo, p, m);
    assert (m - 1) * p == p * m - p;
    DivModUnique(x * p, p * m, x / m, lo * p);
    DivModUnique(lo * p, p, lo, 0);
  }

  /** The idiom keeps exactly the low `k` bits. */
  lemma KeepLowBitsIsMod(x: nat, k: nat)
    requires 0 < k <= 64
    ensures KeepLowBits(x, k) == x % Pow2(k)
    ensures KeepLowBits(x, k) < Pow2(k)
  {
    Pow2Add(64 - k, k);
    ScaleBack(x, Pow2(64 - k), Pow2(k));
  }

  /** `(a % 2^m) % 2^k == a % 2^k` for `k <= m`: reducing modulo a larger
      power of two first changes nothing. */
  lemma ModOfMod(a: nat, k: nat, m: nat)
    requires k <= m
    ensures (a % Pow2(m)) % Pow2(k) == a % Pow2(k)
  {
    Pow2Add(k, m - k);
    ModProduct(a, Pow2(k), Pow2(m - k));
    ModMulAdd(a % Pow2(k), Pow2(k), (a / Pow2(k)) % Pow2(m - k));
  }

  /** Masking to `k` bits after reducing modulo `2^n`, `k <= n`, keeps the
      low `k` bits. */
  lemma MaskAfterMod(x: nat, k: nat, n: nat)
    requires k <= n
    ensures BitAnd(x % Pow2(n), Pow2(k) - 1) == x % Pow2(k)
    ensures x % Pow2(k) <= Pow2(k) - 1
  {
    AndLowMask(x % Pow2(n), k);
    ModOfMod(x, k, n);
  }

  // ------------------------------------------------- bitwise operations

  /** `&` on non-negative integers, bit by bit from the lowest. */
  function BitAnd(a: nat, b: nat): nat
    decreases a
  {
    if a == 0 || b == 0 then 0
    else 2 * BitAnd(a / 2, b / 2) + (if a % 2 == 1 && b % 2 == 1 then 1 else 0)
  }

  /** `|` on non-negative integers. */
  function BitOr(a: nat, b: nat): nat
    decreases a + b
  {
    if a == 0 then b
    else if b == 0 then a
    else 2 * BitOr(a / 2, b / 2) + (if a % 2 == 1 || b % 2 == 1 then 1 else 0)
  }

  /** `^` on non-negative integers. */
  function BitXor(a: nat, b: nat): nat
    decreases a + b
  {
    if a == 0 then b
    else if b == 0 then a
    else 2 * BitXor(a / 2, b / 2) + (if a % 2 != b % 2 then 1 else 0)
  }

  /** `a & b` keeps no bit that either side lacks. */
  lemma {:induction false} AndBelow(a: nat, b: nat)
    ensures BitAnd(a, b) <= a && BitAnd(a, b) <= b
  {
    if a != 0 && b != 0 {
      AndBelow(a / 2, b / 2);
    }
  }

  /** `x & (2^k - 1)` is `x % 2^k`. */
  lemma {:induction false} AndLowMask(x: nat, k: nat)
    ensures BitAnd(x, Pow2(k) - 1) == x % Pow2(k)
  {
    AndMaskLowBits(x, k);
    LowBitsIsMod(x, k);
  }

  /** The low `k` bits of `x`, peeled off one at a time. */
  function LowBits(x: nat, k: nat): nat
  {
    if k == 0 then 0 else 2 * LowBits(x / 2, k - 1) + x % 2
  }

  lemma {:induction false} AndMaskLowBits(x: nat, k: nat)
    ensures BitAnd(x, Pow2(k) - 1) == LowBits(x, k)
  {
    if k > 0 {
      MaskHalf(k);
      AndMaskLowBits(x / 2, k - 1);
      if x == 0 {
        LowBitsOfZero(k);
      }
    }
  }

  lemma {:induction false} LowBitsOfZero(k: nat)
    ensures LowBits(0, k) == 0
  {
    if k > 0 {
      LowBitsOfZero(k - 1);
    }
  }

  lemma {:induction false} LowBitsIsMod(x: nat, k: nat)
    ensures LowBits(x, k) == x % Pow2(k)
  {
    if k > 0 {
      LowBitsIsMod(x / 2, k - 1);
      ModProduct(x, 2, Pow2(k - 1));
    }
  }

  /** `2^k - 1` is odd and halves to `2^(k-1) - 1`. */
  lemma MaskHalf(k: nat)
    requires k > 0
    ensures Pow2(k) == 2 * Pow2(k - 1)
    ensures (Pow2(k) - 1) / 2 == Pow2(k - 1) - 1 && (Pow2(k) - 1) % 2 == 1
  {
    var m := Pow2(k) - 1;
    DivModUnique(m, 2, Pow2(k - 1) - 1, 1);
  }

  /** Or-ing a bit into an even number adds it. */
  lemma OrLowBit(e: nat, t: nat)
    requires e % 2 == 0 && t <= 1
    ensures BitOr(e, t) == e + t
  {
    if e != 0 && t != 0 {
      assert BitOr(e / 2, 0) == e / 2;
    }
  }

  /** `((h << 1) | t) mod 2^n` for a bit `t`: the or-ed bit lands in the
      cleared bit 0, so it is `(2h + t) mod 2^n`. */
  lemma ShiftOrBit(h: nat, t: nat, n: nat)
    requires t <= 1 && n > 0
    ensures BitOr((h * 2) % Pow2(n), t) == (2 * h + t) % Pow2(n)
  {
    var l := Pow2(n);
    assert l == 2 * Pow2(n - 1);
    EvenMod(h, Pow2(n - 1));
    var e := (h * 2) % l;
    OrLowBit(e, t);
    DivModUnique(2 * h + t, l, (h * 2) / l, e + t);
  }

  /** An even number reduced modulo an even one stays even, so there is
      room for bit 0 below the modulus. */
  lemma EvenMod(a: nat, b: nat)
    requires b > 0
    ensures (a * 2) % (2 * b) % 2 == 0 && (a * 2) % (2 * b) + 1 < 2 * b
    ensures a * 2 == (a * 2) / (2 * b) * (2 * b) + (a * 2) % (2 * b)
  {
    var q, r := (a * 2) / (2 * b), (a * 2) % (2 * b);
    assert a * 2 == q * (2 * b) + r;
    assert r == 2 * (a - q * b);
    DivModUnique(r, 2, a - q * b, 0);
  }

  lemma {:induction false} XorCommutes(a: nat, b: nat)
    ensures BitXor(a, b) == BitXor(b, a)
    decreases a + b
  {
    if a != 0 && b != 0 {
      XorCommutes(a / 2, b / 2);
    }
  }

  /** `x & (2^k - 2)` clears bit 0 of an `x` below `2^k`. */
  lemma ClearLowBit(x: nat, k: nat)
    requires k > 0 && x < Pow2(k)
    ensures BitAnd(x, Pow2(k) - 2) == x - x % 2
  {
    var p := Pow2(k - 1);
    assert Pow2(k) == 2 * p;
    var m := 2 * p - 2;
    if x != 0 && m != 0 {
      assert m / 2 == p - 1 && m % 2 == 0;
      assert BitAnd(x, m) == 2 * BitAnd(x / 2, p - 1);
      AndLowMask(x / 2, k - 1);
      DivModUnique(x / 2, p, 0, x / 2);
    }
  }
}
