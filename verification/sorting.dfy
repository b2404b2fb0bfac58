/** Python's `sorted` and `list.sort`: stable sorts by a real-valued key
    (IPC values, distances), with `reverse=True` as a stable sort by the
    negated key, and the default lexicographic order on strings. */
module Sorting {

  predicate SortedBy<T>(s: seq<T>, key: T -> real)
  {
    forall i, j :: 0 <= i < j < |s| ==> key(s[i]) <= key(s[j])
  }

  /** Inserts `x` in front of the first element whose key is not smaller,
      so `x` precedes the elements of `s` with an equal key. */
  function Insert<T>(x: T, s: seq<T>, key: T -> real): (r: seq<T>)
    requires SortedBy(s, key)
    ensures SortedBy(r, key)
    ensures multiset(r) == multiset(s) + multiset{x}
    ensures |r| == |s| + 1
  {
    if |s| == 0 || key(x) <= key(s[0]) then [x] + s
    else
      var t := Insert(x, s[1..], key);
      HeadBelow(x, s, t, key);
      ConsSorted(s[0], t, key);
      assert s == [s[0]] + s[1..];
      [s[0]] + t
  }

  /** The head of a sorted `s` is below everything in `s[1..]` and below
      `x`, so below any rearrangement of them. */
  lemma HeadBelow<T>(x: T, s: seq<T>, t: seq<T>, key: T -> real)
    requires SortedBy(s, key) && |s| > 0 && key(s[0]) <= key(x)
    requires multiset(t) == multiset(s[1..]) + multiset{x}
    ensures forall j :: 0 <= j < |t| ==> key(s[0]) <= key(t[j])
  {
    forall j | 0 <= j < |t| ensures key(s[0]) <= key(t[j]) {
      var e := t[j];
      assert e in multiset(t);
      if e != x {
        assert e in multiset(s[1..]);
        var i :| 0 <= i < |s[1..]| && s[1..][i] == e;
        assert s[i + 1] == e;
      }
    }
  }

  lemma ConsSorted<T>(a: T, t: seq<T>, key: T -> real)
    requires SortedBy(t, key) && forall j :: 0 <= j < |t| ==> key(a) <= key(t[j])
    ensures SortedBy([a] + t, key)
  {
    var r := [a] + t;
    forall i, j | 0 <= i < j < |r| ensures key(r[i]) <= key(r[j]) {
      assert r[j] == t[j - 1];
      if i > 0 {
        assert r[i] == t[i - 1];
      }
    }
  }

  /** `sorted(s, key=key)`: stable and ascending. */
  function SortBy<T>(s: seq<T>, key: T -> real): (r: seq<T>)
    ensures SortedBy(r, key)
    ensures multiset(r) == multiset(s)
    ensures |r| == |s|
  {
    if |s| == 0 then []
    else
      assert s == [s[0]] + s[1..];
      Insert(s[0], SortBy(s[1..], key), key)
  }

  /** `sorted(s, key=key, reverse=True)`, which Python keeps stable. */
  function SortDescBy<T>(s: seq<T>, key: T -> real): (r: seq<T>)
    ensures forall i, j :: 0 <= i < j < |r| ==> key(r[i]) >= key(r[j])
    ensures multiset(r) == multiset(s)
    ensures |r| == |s|
  {
    SortBy(s, x => -key(x))
  }

  /** The elements of `s` whose key is `v`, in their order in `s`. */
  function WithKey<T>(s: seq<T>, key: T -> real, v: real): seq<T>
  {
    if |s| == 0 then [] else (if key(s[0]) == v then [s[0]] else []) + WithKey(s[1..], key, v)
  }

  /** `x` goes in front of the elements with its key, behind all smaller. */
  lemma {:induction false} InsertWithKey<T>(x: T, s: seq<T>, key: T -> real, v: real)
    requires SortedBy(s, key)
    ensures WithKey(Insert(x, s, key), key, v) == (if key(x) == v then [x] else []) + WithKey(s, key, v)
  {
    if |s| == 0 || key(x) <= key(s[0]) {
      assert ([x] + s)[1..] == s;
    } else {
      var t := Insert(x, s[1..], key);
      assert Insert(x, s, key) == [s[0]] + t;
      InsertWithKey(x, s[1..], key, v);
      assert ([s[0]] + t)[1..] == t;
      assert key(x) == v ==> key(s[0]) != v;
    }
  }

  /** `sorted` is stable: for every key, the elements with that key come
      out in the order they went in. */
  lemma {:induction false} SortByStable<T>(s: seq<T>, key: T -> real, v: real)
    ensures WithKey(SortBy(s, key), key, v) == WithKey(s, key, v)
  {
    if |s| > 0 {
      SortByStable(s[1..], key, v);
      InsertWithKey(s[0], SortBy(s[1..], key), key, v);
    }
  }

  lemma {:induction false} WithNegatedKey<T>(s: seq<T>, key: T -> real, neg: T -> real, v: real)
    requires forall x :: neg(x) == -key(x)
    ensures WithKey(s, neg, -v) == WithKey(s, key, v)
  {
    if |s| > 0 {
      WithNegatedKey(s[1..], key, neg, v);
    }
  }

  /** `sorted(..., reverse=True)` is stable too: equal keys keep their
      input order rather than being reversed. */
  lemma SortDescByStable<T>(s: seq<T>, key: T -> real, v: real)
    ensures WithKey(SortDescBy(s, key), key, v) == WithKey(s, key, v)
  {
    var neg := x => -key(x);
    var r := SortDescBy(s, key);
    assert r == SortBy(s, neg);
    SortByStable(s, neg, -v);
    WithNegatedKey(r, key, neg, v);
    WithNegatedKey(s, key, neg, v);
    calc {
      WithKey(r, key, v);
      WithKey(r, neg, -v);
      WithKey(s, neg, -v);
      WithKey(s, key, v);
    }
  }

  /** Unfolding the sort one element at a time. */
  lemma SortOne<T>(b: T, key: T -> real)
    ensures SortBy([b], key) == [b]
  {
    assert [b][1..] == [];
  }

  lemma SortTwo<T>(c: T, b: T, key: T -> real)
    requires key(c) <= key(b)
    ensures SortBy([c, b], key) == [c, b]
  {
    assert [c, b][1..] == [b];
    SortOne(b, key);
  }

  lemma SortThree<T>(c0: T, c1: T, b: T, key: T -> real)
    requires key(c0) <= key(b) && key(c1) <= key(b)
    ensures SortBy([c0, c1, b], key) == if key(c1) < key(c0) then [c1, c0, b] else [c0, c1, b]
  {
    assert [c0, c1, b][1..] == [c1, b];
    SortTwo(c1, b, key);
    if key(c1) < key(c0) {
      InsertPast(c0, c1, b, key);
    } else {
      InsertFront(c0, [c1, b], key);
      assert [c0] + [c1, b] == [c0, c1, b];
    }
  }

  lemma InsertPast<T>(x: T, a: T, b: T, key: T -> real)
    requires key(a) < key(x) <= key(b)
    ensures Insert(x, [a, b], key) == [a, x, b]
  {
    assert [a, b][1..] == [b];
    InsertFront(x, [b], key);
    assert [a] + [x, b] == [a, x, b];
  }

  lemma SortFourStep<T>(w: T, c0: T, c1: T, b: T, key: T -> real)
    ensures SortBy([w, c0, c1, b], key) == Insert(w, SortBy([c0, c1, b], key), key)
  {
    assert [w, c0, c1, b][1..] == [c0, c1, b];
  }

  lemma InsertFront<T>(x: T, s: seq<T>, key: T -> real)
    requires SortedBy(s, key) && |s| > 0 && key(x) <= key(s[0])
    ensures Insert(x, s, key) == [x] + s
  {
  }

  /** The ends and middle pair of `SortFour`'s result, position by position. */
  lemma SortFourEnds<T>(w: T, c0: T, c1: T, b: T, key: T -> real)
    requires key(w) <= key(c0) <= key(b) && key(w) <= key(c1) <= key(b)
    ensures var r := SortBy([w, c0, c1, b], key);
      |r| == 4 && r[0] == w && r[3] == b && ((r[1] == c0 && r[2] == c1) || (r[1] == c1 && r[2] == c0))
  {
    SortFour(w, c0, c1, b, key);
    var r := SortBy([w, c0, c1, b], key);
    if key(c1) < key(c0) {
      assert r == [w, c1, c0, b];
    } else {
      assert r == [w, c0, c1, b];
    }
  }

  lemma SortFour<T>(w: T, c0: T, c1: T, b: T, key: T -> real)
    requires key(w) <= key(c0) <= key(b) && key(w) <= key(c1) <= key(b)
    ensures SortBy([w, c0, c1, b], key) ==
      if key(c1) < key(c0) then [w, c1, c0, b] else [w, c0, c1, b]
  {
    SortFourStep(w, c0, c1, b, key);
    SortThree(c0, c1, b, key);
    if key(c1) < key(c0) {
      InsertFront(w, [c1, c0, b], key);
      ConsThree(w, c1, c0, b);
    } else {
      InsertFront(w, [c0, c1, b], key);
      ConsThree(w, c0, c1, b);
    }
  }

  lemma ConsThree<T>(w: T, x: T, y: T, z: T)
    ensures [w] + [x, y, z] == [w, x, y, z]
  {
  }

  /** Python's `<` on strings: lexicographic by code point. */
  predicate StrLess(a: string, b: string)
    decreases |a|
  {
    |b| > 0 && (|a| == 0 || a[0] < b[0] || (a[0] == b[0] && StrLess(a[1..], b[1..])))
  }

  lemma {:induction false} StrLessIrreflexive(a: string)
    ensures !StrLess(a, a)
    decreases |a|
  {
    if |a| > 0 {
      StrLessIrreflexive(a[1..]);
    }
  }

  lemma {:induction false} StrLessTransitive(a: string, b: string, c: string)
    requires StrLess(a, b) && StrLess(b, c)
    ensures StrLess(a, c)
    decreases |a|
  {
    if |a| > 0 && a[0] == b[0] && b[0] == c[0] {
      StrLessTransitive(a[1..], b[1..], c[1..]);
    }
  }

  lemma {:induction false} StrLessTotal(a: string, b: string)
    ensures a == b || StrLess(a, b) || StrLess(b, a)
    decreases |a|
  {
    if |a| > 0 && |b| > 0 && a[0] == b[0] {
      StrLessTotal(a[1..], b[1..]);
      if a[1..] == b[1..] {
        assert a == [a[0]] + a[1..];
        assert b == [b[0]] + b[1..];
      }
    }
  }

  predicate StrSorted(s: seq<string>)
  {
    forall i, j :: 0 <= i < j < |s| ==> !StrLess(s[j], s[i])
  }

  function InsertStr(x: string, s: seq<string>): (r: seq<string>)
    requires StrSorted(s)
    ensures StrSorted(r)
    ensures multiset(r) == multiset(s) + multiset{x}
    ensures |r| == |s| + 1
  {
    if |s| == 0 || !StrLess(s[0], x) then
      assert forall j :: 0 <= j < |s| ==> !StrLess(s[j], x) by {
        forall j | 0 <= j < |s| ensures !StrLess(s[j], x) {
          if |s| > 0 && j > 0 {
            StrLessTotal(s[0], s[j]);
            StrLessTotal(s[0], x);
            if StrLess(s[j], x) {
              if StrLess(s[0], s[j]) { StrLessTransitive(s[0], s[j], x); }
            }
          }
        }
      }
      [x] + s
    else
      var t := InsertStr(x, s[1..]);
      assert multiset(t) == multiset(s[1..]) + multiset{x};
      assert s == [s[0]] + s[1..];
      assert forall j :: 0 <= j < |t| ==> !StrLess(t[j], s[0]) by {
        forall j | 0 <= j < |t| ensures !StrLess(t[j], s[0]) {
          assert t[j] in multiset(t);
          if t[j] == x {
            StrLessTotal(s[0], x);
            if StrLess(x, s[0]) { StrLessTransitive(x, s[0], x); StrLessIrreflexive(x); }
          } else {
            assert t[j] in multiset(s[1..]);
            var i :| 0 <= i < |s[1..]| && s[1..][i] == t[j];
            assert s[i + 1] == t[j];
          }
        }
      }
      [s[0]] + t
  }

  /** `sorted(names)` for a list of strings. */
  function SortStrings(s: seq<string>): (r: seq<string>)
    ensures StrSorted(r)
    ensures multiset(r) == multiset(s)
    ensures |r| == |s|
  {
    if |s| == 0 then []
    else
      assert s == [s[0]] + s[1..];
      InsertStr(s[0], SortStrings(s[1..]))
  }
}
