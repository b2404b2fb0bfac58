/** Python dictionaries as insertion-ordered association lists.  Iteration
    (`.items()`, `.keys()`) follows insertion order, and assigning to an
    existing key replaces its value without moving it. */
module OrderedDict {
  import opened Wrappers

  type Dict<K, V> = seq<(K, V)>

  predicate DistinctKeys<K(==), V>(d: Dict<K, V>)
  {
    forall i, j :: 0 <= i < j < |d| ==> d[i].0 != d[j].0
  }

  function Keys<K, V>(d: Dict<K, V>): (ks: seq<K>)
    ensures |ks| == |d|
    ensures forall i :: 0 <= i < |d| ==> ks[i] == d[i].0
  {
    seq(|d|, i requires 0 <= i < |d| => d[i].0)
  }

  function Values<K, V>(d: Dict<K, V>): (vs: seq<V>)
    ensures |vs| == |d|
    ensures forall i :: 0 <= i < |d| ==> vs[i] == d[i].1
  {
    seq(|d|, i requires 0 <= i < |d| => d[i].1)
  }

  predicate HasKey<K(==), V>(d: Dict<K, V>, k: K)
  {
    exists i :: 0 <= i < |d| && d[i].0 == k
  }

  /** Position of key `k` in `d`: the first pair holding it. */
  function IndexOfKey<K(==), V>(d: Dict<K, V>, k: K): (i: nat)
    requires HasKey(d, k)
    ensures i < |d| && d[i].0 == k
    ensures forall j :: 0 <= j < i ==> d[j].0 != k
  {
    if d[0].0 == k then 0
    else
      assert HasKey(d[1..], k) by {
        var i :| 0 <= i < |d| && d[i].0 == k;
        assert d[1..][i - 1].0 == k;
      }
      1 + IndexOfKey(d[1..], k)
  }

  /** `d.get(k)`. */
  function Get<K(==), V>(d: Dict<K, V>, k: K): (r: Option<V>)
    ensures r.None? <==> !HasKey(d, k)
    ensures r.Some? ==> exists i :: 0 <= i < |d| && d[i] == (k, r.value)
    ensures DistinctKeys(d) ==> forall i :: 0 <= i < |d| && d[i].0 == k ==> r == Some(d[i].1)
  {
    if HasKey(d, k) then
      var i := IndexOfKey(d, k);
      assert d[i] == (k, d[i].1);
      Some(d[i].1)
    else None
  }

  /** `d[k] = v`: an existing key keeps its position, a new key goes last. */
  function Put<K(==, !new), V>(d: Dict<K, V>, k: K, v: V): (r: Dict<K, V>)
    ensures HasKey(d, k) ==> |r| == |d| && Keys(r) == Keys(d)
    ensures !HasKey(d, k) ==> r == d + [(k, v)]
    ensures DistinctKeys(d) ==> DistinctKeys(r)
    ensures DistinctKeys(d) ==> Get(r, k) == Some(v)
    ensures forall k' :: k' != k ==> Get(r, k') == Get(d, k')
    ensures forall i :: 0 <= i < |r| ==> r[i] == (k, v) || r[i] in d
  {
    if HasKey(d, k) then
      var i := IndexOfKey(d, k);
      var r := d[i := (k, v)];
      assert Keys(r) == Keys(d);
      assert forall k' :: k' != k ==> Get(r, k') == Get(d, k') by {
        forall k' | k' != k ensures Get(r, k') == Get(d, k') {
          assert HasKey(r, k') <==> HasKey(d, k') by {
            assert forall j :: 0 <= j < |d| ==> (r[j].0 == k' <==> d[j].0 == k');
          }
          if HasKey(d, k') {
            assert IndexOfKey(r, k') == IndexOfKey(d, k') by {
              IndexOfKeyEq(r, d, k');
            }
          }
        }
      }
      r
    else
      var r := d + [(k, v)];
      assert forall k' :: k' != k ==> Get(r, k') == Get(d, k') by {
        forall k' | k' != k ensures Get(r, k') == Get(d, k') {
          assert HasKey(r, k') <==> HasKey(d, k') by {
            if HasKey(r, k') {
              var j :| 0 <= j < |r| && r[j].0 == k';
              assert j < |d| && d[j].0 == k';
            }
            if HasKey(d, k') {
              var j :| 0 <= j < |d| && d[j].0 == k';
              assert r[j].0 == k';
            }
          }
          if HasKey(d, k') {
            IndexOfKeyEq(r, d, k');
          }
        }
      }
      assert Get(r, k) == Some(v) by {
        assert r[|d|].0 == k;
        assert HasKey(r, k);
        var j := IndexOfKey(r, k);
        assert forall jj :: 0 <= jj < |d| ==> r[jj].0 != k;
      }
      r
  }

  /** Two dictionaries that agree on where keys sit agree on the first position of `k`. */
  lemma IndexOfKeyEq<K, V>(a: Dict<K, V>, b: Dict<K, V>, k: K)
    requires HasKey(a, k) && HasKey(b, k)
    requires forall j :: 0 <= j < |a| && 0 <= j < |b| ==> (a[j].0 == k <==> b[j].0 == k)
    requires IndexOfKey(b, k) < |a|
    ensures IndexOfKey(a, k) == IndexOfKey(b, k)
  {
    var i := IndexOfKey(a, k);
    var j := IndexOfKey(b, k);
    assert a[j].0 == k;
    assert i <= j;
    assert b[i].0 == k;
  }

  /** Reading back what was stored. */
  lemma GetPut<K(!new), V>(d: Dict<K, V>, k: K, v: V, k': K)
    requires DistinctKeys(d)
    ensures Get(Put(d, k, v), k') == if k' == k then Some(v) else Get(d, k')
  {
  }

  /** Storing the same value twice is storing it once. */
  lemma PutIdempotent<K(!new), V>(d: Dict<K, V>, k: K, v: V)
    ensures Put(Put(d, k, v), k, v) == Put(d, k, v)
  {
    var r := Put(d, k, v);
    if HasKey(d, k) {
      var i := IndexOfKey(d, k);
      assert r == d[i := (k, v)];
      IndexOfKeyEq(r, d, k);
      assert r[i := (k, v)] == r;
    } else {
      assert r == d + [(k, v)];
      assert r[|d|].0 == k;
      assert forall j :: 0 <= j < |d| ==> r[j].0 != k;
      assert IndexOfKey(r, k) == |d|;
      assert r[|d| := (k, v)] == r;
    }
  }

  /** Reading back what was stored, with or without repeated keys: `Put`
      writes the first pair holding the key, which is the one `Get` reads. */
  lemma GetPutSame<K(!new), V>(d: Dict<K, V>, k: K, v: V)
    ensures Get(Put(d, k, v), k) == Some(v)
  {
    var r := Put(d, k, v);
    if HasKey(d, k) {
      var i := IndexOfKey(d, k);
      assert r == d[i := (k, v)];
      IndexOfKeyEq(r, d, k);
    } else {
      assert r[|d|].0 == k;
      assert forall j :: 0 <= j < |d| ==> r[j].0 != k;
      assert IndexOfKey(r, k) == |d|;
    }
  }

  /** Two dictionaries with the same keys in the same order and the same
      value for every key are the same dictionary. */
  lemma DictExt<K(!new), V>(a: Dict<K, V>, b: Dict<K, V>)
    requires Keys(a) == Keys(b) && DistinctKeys(a)
    requires forall k :: Get(a, k) == Get(b, k)
    ensures a == b
  {
    assert |a| == |Keys(a)| == |Keys(b)| == |b|;
    assert DistinctKeys(b) by {
      forall i, j | 0 <= i < j < |b| ensures b[i].0 != b[j].0 {
        assert Keys(a)[i] == Keys(b)[i] && Keys(a)[j] == Keys(b)[j];
      }
    }
    forall i | 0 <= i < |a| ensures a[i] == b[i] {
      assert Keys(a)[i] == Keys(b)[i];
      var k := a[i].0;
      assert Get(a, k) == Some(a[i].1);
      assert Get(b, k) == Some(b[i].1);
    }
  }
}
