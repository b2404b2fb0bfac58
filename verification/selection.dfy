/** The selection logic of the result plots, shared by the ChampSim and gem5
    result scripts: global and per-trace top-k, "top 5" per policy (which
    keeps four), worst/median/best per policy, and the "4 IPCs" pick of
    worst, best and two mid-range entries from different policies. */
module Selection {
  import opened Wrappers
  import opened OrderedDict
  import opened Sorting
  import opened PyStr
  import opened ResultData

  /** `r` is a top-`k` of `s`: the `min(k, |s|)` entries with the largest
      keys, in descending key order, with everything left out keyed no
      higher than anything kept. */
  ghost predicate IsTopK<T(!new)>(s: seq<T>, key: T -> real, k: nat, r: seq<T>)
  {
    && |r| == (if k < |s| then k else |s|)
    && (forall i, j :: 0 <= i < j < |r| ==> key(r[i]) >= key(r[j]))
    && multiset(r) <= multiset(s)
    && exists rest: seq<T> :: TopSplit(s, key, r, rest)
  }

  /** `s` splits into `r` and `rest`, nothing in `rest` keyed above
      anything in `r`. */
  ghost predicate TopSplit<T(!new)>(s: seq<T>, key: T -> real, r: seq<T>, rest: seq<T>)
  {
    && multiset(r) + multiset(rest) == multiset(s)
    && forall a, b :: a in r && b in rest ==> key(b) <= key(a)
  }

  /** `sorted(s, key=key, reverse=True)[:k]`. */
  function TopK<T(!new)>(s: seq<T>, key: T -> real, k: nat): (r: seq<T>)
    ensures IsTopK(s, key, k, r)
  {
    var sorted := SortDescBy(s, key);
    var m := if k < |s| then k else |s|;
    DescSplit(s, sorted, key, m);
    sorted[..m]
  }

  /** Cutting a descending permutation of `s` at `m` gives a top-`m`. */
  lemma DescSplit<T(!new)>(s: seq<T>, sorted: seq<T>, key: T -> real, m: nat)
    requires m <= |sorted| && multiset(sorted) == multiset(s)
    requires forall i, j :: 0 <= i < j < |sorted| ==> key(sorted[i]) >= key(sorted[j])
    ensures IsTopK(s, key, m, sorted[..m])
  {
    var r, rest := sorted[..m], sorted[m..];
    assert |sorted| == |s| by {
      assert |multiset(sorted)| == |multiset(s)|;
    }
    CutSplits(s, sorted, key, m);
    assert TopSplit(s, key, r, rest);
    assert multiset(r) <= multiset(s);
  }

  /** The two halves of the cut split `s`, the kept half keyed no lower. */
  lemma CutSplits<T(!new)>(s: seq<T>, sorted: seq<T>, key: T -> real, m: nat)
    requires m <= |sorted| && multiset(sorted) == multiset(s)
    requires forall i, j :: 0 <= i < j < |sorted| ==> key(sorted[i]) >= key(sorted[j])
    ensures TopSplit(s, key, sorted[..m], sorted[m..])
  {
    var r, rest := sorted[..m], sorted[m..];
    assert sorted == r + rest;
    forall a, b | a in r && b in rest ensures key(b) <= key(a) {
      var i :| 0 <= i < |r| && r[i] == a;
      var j :| 0 <= j < |rest| && rest[j] == b;
      assert sorted[i] == a && sorted[m + j] == b;
    }
  }

  /** `r` is worst, median and best of `s`: the two ends bound every key,
      and the middle entry has `|s| / 2` entries keyed no higher before it
      and the rest keyed no lower after it. */
  ghost predicate IsWorstMedianBest<T(!new)>(s: seq<T>, key: T -> real, r: seq<T>)
  {
    && |r| == 3
    && key(r[0]) <= key(r[1]) <= key(r[2])
    && (forall x :: x in s ==> key(r[0]) <= key(x) <= key(r[2]))
    && multiset(r) <= multiset(s)
    && exists lo: seq<T>, hi: seq<T> :: MedianSplit(s, key, r[1], lo, hi)
  }

  /** `m` is a median of `s` split as `lo`, `m`, `hi`: `|s| / 2` entries
      keyed no higher before it and the rest keyed no lower after it. */
  ghost predicate MedianSplit<T(!new)>(s: seq<T>, key: T -> real, m: T, lo: seq<T>, hi: seq<T>)
  {
    && |lo| == |s| / 2
    && multiset(lo) + multiset{m} + multiset(hi) == multiset(s)
    && (forall x :: x in lo ==> key(x) <= key(m))
    && (forall y :: y in hi ==> key(m) <= key(y))
  }

  /** Positions 0, n//2 and n-1 of `sorted(s, key=key)`: worst, median and best. */
  function WorstMedianBest<T(!new)>(s: seq<T>, key: T -> real): (r: seq<T>)
    requires |s| >= 3
    ensures IsWorstMedianBest(s, key, r)
  {
    var a := SortBy(s, key);
    PicksOfSorted(s, a, key);
    [a[0], a[|a| / 2], a[|a| - 1]]
  }

  /** Positions 0, n//2 and n-1 of an ascending permutation of `s`. */
  lemma PicksOfSorted<T(!new)>(s: seq<T>, a: seq<T>, key: T -> real)
    requires |s| >= 3 && SortedBy(a, key) && multiset(a) == multiset(s) && |a| == |s|
    ensures IsWorstMedianBest(s, key, [a[0], a[|a| / 2], a[|a| - 1]])
  {
    var h := |a| / 2;
    ThreeSub(a, h);
    EndsOfSorted(s, a, key);
    MedianOfSorted(s, a, key, h);
    WorstMedianBestOf(s, key, [a[0], a[h], a[|a| - 1]], a[..h], a[h + 1..]);
  }

  lemma WorstMedianBestOf<T(!new)>(s: seq<T>, key: T -> real, r: seq<T>, lo: seq<T>, hi: seq<T>)
    requires |r| == 3 && key(r[0]) <= key(r[1]) <= key(r[2])
    requires forall x :: x in s ==> key(r[0]) <= key(x) <= key(r[2])
    requires multiset(r) <= multiset(s) && MedianSplit(s, key, r[1], lo, hi)
    ensures IsWorstMedianBest(s, key, r)
  {
  }

  /** The ends of an ascending permutation of `s` bound every key of `s`. */
  lemma EndsOfSorted<T>(s: seq<T>, a: seq<T>, key: T -> real)
    requires |a| > 0 && SortedBy(a, key) && multiset(a) == multiset(s)
    ensures forall x :: x in s ==> key(a[0]) <= key(x) <= key(a[|a| - 1])
  {
    MemberOfPermutation(s, a);
    forall x | x in a ensures key(a[0]) <= key(x) <= key(a[|a| - 1]) {
      var i :| 0 <= i < |a| && a[i] == x;
    }
  }

  /** Position `|s| / 2` of an ascending permutation of `s` is a median. */
  lemma MedianOfSorted<T(!new)>(s: seq<T>, a: seq<T>, key: T -> real, h: nat)
    requires SortedBy(a, key) && multiset(a) == multiset(s) && |a| == |s| && h == |s| / 2 && h < |a|
    ensures MedianSplit(s, key, a[h], a[..h], a[h + 1..])
  {
    SplitMultiset(a, h);
    forall x | x in a[..h] ensures key(x) <= key(a[h]) {
      var i :| 0 <= i < h && a[..h][i] == x;
      assert a[i] == x;
    }
    forall y | y in a[h + 1..] ensures key(a[h]) <= key(y) {
      var i :| 0 <= i < |a[h + 1..]| && a[h + 1..][i] == y;
      assert a[h + 1 + i] == y;
    }
  }

  /** Cutting out position `h` keeps every element. */
  lemma SplitMultiset<T>(a: seq<T>, h: nat)
    requires h < |a|
    ensures multiset(a[..h]) + multiset{a[h]} + multiset(a[h + 1..]) == multiset(a)
  {
    assert a == a[..h] + [a[h]] + a[h + 1..];
    assert multiset([a[h]]) == multiset{a[h]};
  }

  lemma MemberOfPermutation<T>(s: seq<T>, a: seq<T>)
    requires multiset(a) == multiset(s)
    ensures forall x :: x in s ==> x in a
  {
    forall x | x in s ensures x in a {
      assert x in multiset(a);
    }
  }

  /** In an ascending sequence, everything before position `h` is at most
      its key, everything after is at least its key, and the ends are the
      extremes. */
  lemma SortedSplit<T>(a: seq<T>, key: T -> real, h: nat)
    requires SortedBy(a, key) && h < |a|
    ensures a == a[..h] + [a[h]] + a[h + 1..]
    ensures forall x :: x in a[..h] ==> key(x) <= key(a[h])
    ensures forall y :: y in a[h + 1..] ==> key(a[h]) <= key(y)
    ensures forall x :: x in a ==> key(a[0]) <= key(x) <= key(a[|a| - 1])
  {
    forall x | x in a[..h] ensures key(x) <= key(a[h]) {
      var i :| 0 <= i < h && a[..h][i] == x;
      assert a[i] == x;
    }
    forall y | y in a[h + 1..] ensures key(a[h]) <= key(y) {
      var i :| 0 <= i < |a[h + 1..]| && a[h + 1..][i] == y;
      assert a[h + 1 + i] == y;
    }
    forall x | x in a ensures key(a[0]) <= key(x) <= key(a[|a| - 1]) {
      var i :| 0 <= i < |a| && a[i] == x;
    }
  }

  lemma ThreeSub<T>(a: seq<T>, h: nat)
    requires 0 < h < |a| - 1
    ensures multiset([a[0], a[h], a[|a| - 1]]) <= multiset(a)
  {
    var n := |a|;
    assert a == [a[0]] + a[1..h] + [a[h]] + a[h + 1..n - 1] + [a[n - 1]];
    assert multiset(a) == multiset{a[0]} + multiset(a[1..h]) + multiset{a[h]} + multiset(a[h + 1..n - 1]) + multiset{a[n - 1]};
    assert multiset([a[0], a[h], a[n - 1]]) == multiset{a[0]} + multiset{a[h]} + multiset{a[n - 1]};
  }

  /** `bp.replace('_', ' | ', 1)`: the branch/prefetcher label of a bar. */
  function FormatBp(bp: string): (r: string)
    ensures '_' !in bp ==> r == bp
    ensures '_' in bp ==>
      exists i :: 0 <= i < |bp| && bp[i] == '_' && '_' !in bp[..i] && r == bp[..i] + " | " + bp[i + 1..]
  {
    ReplaceFirst(bp, '_', " | ")
  }

  /** First index at or after `from` whose policy differs from `p`. */
  function FirstOtherPolicy(s: seq<Bar>, p: string, from: nat): (r: Option<nat>)
    ensures r.Some? ==>
      (from <= r.value < |s| && s[r.value].policy != p &&
       forall j :: from <= j < r.value ==> s[j].policy == p)
    ensures r.None? ==> forall j :: from <= j < |s| ==> s[j].policy == p
    decreases |s| - from
  {
    if from >= |s| then None
    else if s[from].policy != p then Some(from)
    else FirstOtherPolicy(s, p, from + 1)
  }

  /** Every entry of `s` has the policy of its first entry. */
  predicate OnePolicy(s: seq<Bar>)
  {
    forall i :: 0 <= i < |s| ==> s[i].policy == s[0].policy
  }

  /** The loop that walks the candidates in order and keeps each one whose
      policy is not yet used, stopping at two. */
  function PickDistinct(s: seq<Bar>): (r: seq<Bar>)
    ensures |r| <= 2
    ensures |s| > 0 <==> |r| > 0
    ensures |r| > 0 ==> r[0] == s[0]
    ensures |r| == 2 ==> r[0].policy != r[1].policy
    ensures |r| == 2 <==> |s| > 0 && !OnePolicy(s)
    ensures multiset(r) <= multiset(s)
  {
    if |s| == 0 then []
    else
      match FirstOtherPolicy(s, s[0].policy, 1)
      case None => [s[0]]
      case Some(j) =>
        assert s == [s[0]] + s[1..j] + [s[j]] + s[j + 1..];
        [s[0], s[j]]
  }

  function Abs(x: real): real
  {
    if x < 0.0 then -x else x
  }

  /** All mid-range entries (all but the first and last of the ascending
      sort) come from one policy. */
  predicate MidRangeOnePolicy(e: seq<Bar>)
    requires |e| >= 2
  {
    OnePolicy(e[1..|e| - 1])
  }

  /** The two mid-range picks: the entries strictly between the first and
      last of the ascending sort `e`, ordered by distance to the value in the
      middle of that range, then filtered to two distinct policies. */
  function MidPicks(e: seq<Bar>): (c: seq<Bar>)
    requires |e| >= 3
    ensures |c| <= 2
    ensures |c| == 2 <==> !MidRangeOnePolicy(e)
    ensures |c| == 2 ==> c[0].policy != c[1].policy
    ensures multiset(c) <= multiset(e[1..|e| - 1])
  {
    var mid := e[1..|e| - 1];
    var median := mid[|mid| / 2].ipc;
    var ordered := SortBy(mid, (x: Bar) => Abs(x.ipc - median));
    SameOnePolicy(mid, ordered);
    PickDistinct(ordered)
  }

  /** Reordering keeps "one policy only". */
  lemma SameOnePolicy(mid: seq<Bar>, ordered: seq<Bar>)
    requires |mid| > 0
    requires multiset(ordered) == multiset(mid)
    ensures |ordered| > 0
    ensures OnePolicy(mid) <==> OnePolicy(ordered)
  {
    assert |ordered| == |mid| by {
      assert |multiset(ordered)| == |multiset(mid)|;
    }
    assert ordered[0] in multiset(mid);
    assert mid[0] in multiset(ordered);
    var i0 :| 0 <= i0 < |mid| && mid[i0] == ordered[0];
    var j0 :| 0 <= j0 < |ordered| && ordered[j0] == mid[0];
    if OnePolicy(mid) {
      forall j | 0 <= j < |ordered| ensures ordered[j].policy == ordered[0].policy {
        assert ordered[j] in multiset(mid);
        var i :| 0 <= i < |mid| && mid[i] == ordered[j];
      }
    }
    if OnePolicy(ordered) {
      forall i | 0 <= i < |mid| ensures mid[i].policy == mid[0].policy {
        assert mid[i] in multiset(ordered);
        var j :| 0 <= j < |ordered| && ordered[j] == mid[i];
      }
    }
  }

  /** Four bars drawn from `s`, ascending by IPC, the first a minimum and
      the last a maximum of `s`, the middle two from different policies. */
  predicate FourSelected(s: seq<Bar>, r: seq<Bar>)
  {
    |r| == 4 &&
    (forall i, j :: 0 <= i < j < 4 ==> r[i].ipc <= r[j].ipc) &&
    (forall x :: x in s ==> r[0].ipc <= x.ipc <= r[3].ipc) &&
    r[1].policy != r[2].policy &&
    multiset(r) <= multiset(s)
  }

  /** The selection of `plot_4ipc_by_trace` for one trace's entries: the
      minimum, the maximum and two mid-range entries with different policies,
      sorted ascending; `None` where the trace is skipped. */
  function FourIpc(s: seq<Bar>): (r: Option<seq<Bar>>)
    ensures r.Some? ==> FourSelected(s, r.value)
    ensures r.None? <==> |s| < 4 || MidRangeOnePolicy(SortBy(s, Ipc))
  {
    if |s| < 4 then None
    else
      var e := SortBy(s, Ipc);
      var cands := MidPicks(e);
      if |cands| < 2 then None
      else Some(FinalFour(s, e, cands))
  }

  /** The worst, the two picks and the best, sorted ascending by IPC. */
  function FinalFour(s: seq<Bar>, e: seq<Bar>, c: seq<Bar>): (r: seq<Bar>)
    requires |s| >= 4 && e == SortBy(s, Ipc)
    requires |c| == 2 && c[0].policy != c[1].policy
    requires multiset(c) <= multiset(e[1..|e| - 1])
    ensures FourSelected(s, r)
  {
    var r := SortBy([e[0], c[0], c[1], e[|e| - 1]], Ipc);
    FourProps(s, e, c, r);
    r
  }

  lemma FourProps(s: seq<Bar>, e: seq<Bar>, c: seq<Bar>, r: seq<Bar>)
    requires |s| >= 4 && e == SortBy(s, Ipc)
    requires |c| == 2 && c[0].policy != c[1].policy
    requires multiset(c) <= multiset(e[1..|e| - 1])
    requires r == SortBy([e[0], c[0], c[1], e[|e| - 1]], Ipc)
    ensures FourSelected(s, r)
  {
    var four := [e[0], c[0], c[1], e[|e| - 1]];
    assert SortedBy(r, Ipc) && multiset(r) == multiset(four) && |r| == 4;
    FourShape(e, c);
    FourBounds(s, e);
    FourSub(e, c);
    assert multiset(e) == multiset(s);
    assert forall i, j :: 0 <= i < j < 4 ==> r[i].ipc <= r[j].ipc by {
      forall i, j | 0 <= i < j < 4 ensures r[i].ipc <= r[j].ipc {
        assert Ipc(r[i]) <= Ipc(r[j]);
      }
    }
  }

  /** The final sort keeps the worst first and the best last and the two
      picks in the middle. */
  lemma FourShape(e: seq<Bar>, c: seq<Bar>)
    requires |e| >= 2 && SortedBy(e, Ipc) && |c| == 2
    requires multiset(c) <= multiset(e[1..|e| - 1])
    ensures var r := SortBy([e[0], c[0], c[1], e[|e| - 1]], Ipc);
      r[0] == e[0] && r[3] == e[|e| - 1] &&
      ((r[1] == c[0] && r[2] == c[1]) || (r[1] == c[1] && r[2] == c[0]))
  {
    MidBoth(e, c);
    SortFourEnds(e[0], c[0], c[1], e[|e| - 1], Ipc);
  }

  /** Both mid-range picks lie between the worst and the best. */
  lemma MidBoth(e: seq<Bar>, c: seq<Bar>)
    requires |e| >= 2 && SortedBy(e, Ipc) && |c| == 2
    requires multiset(c) <= multiset(e[1..|e| - 1])
    ensures e[0].ipc <= c[0].ipc <= e[|e| - 1].ipc && e[0].ipc <= c[1].ipc <= e[|e| - 1].ipc
  {
    assert c[0] in multiset(c) && c[1] in multiset(c);
    MidBetween(e, c[0]);
    MidBetween(e, c[1]);
  }

  lemma FourBounds(s: seq<Bar>, e: seq<Bar>)
    requires |s| >= 1 && e == SortBy(s, Ipc)
    ensures forall x :: x in s ==> e[0].ipc <= x.ipc <= e[|e| - 1].ipc
  {
    SortedSplit(e, Ipc, 0);
    MemberOfPermutation(s, e);
  }

  lemma FourSub(e: seq<Bar>, c: seq<Bar>)
    requires |e| >= 2 && |c| == 2
    requires multiset(c) <= multiset(e[1..|e| - 1])
    ensures multiset([e[0], c[0], c[1], e[|e| - 1]]) <= multiset(e)
  {
    var n := |e|;
    var mid := e[1..n - 1];
    var x, y := e[0], e[n - 1];
    var mc := multiset(c);
    var mm := multiset(mid);
    assert e == [x] + mid + [y];
    assert multiset(e) == multiset{x} + mm + multiset{y};
    assert c == [c[0]] + [c[1]];
    assert mc == multiset{c[0]} + multiset{c[1]};
    var four := [x, c[0], c[1], y];
    assert four == [x] + c + [y];
    assert multiset(four) == multiset{x} + mc + multiset{y};
  }

  lemma MidBetween(e: seq<Bar>, c: Bar)
    requires |e| >= 2
    requires SortedBy(e, Ipc)
    requires c in multiset(e[1..|e| - 1])
    ensures e[0].ipc <= c.ipc <= e[|e| - 1].ipc
  {
    var i :| 0 <= i < |e[1..|e| - 1]| && e[1..|e| - 1][i] == c;
    assert e[i + 1] == c;
  }

  /** Per-trace driver: traces in the given order, each with the bars the
      selection picks for it; traces with nothing selected are skipped. */
  function PerTrace(d: Data, traces: seq<string>, pick: PolicyMap -> seq<Bar>): (r: seq<(string, seq<Bar>)>)
    ensures forall i :: 0 <= i < |r| ==>
      r[i].0 in traces && r[i].1 != [] && r[i].1 == pick(Get(d, r[i].0).GetOr([]))
    ensures forall t :: t in traces && pick(Get(d, t).GetOr([])) != [] ==> exists i :: 0 <= i < |r| && r[i].0 == t
  {
    if |traces| == 0 then []
    else
      var bars := pick(Get(d, traces[0]).GetOr([]));
      var rest := PerTrace(d, traces[1..], pick);
      var r := if bars == [] then rest else [(traces[0], bars)] + rest;
      TracesCovered(d, traces, pick, rest);
      r
  }

  /** Adding the first trace's entry, when it has bars, keeps every trace
      with bars covered. */
  lemma TracesCovered(d: Data, traces: seq<string>, pick: PolicyMap -> seq<Bar>, rest: seq<(string, seq<Bar>)>)
    requires |traces| > 0
    requires forall t :: t in traces[1..] && pick(Get(d, t).GetOr([])) != [] ==> exists i :: 0 <= i < |rest| && rest[i].0 == t
    ensures var bars := pick(Get(d, traces[0]).GetOr([]));
      var r := if bars == [] then rest else [(traces[0], bars)] + rest;
      forall t :: t in traces && pick(Get(d, t).GetOr([])) != [] ==> exists i :: 0 <= i < |r| && r[i].0 == t
  {
    var bars := pick(Get(d, traces[0]).GetOr([]));
    var r := if bars == [] then rest else [(traces[0], bars)] + rest;
    forall t | t in traces && pick(Get(d, t).GetOr([])) != []
      ensures exists i :: 0 <= i < |r| && r[i].0 == t
    {
      if t == traces[0] {
        assert r[0].0 == t;
      } else {
        assert t in traces[1..];
        var i :| 0 <= i < |rest| && rest[i].0 == t;
        if bars != [] { assert r[i + 1].0 == t; } else { assert r[i].0 == t; }
      }
    }
  }

  /** `plot_top3_by_trace` for one trace: the three highest of all its
      bars (every stored entry is a bar, by `TraceBarsComplete`). */
  function TraceTop3(pm: PolicyMap): (r: seq<Bar>)
    ensures IsTopK(TraceBars(pm), Ipc, 3, r)
  {
    TopK(TraceBars(pm), Ipc, 3)
  }

  /** `plot_4ipc_by_trace` for one trace. */
  function TraceFourIpc(pm: PolicyMap): (r: seq<Bar>)
    ensures r != [] ==> FourSelected(TraceBars(pm), r)
    ensures r == [] <==> |TraceBars(pm)| < 4 || MidRangeOnePolicy(SortBy(TraceBars(pm), Ipc))
  {
    match FourIpc(TraceBars(pm))
    case None => []
    case Some(four) => four
  }

  /** One policy's share of a "top k" plot: its `k` highest bars, nothing
      when the trace has no entry for the policy. */
  function PolicyTopK(pm: PolicyMap, p: string, k: nat): (r: seq<Bar>)
    ensures |r| <= k
    ensures forall b :: b in r ==> b.policy == p
    ensures !HasKey(pm, p) ==> r == []
    ensures HasKey(pm, p) ==> IsTopK(PolicyBars(p, Get(pm, p).value), Ipc, k, r)
  {
    match Get(pm, p)
    case None => []
    case Some(bm) =>
      var r := TopK(PolicyBars(p, bm), Ipc, k);
      assert forall b :: b in r ==> b.policy == p by {
        forall b | b in r ensures b.policy == p {
          assert b in multiset(r);
          assert b in multiset(PolicyBars(p, bm));
        }
      }
      r
  }

  /** The "top 5" plot for one trace: for each selected policy present, in
      the given order, its `k` (four) highest bars. */
  function TraceTopPerPolicy(pm: PolicyMap, policies: seq<string>, k: nat): (r: seq<Bar>)
    ensures forall b :: b in r ==> b.policy in policies
  {
    if |policies| == 0 then []
    else PolicyTopK(pm, policies[0], k) + TraceTopPerPolicy(pm, policies[1..], k)
  }

  /** The bars of policy `p` in `s`, in order. */
  function Share(s: seq<Bar>, p: string): seq<Bar>
  {
    if |s| == 0 then [] else (if s[0].policy == p then [s[0]] else []) + Share(s[1..], p)
  }

  lemma {:induction false} ShareAppend(a: seq<Bar>, b: seq<Bar>, p: string)
    ensures Share(a + b, p) == Share(a, p) + Share(b, p)
  {
    if |a| == 0 {
      assert a + b == b;
    } else {
      var h := if a[0].policy == p then [a[0]] else [];
      assert (a + b)[0] == a[0];
      assert (a + b)[1..] == a[1..] + b;
      assert Share(a + b, p) == h + Share(a[1..] + b, p);
      ShareAppend(a[1..], b, p);
      Assoc(h, Share(a[1..], p), Share(b, p));
    }
  }

  lemma Assoc<T>(x: seq<T>, y: seq<T>, z: seq<T>)
    ensures x + (y + z) == (x + y) + z
  {
  }

  lemma {:induction false} ShareOwn(s: seq<Bar>, p: string)
    requires forall b :: b in s ==> b.policy == p
    ensures Share(s, p) == s
  {
    if |s| > 0 {
      assert s[0] in s;
      ShareOwn(s[1..], p);
    }
  }

  lemma {:induction false} ShareOther(s: seq<Bar>, p: string)
    requires forall b :: b in s ==> b.policy != p
    ensures Share(s, p) == []
  {
    if |s| > 0 {
      assert s[0] in s;
      ShareOther(s[1..], p);
    }
  }

  predicate DistinctPolicies(policies: seq<string>)
  {
    forall i, j :: 0 <= i < j < |policies| ==> policies[i] != policies[j]
  }

  /** A reordering of distinct names is distinct: `sorted` of a list of
      distinct policies repeats none. */
  lemma PermutationDistinct(s: seq<string>, a: seq<string>)
    requires DistinctPolicies(s) && multiset(a) == multiset(s)
    ensures DistinctPolicies(a)
  {
    forall i, j | 0 <= i < j < |a| ensures a[i] != a[j] {
      TwoPositions(a, i, j);
      DistinctCount(s, a[i]);
    }
  }

  lemma TwoPositions<T>(a: seq<T>, i: nat, j: nat)
    requires i < j < |a|
    ensures multiset(a)[a[i]] >= if a[i] == a[j] then 2 else 1
  {
    assert a == a[..i] + [a[i]] + a[i + 1..j] + [a[j]] + a[j + 1..];
    assert multiset(a) == multiset(a[..i]) + multiset{a[i]} + multiset(a[i + 1..j]) + multiset{a[j]} + multiset(a[j + 1..]);
  }

  lemma {:induction false} DistinctCount(s: seq<string>, x: string)
    requires DistinctPolicies(s)
    ensures multiset(s)[x] <= 1
  {
    if |s| > 0 {
      assert s == [s[0]] + s[1..];
      assert DistinctPolicies(s[1..]);
      DistinctCount(s[1..], x);
      assert s[0] !in s[1..];
      assert multiset(s) == multiset{s[0]} + multiset(s[1..]);
    }
  }

  /** In the "top 5" plot each selected policy's bars are exactly its own
      top `k`, and other policies show nothing. */
  lemma {:induction false} TopPerPolicyShare(pm: PolicyMap, policies: seq<string>, k: nat, p: string)
    requires DistinctPolicies(policies)
    ensures Share(TraceTopPerPolicy(pm, policies, k), p) == if p in policies then PolicyTopK(pm, p, k) else []
  {
    if |policies| > 0 {
      var q := policies[0];
      var group := PolicyTopK(pm, q, k);
      var rest := TraceTopPerPolicy(pm, policies[1..], k);
      ShareAppend(group, rest, p);
      assert DistinctPolicies(policies[1..]);
      TopPerPolicyShare(pm, policies[1..], k, p);
      if p == q {
        ShareOwn(group, p);
        assert p !in policies[1..];
      } else {
        ShareOther(group, p);
        assert p in policies <==> p in policies[1..];
      }
    }
  }

  function CountPolicy(s: seq<Bar>, p: string): nat
  {
    if |s| == 0 then 0 else (if s[0].policy == p then 1 else 0) + CountPolicy(s[1..], p)
  }

  lemma {:induction false} CountPolicyAppend(a: seq<Bar>, b: seq<Bar>, p: string)
    ensures CountPolicy(a + b, p) == CountPolicy(a, p) + CountPolicy(b, p)
  {
    if |a| == 0 {
      assert a + b == b;
    } else {
      assert (a + b)[0] == a[0];
      assert (a + b)[1..] == a[1..] + b;
      CountPolicyAppend(a[1..], b, p);
    }
  }

  lemma {:induction false} CountPolicyAbsent(s: seq<Bar>, p: string)
    requires forall b :: b in s ==> b.policy != p
    ensures CountPolicy(s, p) == 0
  {
    if |s| > 0 {
      CountPolicyAbsent(s[1..], p);
    }
  }

  lemma {:induction false} CountPolicyBound(s: seq<Bar>, p: string)
    ensures CountPolicy(s, p) <= |s|
  {
    if |s| > 0 {
      CountPolicyBound(s[1..], p);
    }
  }

  /** With distinct selected policies, each policy contributes at most `k`
      bars: four in the "top 5" plot. */
  lemma {:induction false} AtMostKPerPolicy(pm: PolicyMap, policies: seq<string>, k: nat, p: string)
    requires forall i, j :: 0 <= i < j < |policies| ==> policies[i] != policies[j]
    ensures CountPolicy(TraceTopPerPolicy(pm, policies, k), p) <= k
  {
    if |policies| > 0 {
      var q := policies[0];
      var group := PolicyTopK(pm, q, k);
      var rest := TraceTopPerPolicy(pm, policies[1..], k);
      CountPolicyAppend(group, rest, p);
      CountPolicyBound(group, p);
      if p == q {
        assert forall b :: b in rest ==> b.policy != p by {
          forall b | b in rest ensures b.policy != p {
            assert b.policy in policies[1..];
          }
        }
        CountPolicyAbsent(rest, p);
      } else {
        AtMostKPerPolicy(pm, policies[1..], k, p);
        CountPolicyAbsent(group, p);
      }
    }
  }

  /** One policy's share of the worst/median/best plot: nothing when the
      policy is absent or has fewer than three entries. */
  function PolicyWorstMedianBest(pm: PolicyMap, p: string): (r: seq<Bar>)
    ensures r == [] || |r| == 3
    ensures forall b :: b in r ==> b.policy == p
    ensures |r| == 3 <==> (HasKey(pm, p) && |Get(pm, p).value| >= 3)
    ensures |r| == 3 ==> IsWorstMedianBest(PolicyBars(p, Get(pm, p).value), Ipc, r)
  {
    match Get(pm, p)
    case None => []
    case Some(bm) =>
      if |bm| < 3 then []
      else
        var r := WorstMedianBest(PolicyBars(p, bm), Ipc);
        OfPolicy(p, bm, r);
        r
  }

  lemma OfPolicy(p: string, bm: BpMap, r: seq<Bar>)
    requires multiset(r) <= multiset(PolicyBars(p, bm))
    ensures forall b :: b in r ==> b.policy == p
  {
    forall b | b in r ensures b.policy == p {
      assert b in multiset(r);
      assert b in multiset(PolicyBars(p, bm));
    }
  }

  /** The worst/median/best plot for one trace: each selected policy present
      with at least three entries contributes its worst, median and best. */
  function TraceWorstMedianBest(pm: PolicyMap, policies: seq<string>): (r: seq<Bar>)
    ensures |r| % 3 == 0
    ensures forall b :: b in r ==> b.policy in policies
  {
    if |policies| == 0 then []
    else
      var group := PolicyWorstMedianBest(pm, policies[0]);
      var rest := TraceWorstMedianBest(pm, policies[1..]);
      GroupsOfPolicies(group, rest, policies);
      group + rest
  }

  lemma GroupsOfPolicies(group: seq<Bar>, rest: seq<Bar>, policies: seq<string>)
    requires |policies| > 0 && (group == [] || |group| == 3) && |rest| % 3 == 0
    requires forall b :: b in group ==> b.policy == policies[0]
    requires forall b :: b in rest ==> b.policy in policies[1..]
    ensures |group + rest| % 3 == 0
    ensures forall b :: b in group + rest ==> b.policy in policies
  {
    ModThree(|group|, |rest|);
    forall b | b in group + rest ensures b.policy in policies {
      if b !in group {
        assert b.policy in policies[1..];
      }
    }
  }

  /** In the worst/median/best plot each selected policy's bars are exactly
      its own worst, median and best, and other policies show nothing. */
  lemma {:induction false} WorstMedianBestShare(pm: PolicyMap, policies: seq<string>, p: string)
    requires DistinctPolicies(policies)
    ensures Share(TraceWorstMedianBest(pm, policies), p) == if p in policies then PolicyWorstMedianBest(pm, p) else []
  {
    if |policies| > 0 {
      var q := policies[0];
      var group := PolicyWorstMedianBest(pm, q);
      var rest := TraceWorstMedianBest(pm, policies[1..]);
      ShareAppend(group, rest, p);
      assert DistinctPolicies(policies[1..]);
      WorstMedianBestShare(pm, policies[1..], p);
      if p == q {
        ShareOwn(group, p);
        assert p !in policies[1..];
      } else {
        ShareOther(group, p);
        assert p in policies <==> p in policies[1..];
      }
    }
  }

  lemma ModThree(a: nat, b: nat)
    requires a == 0 || a == 3
    requires b % 3 == 0
    ensures (a + b) % 3 == 0
  {
  }

  /** Every `(trace, bar)` of the data, trace by trace in dictionary order. */
  function AllEntries(d: Data): (r: seq<(string, Bar)>)
    requires WellFormed(d)
    ensures forall e :: e in r ==> Lookup(d, e.0, e.1.policy, e.1.bp) == Some(e.1.ipc)
    ensures forall t, p, k :: Lookup(d, t, p, k).Some? ==> (t, Bar(p, k, Lookup(d, t, p, k).value)) in r
  {
    if |d| == 0 then []
    else
      var t := d[0].0;
      var bars := TraceBars(d[0].1);
      var head := seq(|bars|, i requires 0 <= i < |bars| => (t, bars[i]));
      var rest := AllEntries(d[1..]);
      RestLookups(d, rest);
      HeadLookups(d, head);
      EntriesComplete(d, head, rest);
      head + rest
  }

  /** An entry of the first trace is among its bars; any other entry is
      found in the later traces. */
  lemma EntriesComplete(d: Data, head: seq<(string, Bar)>, rest: seq<(string, Bar)>)
    requires WellFormed(d) && |d| > 0
    requires var bars := TraceBars(d[0].1);
      head == seq(|bars|, i requires 0 <= i < |bars| => (d[0].0, bars[i]))
    requires forall t, p, k :: Lookup(d[1..], t, p, k).Some? ==> (t, Bar(p, k, Lookup(d[1..], t, p, k).value)) in rest
    ensures forall t, p, k :: Lookup(d, t, p, k).Some? ==> (t, Bar(p, k, Lookup(d, t, p, k).value)) in head + rest
  {
    forall t, p, k | Lookup(d, t, p, k).Some?
      ensures (t, Bar(p, k, Lookup(d, t, p, k).value)) in head + rest
    {
      if t == d[0].0 {
        HeadEntry(d, head, p, k);
      } else {
        LaterTrace(d, t);
        assert Lookup(d, t, p, k) == Lookup(d[1..], t, p, k);
      }
    }
  }

  lemma HeadEntry(d: Data, head: seq<(string, Bar)>, p: string, k: string)
    requires WellFormed(d) && |d| > 0
    requires var bars := TraceBars(d[0].1);
      head == seq(|bars|, i requires 0 <= i < |bars| => (d[0].0, bars[i]))
    requires Lookup(d, d[0].0, p, k).Some?
    ensures (d[0].0, Bar(p, k, Lookup(d, d[0].0, p, k).value)) in head
  {
    var pm := d[0].1;
    var bars := TraceBars(pm);
    assert Get(d, d[0].0) == Some(pm);
    assert WellFormedPolicies(pm);
    TraceBarsComplete(pm, p, k);
    var b := Bar(p, k, Lookup(d, d[0].0, p, k).value);
    var i :| 0 <= i < |bars| && bars[i] == b;
    assert head[i] == (d[0].0, b);
  }

  /** A trace other than the first is read from the later traces. */
  lemma LaterTrace(d: Data, t: string)
    requires WellFormed(d) && |d| > 0 && t != d[0].0
    ensures Get(d, t) == Get(d[1..], t)
  {
    if HasKey(d, t) {
      var i :| 0 <= i < |d| && d[i] == (t, Get(d, t).value);
      assert d[1..][i - 1] == d[i];
    } else {
      assert !HasKey(d[1..], t) by {
        forall j | 0 <= j < |d[1..]| ensures d[1..][j].0 != t {
          assert d[1..][j] == d[j + 1];
        }
      }
    }
  }

  /** Entries found in the later traces are found in the whole data. */
  lemma RestLookups(d: Data, rest: seq<(string, Bar)>)
    requires WellFormed(d) && |d| > 0
    requires forall e :: e in rest ==> Lookup(d[1..], e.0, e.1.policy, e.1.bp) == Some(e.1.ipc)
    ensures forall e :: e in rest ==> Lookup(d, e.0, e.1.policy, e.1.bp) == Some(e.1.ipc)
  {
    forall e | e in rest ensures Lookup(d, e.0, e.1.policy, e.1.bp) == Some(e.1.ipc) {
      assert HasKey(d[1..], e.0);
      var pm := Get(d[1..], e.0).value;
      var j :| 0 <= j < |d[1..]| && d[1..][j] == (e.0, pm);
      assert d[j + 1] == (e.0, pm);
    }
  }

  /** The first trace's bars are found under its name. */
  lemma HeadLookups(d: Data, head: seq<(string, Bar)>)
    requires WellFormed(d) && |d| > 0
    requires var bars := TraceBars(d[0].1);
      head == seq(|bars|, i requires 0 <= i < |bars| => (d[0].0, bars[i]))
    ensures forall e :: e in head ==> Lookup(d, e.0, e.1.policy, e.1.bp) == Some(e.1.ipc)
  {
    var bars := TraceBars(d[0].1);
    assert Get(d, d[0].0) == Some(d[0].1);
    forall e | e in head ensures Lookup(d, e.0, e.1.policy, e.1.bp) == Some(e.1.ipc) {
      var i :| 0 <= i < |head| && head[i] == e;
      assert bars[i] in bars;
    }
  }

  /** `(label, ipc)` pairs as the global top-10 plots collect them. */
  function AllLabelled(d: Data, labelOf: (string, string, string) -> string): (r: seq<(string, real)>)
    requires WellFormed(d)
    ensures forall x :: x in r ==>
      exists t, p, k :: x.0 == labelOf(t, p, k) && Lookup(d, t, p, k) == Some(x.1)
    ensures forall t, p, k :: Lookup(d, t, p, k).Some? ==> (labelOf(t, p, k), Lookup(d, t, p, k).value) in r
  {
    var es := AllEntries(d);
    var r := seq(|es|, i requires 0 <= i < |es| => (labelOf(es[i].0, es[i].1.policy, es[i].1.bp), es[i].1.ipc));
    LabelledComplete(d, labelOf, es, r);
    assert forall x :: x in r ==> exists t, p, k :: x.0 == labelOf(t, p, k) && Lookup(d, t, p, k) == Some(x.1) by {
      forall x | x in r ensures exists t, p, k :: x.0 == labelOf(t, p, k) && Lookup(d, t, p, k) == Some(x.1) {
        var i :| 0 <= i < |r| && r[i] == x;
        assert es[i] in es;
      }
    }
    r
  }

  lemma LabelledComplete(d: Data, labelOf: (string, string, string) -> string, es: seq<(string, Bar)>, r: seq<(string, real)>)
    requires forall t, p, k :: Lookup(d, t, p, k).Some? ==> (t, Bar(p, k, Lookup(d, t, p, k).value)) in es
    requires r == seq(|es|, i requires 0 <= i < |es| => (labelOf(es[i].0, es[i].1.policy, es[i].1.bp), es[i].1.ipc))
    ensures forall t, p, k :: Lookup(d, t, p, k).Some? ==> (labelOf(t, p, k), Lookup(d, t, p, k).value) in r
  {
    forall t, p, k | Lookup(d, t, p, k).Some?
      ensures (labelOf(t, p, k), Lookup(d, t, p, k).value) in r
    {
      var i :| 0 <= i < |es| && es[i] == (t, Bar(p, k, Lookup(d, t, p, k).value));
      assert r[i] == (labelOf(t, p, k), Lookup(d, t, p, k).value);
    }
  }

  function Second(x: (string, real)): real
  {
    x.1
  }

  /** The global top-10 list of `plot_10bestIPC`: the ten highest of all
      labelled entries. */
  function Top10(d: Data, labelOf: (string, string, string) -> string): (r: seq<(string, real)>)
    requires WellFormed(d)
    ensures IsTopK(AllLabelled(d, labelOf), Second, 10, r)
    ensures forall x :: x in r ==> exists t, p, k :: x.0 == labelOf(t, p, k) && Lookup(d, t, p, k) == Some(x.1)
  {
    var all := AllLabelled(d, labelOf);
    var r := TopK(all, Second, 10);
    KeptFrom(r, all);
    r
  }

  lemma KeptFrom<T>(r: seq<T>, s: seq<T>)
    requires multiset(r) <= multiset(s)
    ensures forall x :: x in r ==> x in s
  {
    forall x | x in r ensures x in s {
      assert x in multiset(r);
    }
  }

  /** Every stored entry either makes the top-10 list or the list is full
      of entries at least as high. */
  lemma Top10Highest(d: Data, labelOf: (string, string, string) -> string, t: string, p: string, k: string)
    requires WellFormed(d) && Lookup(d, t, p, k).Some?
    ensures var r := Top10(d, labelOf);
      var v := Lookup(d, t, p, k).value;
      (labelOf(t, p, k), v) in r || (|r| == 10 && forall x :: x in r ==> v <= x.1)
  {
    var all := AllLabelled(d, labelOf);
    var r := Top10(d, labelOf);
    var x0 := (labelOf(t, p, k), Lookup(d, t, p, k).value);
    assert x0 in all;
    var rest :| TopSplit(all, Second, r, rest);
    OutsideTop(all, Second, 10, r, rest, x0);
  }

  /** An entry left out of a top-`k` is keyed no higher than anything kept,
      and then `k` entries were kept. */
  lemma OutsideTop<T(!new)>(s: seq<T>, key: T -> real, k: nat, r: seq<T>, rest: seq<T>, x: T)
    requires IsTopK(s, key, k, r) && TopSplit(s, key, r, rest) && x in s
    ensures x in r || (|r| == k && forall y :: y in r ==> key(x) <= key(y))
  {
    assert x in multiset(s);
    if x !in r {
      assert x !in multiset(r);
      assert x in multiset(rest);
      assert x in rest;
      assert |multiset(s)| == |multiset(r)| + |multiset(rest)|;
      assert |rest| > 0;
    }
  }
}
