/** `verify_files` (testsOldChampSim/verify.py): the completed-run files
    expected in `sim_outputs/Sample1` .. `Sample4` for the trace
    `400.perlbench-{size}` under every policy, branch predictor and
    prefetcher, reporting the paths of those that are missing.  A sample
    folder that does not exist is skipped. */
module VerifyOutputs {
  import opened Wrappers
  import opened PyStr
  import opened RunNames
  import opened Sweep

  const OutputDir: string := "sim_outputs"

  function SampleDir(i: nat): string
  {
    PathJoin(OutputDir, "Sample" + NatToString(i))
  }

  /** The run the file of `(size, policy, branch, prefetch)` records. */
  function ExpectedKey(size: string, policy: string, branch: string, prefetch: string): RunKey
  {
    RunKey("400.perlbench-" + size, policy, branch, prefetch)
  }

  /** The four inner loops, in order size, policy, branch, prefetch. */
  function Combos(sizes: seq<string>, policies: seq<string>, branchs: seq<string>, prefetchs: seq<string>): seq<RunKey>
  {
    var loops := Product(Product(Product(sizes, policies), branchs), prefetchs);
    seq(|loops|, i requires 0 <= i < |loops| => ExpectedKey(loops[i].0.0.0, loops[i].0.0.1, loops[i].0.1, loops[i].1))
  }

  /** One expected run per size, policy, branch predictor and prefetcher. */
  lemma CombosCount(sizes: seq<string>, policies: seq<string>, branchs: seq<string>, prefetchs: seq<string>)
    ensures |Combos(sizes, policies, branchs, prefetchs)| == |sizes| * |policies| * |branchs| * |prefetchs|
  {
    Product3Length(sizes, policies, branchs, prefetchs);
  }

  /** The missing files of one existing sample folder, in loop order;
      `j` counts from 0 for `Sample1`. */
  function MissingIn(j: nat, listing: set<string>, combos: seq<RunKey>): (r: seq<string>)
    ensures |r| <= |combos|
    ensures forall x :: x in r <==> exists k :: k in combos && DoneName(k) !in listing && x == PathJoin(SampleDir(j + 1), DoneName(k))
    decreases |combos|
  {
    if |combos| == 0 then []
    else
      var rest := MissingIn(j, listing, combos[1..]);
      assert forall k :: k in combos <==> k == combos[0] || k in combos[1..];
      var name := DoneName(combos[0]);
      if name in listing then rest else [PathJoin(SampleDir(j + 1), name)] + rest
  }

  /** What one combination contributes to its folder's list: its path
      when the file is absent, nothing otherwise. */
  function MissingOne(j: nat, listing: set<string>, k: RunKey): seq<string>
  {
    if DoneName(k) in listing then [] else [PathJoin(SampleDir(j + 1), DoneName(k))]
  }

  /** `MissingIn` keeps the loop's order: the list for a run of
      combinations followed by another is the first list followed by the
      second. */
  lemma {:induction false} MissingInAppend(j: nat, listing: set<string>, a: seq<RunKey>, b: seq<RunKey>)
    ensures MissingIn(j, listing, a + b) == MissingIn(j, listing, a) + MissingIn(j, listing, b)
    decreases |a|
  {
    if |a| > 0 {
      assert (a + b)[1..] == a[1..] + b;
      MissingInAppend(j, listing, a[1..], b);
    } else {
      assert a + b == b;
    }
  }

  /** Hence each combination, in loop order, appends its own path to the
      list when its file is absent, and nothing when it is present. */
  lemma MissingInStep(j: nat, listing: set<string>, combos: seq<RunKey>, n: nat)
    requires n < |combos|
    ensures MissingIn(j, listing, combos[..n + 1]) == MissingIn(j, listing, combos[..n]) + MissingOne(j, listing, combos[n])
  {
    assert combos[..n + 1] == combos[..n] + [combos[n]];
    MissingInAppend(j, listing, combos[..n], [combos[n]]);
    assert [combos[n]][1..] == [];
  }

  /** The missing files of folder `Sample{j + 1}`: none when it does not
      exist. */
  function SampleMissing(dirs: seq<Option<set<string>>>, j: nat, combos: seq<RunKey>): (r: seq<string>)
    requires |dirs| == 4 && j < 4
    ensures |r| <= |combos|
    ensures dirs[j].None? ==> r == []
  {
    match dirs[j] case None => [] case Some(listing) => MissingIn(j, listing, combos)
  }

  /** `verify_files`: `dirs[j]` lists `Sample{j + 1}` when it exists. */
  function VerifyFiles(dirs: seq<Option<set<string>>>, policies: seq<string>, prefetchs: seq<string>,
                       branchs: seq<string>, sizes: seq<string>): (r: seq<string>)
    requires |dirs| == 4
    ensures |r| <= 4 * |Combos(sizes, policies, branchs, prefetchs)|
    ensures forall x :: x in r <==>
      exists j, k :: 0 <= j < 4 && dirs[j].Some? && k in Combos(sizes, policies, branchs, prefetchs) && DoneName(k) !in dirs[j].value && x == PathJoin(SampleDir(j + 1), DoneName(k))
    ensures var c := Combos(sizes, policies, branchs, prefetchs);
      r == SampleMissing(dirs, 0, c) + SampleMissing(dirs, 1, c) + SampleMissing(dirs, 2, c) + SampleMissing(dirs, 3, c)
  {
    var c := Combos(sizes, policies, branchs, prefetchs);
    MissingOrder(dirs, c);
    Missing(dirs, 0, c)
  }

  /** The samples from `Sample{i + 1}` to `Sample4`, in order. */
  function Missing(dirs: seq<Option<set<string>>>, i: nat, combos: seq<RunKey>): (r: seq<string>)
    requires |dirs| == 4 && i <= 4
    ensures |r| <= (4 - i) * |combos|
    ensures forall x :: x in r <==> exists j :: i <= j < 4 && dirs[j].Some? && x in MissingIn(j, dirs[j].value, combos)
    decreases 4 - i
  {
    if i == 4 then []
    else SampleMissing(dirs, i, combos) + Missing(dirs, i + 1, combos)
  }

  /** The folders are checked in ascending order, `Sample1` first. */
  lemma MissingOrder(dirs: seq<Option<set<string>>>, combos: seq<RunKey>)
    requires |dirs| == 4
    ensures Missing(dirs, 0, combos) ==
      SampleMissing(dirs, 0, combos) + SampleMissing(dirs, 1, combos) + SampleMissing(dirs, 2, combos) + SampleMissing(dirs, 3, combos)
  {
    var s0, s1, s2, s3 := SampleMissing(dirs, 0, combos), SampleMissing(dirs, 1, combos), SampleMissing(dirs, 2, combos), SampleMissing(dirs, 3, combos);
    MissingUnfold(dirs, 0, combos);
    MissingUnfold(dirs, 1, combos);
    MissingUnfold(dirs, 2, combos);
    MissingUnfold(dirs, 3, combos);
    assert s0 + (s1 + (s2 + (s3 + []))) == s0 + s1 + s2 + s3;
  }

  lemma MissingUnfold(dirs: seq<Option<set<string>>>, i: nat, combos: seq<RunKey>)
    requires |dirs| == 4 && i < 4
    ensures Missing(dirs, i, combos) == SampleMissing(dirs, i, combos) + Missing(dirs, i + 1, combos)
    ensures i == 3 ==> Missing(dirs, i + 1, combos) == []
  {
  }

  /** Combination `(z, p, b, f)` is checked at position
      `((z * |policies| + p) * |branchs| + b) * |prefetchs| + f`: sizes
      outermost, prefetchers innermost. */
  lemma CombosAt(sizes: seq<string>, policies: seq<string>, branchs: seq<string>, prefetchs: seq<string>, z: nat, p: nat, b: nat, f: nat)
    requires z < |sizes| && p < |policies| && b < |branchs| && f < |prefetchs|
    ensures var i := ((z * |policies| + p) * |branchs| + b) * |prefetchs| + f;
      i < |Combos(sizes, policies, branchs, prefetchs)| &&
      Combos(sizes, policies, branchs, prefetchs)[i] == ExpectedKey(sizes[z], policies[p], branchs[b], prefetchs[f])
  {
    var l1 := Product(sizes, policies);
    var l2 := Product(l1, branchs);
    var l3 := Product(l2, prefetchs);
    var i1 := z * |policies| + p;
    var i2 := i1 * |branchs| + b;
    var i3 := i2 * |prefetchs| + f;
    ProductAt(sizes, policies, z, p);
    assert l1[i1] == (sizes[z], policies[p]);
    ProductAt(l1, branchs, i1, b);
    assert l2[i2] == (l1[i1], branchs[b]);
    ProductAt(l2, prefetchs, i2, f);
    assert i3 < |l3| && l3[i3] == (l2[i2], prefetchs[f]);
    var combos := Combos(sizes, policies, branchs, prefetchs);
    assert |combos| == |l3|;
    assert combos[i3] == ExpectedKey(l3[i3].0.0.0, l3[i3].0.0.1, l3[i3].0.1, l3[i3].1);
    assert combos[i3] == ExpectedKey(sizes[z], policies[p], branchs[b], prefetchs[f]);
  }

  /** "All files for all combinations are present!" is printed exactly when
      every existing sample folder holds every expected file. */
  lemma AllPresent(dirs: seq<Option<set<string>>>, policies: seq<string>, prefetchs: seq<string>,
                   branchs: seq<string>, sizes: seq<string>)
    requires |dirs| == 4
    ensures VerifyFiles(dirs, policies, prefetchs, branchs, sizes) == [] <==>
      forall j, k :: 0 <= j < 4 && dirs[j].Some? && k in Combos(sizes, policies, branchs, prefetchs) ==> DoneName(k) in dirs[j].value
  {
    var r := VerifyFiles(dirs, policies, prefetchs, branchs, sizes);
    var combos := Combos(sizes, policies, branchs, prefetchs);
    if r != [] {
      assert r[0] in r;
    }
    forall j, k | 0 <= j < 4 && dirs[j].Some? && k in combos && DoneName(k) !in dirs[j].value
      ensures r != []
    {
      assert PathJoin(SampleDir(j + 1), DoneName(k)) in r;
    }
  }
}
