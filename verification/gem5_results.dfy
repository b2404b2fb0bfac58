/** The gem5 result script (testsGem5/results/graphic.py): reports live in
    `<root>/<branch>/<prefetcher>/<policy>/<name>.txt` for one fixed trace,
    the IPC is the figure after `system.cpu.ipc` and whitespace, and the
    per-trace plot merges all policies into one dictionary keyed by
    `"{branch}_{prefetcher}"` alone. */
module Gem5Results {
  import opened Wrappers
  import opened OrderedDict
  import opened Sorting
  import opened PyStr
  import opened ResultData
  import opened NumberText
  import opened Selection

  /** The statistic line gem5 writes, `system.cpu.ipc <spaces> <figure>`. */
  const IpcLabel: string := "system.cpu.ipc"

  /** A text file found three directory levels below the sample folder. */
  datatype Report = Report(branch: string, prefetcher: string, policy: string, name: string, content: string)

  function Gem5Key(f: Report): string
  {
    f.branch + "_" + f.prefetcher
  }

  /** What the walk does with one file. */
  function ParseReport(trace: string, f: Report): (r: Outcome)
    ensures !EndsWith(f.name, ".txt") ==> r.Skip?
    ensures SearchNumber(f.content, IpcLabel, SomeSpace).None? ==> r.Skip?
    ensures r.Entry? ==> r.trace == trace && r.policy == f.policy && r.key == Gem5Key(f)
  {
    if !EndsWith(f.name, ".txt") then Skip
    else
      match SearchNumber(f.content, IpcLabel, SomeSpace)
      case None => Skip
      case Some(num) =>
        match DecimalFloat(num)
        case None => Crash
        case Some(d) => Entry(trace, f.policy, Gem5Key(f), Value(d))
  }

  /** A report stating `system.cpu.ipc` then whitespace then `w.frac` is
      stored under its directories' policy and key with that value. */
  lemma ReportEntry(trace: string, f: Report, sp: string, w: nat, frac: string, post: string)
    requires EndsWith(f.name, ".txt")
    requires |sp| > 0 && forall i :: 0 <= i < |sp| ==> IsSpace(sp[i])
    requires IsDigitStr(frac) && (|post| == 0 || !IsNumChar(post[0]))
    requires f.content == IpcLabel + sp + (NatToString(w) + "." + frac) + post
    ensures ParseReport(trace, f) == Entry(trace, f.policy, Gem5Key(f), Value(Decimal(w, DigitsValue(frac), |frac|)))
  {
    FloatOfDecimal(w, frac);
    SearchFindsFirst(IpcLabel, SomeSpace, sp, NatToString(w) + "." + frac, post);
  }

  /** The whole walk, in listing order. */
  function ParseTree(trace: string, files: seq<Report>): Result<Data, string>
  {
    Collect(seq(|files|, i requires 0 <= i < |files| => ParseReport(trace, files[i])))
  }

  /** `aggregated_data[bp] = ipc` for every entry of one policy. */
  function PutAll(acc: Dict<string, real>, bm: BpMap): (r: Dict<string, real>)
    ensures DistinctKeys(acc) ==> DistinctKeys(r)
    decreases |bm|
  {
    if |bm| == 0 then acc
    else PutAll(Put(acc, bm[0].0, bm[0].1), bm[1..])
  }

  /** `plot_eachtrace`'s dictionary for one trace: every policy's entries
      merged under their branch/prefetcher key alone. */
  function Aggregate(pm: PolicyMap): (r: Dict<string, real>)
    ensures DistinctKeys(r)
    decreases |pm|
  {
    if |pm| == 0 then []
    else PutAll(Aggregate(pm[..|pm| - 1]), pm[|pm| - 1].1)
  }

  /** Reference reading: the value of `key` in the last policy (in
      dictionary order) that has it. */
  function LastPolicyValue(pm: PolicyMap, key: string): Option<real>
    decreases |pm|
  {
    if |pm| == 0 then None
    else
      match Get(pm[|pm| - 1].1, key)
      case Some(v) => Some(v)
      case None => LastPolicyValue(pm[..|pm| - 1], key)
  }

  lemma {:induction false} PutAllGet(acc: Dict<string, real>, bm: BpMap, key: string)
    requires DistinctKeys(acc) && DistinctKeys(bm)
    ensures Get(PutAll(acc, bm), key) == if HasKey(bm, key) then Get(bm, key) else Get(acc, key)
    decreases |bm|
  {
    if |bm| > 0 {
      var acc' := Put(acc, bm[0].0, bm[0].1);
      var tail := bm[1..];
      assert DistinctKeys(tail);
      PutAllGet(acc', tail, key);
      if key == bm[0].0 {
        assert !HasKey(tail, key) by {
          forall j | 0 <= j < |tail| ensures tail[j].0 != key {
            assert tail[j] == bm[j + 1];
          }
        }
        assert Get(bm, key) == Some(bm[0].1);
      } else {
        assert HasKey(bm, key) <==> HasKey(tail, key) by {
          if HasKey(bm, key) {
            var j :| 0 <= j < |bm| && bm[j].0 == key;
            assert tail[j - 1].0 == key;
          }
          if HasKey(tail, key) {
            var j :| 0 <= j < |tail| && tail[j].0 == key;
            assert bm[j + 1].0 == key;
          }
        }
        if HasKey(tail, key) {
          var j :| 0 <= j < |tail| && tail[j].0 == key;
          assert bm[j + 1] == tail[j];
          assert Get(bm, key) == Some(tail[j].1);
        }
      }
    }
  }

  /** For a key several policies share, the merged dictionary keeps the
      value of the last policy only. */
  lemma {:induction false} AggregateKeepsLast(pm: PolicyMap, key: string)
    requires WellFormedPolicies(pm)
    ensures Get(Aggregate(pm), key) == LastPolicyValue(pm, key)
    decreases |pm|
  {
    if |pm| > 0 {
      var init := pm[..|pm| - 1];
      assert WellFormedPolicies(init) by {
        assert forall i :: 0 <= i < |init| ==> init[i] == pm[i];
      }
      AggregateKeepsLast(init, key);
      PutAllGet(Aggregate(init), pm[|pm| - 1].1, key);
    }
  }

  function PairValue(x: (string, real)): real
  {
    x.1
  }

  /** The bars of `plot_eachtrace` for one trace, ascending by IPC. */
  function EachTraceBars(pm: PolicyMap): (r: seq<(string, real)>)
    ensures SortedBy(r, PairValue)
    ensures multiset(r) == multiset(Aggregate(pm))
  {
    SortBy(Aggregate(pm), PairValue)
  }

  /** The label of a global top-10 bar: `"{trace} | {bp}"`, without the policy. */
  function Gem5Label(t: string, p: string, k: string): string
  {
    t + " | " + k
  }

  /** The global top-10 list: the ten highest entries, labelled without the policy. */
  function Gem5Top10(d: Data): (r: seq<(string, real)>)
    requires WellFormed(d)
    ensures IsTopK(AllLabelled(d, Gem5Label), Second, 10, r)
    ensures forall x :: x in r ==> exists t, p, k :: x.0 == t + " | " + k && Lookup(d, t, p, k) == Some(x.1)
  {
    Top10(d, Gem5Label)
  }

  /** Every stored entry either makes the gem5 top-10 list or the list is
      full of entries at least as high. */
  lemma Gem5Top10Highest(d: Data, t: string, p: string, k: string)
    requires WellFormed(d) && Lookup(d, t, p, k).Some?
    ensures var v := Lookup(d, t, p, k).value;
      (t + " | " + k, v) in Gem5Top10(d) || (|Gem5Top10(d)| == 10 && forall x :: x in Gem5Top10(d) ==> v <= x.1)
  {
    Top10Highest(d, Gem5Label, t, p, k);
  }
}
