/** The Scarab result script (testsScarab/results/graphic.py): reports live
    in `<root>/<branch>/<prefetcher>/<trace folder>/<policy folder>/<file>`,
    the trace and policy names are cleaned from their folder names, the IPC
    is read from the first line matching `IPC:\s*([\d\.]+)`, and the key is
    `"{branch} | {prefetcher}"`. */
module ScarabResults {
  import opened Wrappers
  import opened OrderedDict
  import opened Sorting
  import opened PyStr
  import opened ResultData
  import opened NumberText
  import opened Selection

  /** Python's `s[lo:-drop]` for a non-negative `lo` and a positive `drop`. */
  function SliceDropEnd<T>(s: seq<T>, lo: nat, drop: nat): (r: seq<T>)
    requires drop > 0
    ensures |s| <= lo + drop ==> r == []
    ensures |s| > lo + drop ==> r == s[lo..|s| - drop]
  {
    var stop := if |s| >= drop then |s| - drop else 0;
    if lo >= stop then [] else s[lo..stop]
  }

  /** `".".join(folder.split(".")[1:-3])`. */
  function ParseTraceName(folder: string): (r: string)
    ensures |Split(folder, '.')| <= 4 ==> r == ""
  {
    Join(SliceDropEnd(Split(folder, '.'), 1, 3), '.')
  }

  /** A folder named `<tool>.<trace>.<n1>.<n2>.<ext>` gives back the trace
      name, which may itself contain dots. */
  lemma TraceNameOf(tool: string, ts: seq<string>, n1: string, n2: string, ext: string)
    requires |ts| > 0
    requires '.' !in tool && '.' !in n1 && '.' !in n2 && '.' !in ext
    requires forall i :: 0 <= i < |ts| ==> '.' !in ts[i]
    ensures ParseTraceName(Join([tool] + ts + [n1, n2, ext], '.')) == Join(ts, '.')
  {
    var parts := [tool] + ts + [n1, n2, ext];
    DotFreeParts(tool, ts, n1, n2, ext);
    SplitJoin(parts, '.');
    Middle(tool, ts, [n1, n2, ext]);
  }

  lemma DotFreeParts(tool: string, ts: seq<string>, n1: string, n2: string, ext: string)
    requires '.' !in tool && '.' !in n1 && '.' !in n2 && '.' !in ext
    requires forall i :: 0 <= i < |ts| ==> '.' !in ts[i]
    ensures forall i :: 0 <= i < |ts| + 4 ==> '.' !in ([tool] + ts + [n1, n2, ext])[i]
  {
    var parts := [tool] + ts + [n1, n2, ext];
    forall i | 0 <= i < |parts| ensures '.' !in parts[i] {
      if 1 <= i < |ts| + 1 {
        assert parts[i] == ts[i - 1];
      }
    }
  }

  /** The middle of `[a] + m + z` is `m`. */
  lemma Middle<T>(a: T, m: seq<T>, z: seq<T>)
    ensures |[a] + m + z| == |m| + |z| + 1
    ensures ([a] + m + z)[1..|m| + 1] == m
  {
  }

  /** `parse_policy_name`: drop a `REPL_` prefix, rename the two special
      policies, and otherwise turn every `_` into a space. */
  function ParsePolicyName(folder: string): (r: string)
    ensures '_' !in r
    ensures '_' !in folder && !StartsWith(folder, "REPL_") ==> r == folder
  {
    var name := if StartsWith(folder, "REPL_") then folder[5..] else folder;
    if name == "TRUE_LRU" then "LRU"
    else if name == "ROUND_ROBIN" then "ROUND ROBIN (FIFO)"
    else
      var r := ReplaceAll(name, '_', ' ');
      assert '_' !in r by {
        forall i | 0 <= i < |r| ensures r[i] != '_' {
        }
      }
      assert '_' !in name ==> r == name;
      r
  }

  /** The folders the Scarab runner writes for its three cache policies
      name exactly the policies the script selects for plotting. */
  lemma RunnerPoliciesPlotted()
    ensures ParsePolicyName("REPL_TRUE_LRU") == "LRU"
    ensures ParsePolicyName("REPL_RANDOM") == "RANDOM"
    ensures ParsePolicyName("REPL_ROUND_ROBIN") == "ROUND ROBIN (FIFO)"
  {
    assert StartsWith("REPL_TRUE_LRU", "REPL_") && "REPL_TRUE_LRU"[5..] == "TRUE_LRU";
    assert StartsWith("REPL_RANDOM", "REPL_") && "REPL_RANDOM"[5..] == "RANDOM";
    assert ReplaceAll("RANDOM", '_', ' ') == "RANDOM";
    assert StartsWith("REPL_ROUND_ROBIN", "REPL_") && "REPL_ROUND_ROBIN"[5..] == "ROUND_ROBIN";
  }

  /** The IPC line label; `\s*` may separate it from the figure. */
  const IpcLabel: string := "IPC:"

  /** `find_ipc_in_file`'s search: the figure of the first line that
      matches, or `None`. */
  function FindIpc(lines: seq<string>): (r: Option<string>)
    ensures r.None? <==> forall i :: 0 <= i < |lines| ==> SearchNumber(lines[i], IpcLabel, AnySpace).None?
    ensures r.Some? ==> exists i :: 0 <= i < |lines| && IpcAt(lines, i, r)
  {
    if |lines| == 0 then None
    else
      match SearchNumber(lines[0], IpcLabel, AnySpace)
      case Some(num) =>
        assert IpcAt(lines, 0, Some(num));
        Some(num)
      case None =>
        var r := FindIpc(lines[1..]);
        FirstIpcTail(lines, r);
        r
  }

  predicate IpcAt(lines: seq<string>, i: nat, r: Option<string>)
    requires i < |lines|
  {
    SearchNumber(lines[i], IpcLabel, AnySpace) == r && forall j :: 0 <= j < i ==> SearchNumber(lines[j], IpcLabel, AnySpace).None?
  }

  /** A first match in `lines[1..]` is a first match in `lines` when the
      first line has none. */
  lemma FirstIpcTail(lines: seq<string>, r: Option<string>)
    requires |lines| > 0 && SearchNumber(lines[0], IpcLabel, AnySpace).None?
    requires r.None? <==> forall i :: 0 <= i < |lines[1..]| ==> SearchNumber(lines[1..][i], IpcLabel, AnySpace).None?
    requires r.Some? ==> exists i :: 0 <= i < |lines[1..]| && IpcAt(lines[1..], i, r)
    ensures r.None? <==> forall i :: 0 <= i < |lines| ==> SearchNumber(lines[i], IpcLabel, AnySpace).None?
    ensures r.Some? ==> exists i :: 0 <= i < |lines| && IpcAt(lines, i, r)
  {
    if r.Some? {
      var i :| 0 <= i < |lines[1..]| && IpcAt(lines[1..], i, r);
      assert lines[i + 1] == lines[1..][i];
      forall j | 0 <= j < i + 1 ensures SearchNumber(lines[j], IpcLabel, AnySpace).None? {
        if j > 0 {
          assert lines[j] == lines[1..][j - 1];
        }
      }
      assert IpcAt(lines, i + 1, r);
    } else {
      forall i | 0 <= i < |lines| ensures SearchNumber(lines[i], IpcLabel, AnySpace).None? {
        if i > 0 {
          assert lines[i] == lines[1..][i - 1];
        }
      }
    }
  }

  /** A file seen by the walk, with the folders above it. */
  datatype RunFile = RunFile(branch: string, prefetcher: string, traceDir: string, policyDir: string, lines: seq<string>)

  function ScarabKey(f: RunFile): string
  {
    f.branch + " | " + f.prefetcher
  }

  /** What the walk does with one file. */
  function ParseRun(f: RunFile): (r: Outcome)
    ensures FindIpc(f.lines).None? ==> r.Skip?
    ensures r.Entry? ==>
      r.trace == ParseTraceName(f.traceDir) && r.policy == ParsePolicyName(f.policyDir) && r.key == ScarabKey(f)
  {
    match FindIpc(f.lines)
    case None => Skip
    case Some(num) =>
      match DecimalFloat(num)
      case None => Crash
      case Some(d) => Entry(ParseTraceName(f.traceDir), ParsePolicyName(f.policyDir), ScarabKey(f), Value(d))
  }

  /** The whole walk, in listing order. */
  function ParseTree(files: seq<RunFile>): Result<Data, string>
  {
    Collect(seq(|files|, i requires 0 <= i < |files| => ParseRun(files[i])))
  }

  /** The worst/median/best figure: traces in sorted order, selected
      policies in sorted order, each policy with at least three entries
      contributing three bars; a trace with no such policy is skipped.
      Each plotted trace is a key of the data, and every trace where a
      selected policy qualifies is plotted. */
  function Top3ByPolicy(d: Data, selected: seq<string>): (r: seq<(string, seq<Bar>)>)
    ensures forall i :: 0 <= i < |r| ==> HasKey(d, r[i].0) && |r[i].1| % 3 == 0 && |r[i].1| > 0
    ensures forall i :: 0 <= i < |r| ==> forall b :: b in r[i].1 ==> b.policy in selected
    ensures forall i :: 0 <= i < |r| ==> r[i].1 == TraceWorstMedianBest(Get(d, r[i].0).value, SortStrings(selected))
    ensures forall t :: HasKey(d, t) && (exists p :: p in selected && Qualifies(Get(d, t).value, p)) ==>
      exists i :: 0 <= i < |r| && r[i].0 == t
  {
    var policies := SortStrings(selected);
    var traces := SortStrings(Keys(d));
    var r := PerTrace(d, traces, pm => TraceWorstMedianBest(pm, policies));
    assert forall b :: b in policies ==> b in selected by {
      forall b | b in policies ensures b in selected {
        assert b in multiset(policies);
      }
    }
    TracesAreKeys(d, traces);
    Top3Covers(d, selected, r);
    r
  }

  /** The sorted trace names are keys of the data, and every key is one. */
  lemma TracesAreKeys(d: Data, traces: seq<string>)
    requires multiset(traces) == multiset(Keys(d))
    ensures forall t :: t in traces <==> HasKey(d, t)
  {
    forall t ensures t in traces <==> HasKey(d, t) {
      if t in traces {
        assert t in multiset(Keys(d));
        var i :| 0 <= i < |Keys(d)| && Keys(d)[i] == t;
        assert d[i].0 == t;
      }
      if HasKey(d, t) {
        var i :| 0 <= i < |d| && d[i].0 == t;
        assert Keys(d)[i] == t;
        assert t in multiset(traces);
      }
    }
  }

  /** A trace where some selected policy qualifies has a non-empty figure,
      so the per-trace driver plots it. */
  lemma Top3Covers(d: Data, selected: seq<string>, r: seq<(string, seq<Bar>)>)
    requires r == PerTrace(d, SortStrings(Keys(d)), pm => TraceWorstMedianBest(pm, SortStrings(selected)))
    ensures forall t :: HasKey(d, t) && (exists p :: p in selected && Qualifies(Get(d, t).value, p)) ==>
      exists i :: 0 <= i < |r| && r[i].0 == t
  {
    var policies := SortStrings(selected);
    var traces := SortStrings(Keys(d));
    TracesAreKeys(d, traces);
    forall t | HasKey(d, t) && (exists p :: p in selected && Qualifies(Get(d, t).value, p))
      ensures exists i :: 0 <= i < |r| && r[i].0 == t
    {
      var p :| p in selected && Qualifies(Get(d, t).value, p);
      assert p in multiset(policies);
      assert p in policies;
      WorstMedianBestNonEmpty(Get(d, t).value, policies);
      assert t in traces;
    }
  }

  /** In each plotted trace, every selected policy shows exactly its own
      worst, median and best (or nothing when it has fewer than three
      entries), and no other policy shows anything. */
  lemma Top3ByPolicyShare(d: Data, selected: seq<string>, i: nat, p: string)
    requires DistinctPolicies(selected) && i < |Top3ByPolicy(d, selected)|
    ensures var r := Top3ByPolicy(d, selected);
      Share(r[i].1, p) == if p in selected then PolicyWorstMedianBest(Get(d, r[i].0).value, p) else []
  {
    var policies := SortStrings(selected);
    PermutationDistinct(selected, policies);
    WorstMedianBestShare(Get(d, Top3ByPolicy(d, selected)[i].0).value, policies, p);
    assert p in policies <==> p in selected by {
      assert p in policies <==> p in multiset(policies);
    }
  }

  /** The policy has at least three entries in the trace. */
  predicate Qualifies(pm: PolicyMap, p: string)
  {
    HasKey(pm, p) && |Get(pm, p).value| >= 3
  }

  /** A trace is plotted exactly when one of the selected policies has at
      least three entries for it. */
  lemma {:induction false} WorstMedianBestNonEmpty(pm: PolicyMap, policies: seq<string>)
    ensures TraceWorstMedianBest(pm, policies) != [] <==> exists p :: p in policies && Qualifies(pm, p)
  {
    if |policies| > 0 {
      var tail := policies[1..];
      WorstMedianBestNonEmpty(pm, tail);
      var group := PolicyWorstMedianBest(pm, policies[0]);
      assert TraceWorstMedianBest(pm, policies) == group + TraceWorstMedianBest(pm, tail);
      assert group != [] <==> Qualifies(pm, policies[0]);
      assert forall p :: p in policies <==> p == policies[0] || p in tail;
    }
  }
}
