/** The newer ChampSim runner (testsChampSim/champsim.py): one run per
    (policy, trace file) for the four policies ChampSim ships, an output
    log named after the trace and the policy, and the command-line checks. */
module NewChampSimRunner {
  import opened Wrappers
  import opened PyStr
  import opened Sweep
  import opened RunNames
  import opened ChampSimResults
  import opened JsonConfig
  import opened OldChampSimConfig
  import opened WorkerPool
  import opened Arith

  /** The policies the sweep runs, in order. */
  const Policies: seq<string> := ["lru", "drrip", "ship", "srrip"]

  const WarmupFlag: string := "--warmup_instructions"
  const SimFlag: string := "--simulation_instructions"

  /** `modify_replacement_policy`: the configuration file reloaded with
      `config['LLC']['replacement'] = policy`; it raises exactly when the
      file has no `LLC` object, and nothing but that entry changes. */
  function ModifyReplacementPolicy(cfg: Json, policy: string): (r: Option<Json>)
    ensures r.Some? <==> IsSection(cfg, "LLC")
    ensures r.Some? ==> GetPath(r.value, ReplacementPath) == Some(JStr(policy))
    ensures r.Some? ==> forall q :: Diverge(ReplacementPath, q) ==> GetPath(r.value, q) == GetPath(cfg, q)
  {
    SetReplacement(cfg, Some(policy))
  }

  /** The trace name: the file name without its last extension. */
  function TraceName(traceFile: string): string
  {
    SplitExt(traceFile).0
  }

  /** The log of one run: `<output_dir>/{trace_name}_{policy}_output.txt`. */
  function OutputFile(outputDir: string, traceFile: string, policy: string): string
  {
    PathJoin(outputDir, TraceName(traceFile) + "_" + policy + "_output.txt")
  }

  /** A trace file `X.ext` logs to `X_{policy}_output.txt`. */
  lemma OutputNameOf(outputDir: string, x: string, ext: string, policy: string)
    requires '/' !in x && '/' !in ext && '.' !in ext
    requires exists k :: 0 <= k < |x| && x[k] != '.'
    ensures OutputFile(outputDir, x + "." + ext, policy) == PathJoin(outputDir, x + "_" + policy + "_output.txt")
  {
    SplitExtOf(x, ext);
  }

  /** The logs this runner writes carry none of the run-key markers, so
      the newer result script skips every one of them whenever the trace
      file name has no `:`. */
  lemma LogsNotParsed(traceFile: string, policy: string)
    requires ':' !in traceFile && policy in Policies
    ensures ParseName(TraceName(traceFile) + "_" + policy + "_output.txt", NewEnd) == None
  {
    var name := TraceName(traceFile);
    assert ':' !in name by {
      var parts := SplitExt(traceFile);
      forall i | 0 <= i < |name| ensures name[i] != ':' {
        assert name[i] == (parts.0 + parts.1)[i];
      }
    }
    RunnerNameSkipped(name, policy);
  }

  /** Python truthiness of an optional count: set and non-zero. */
  predicate Truthy(n: Option<int>)
  {
    n.Some? && n.value != 0
  }

  function Flag(flag: string, n: Option<int>): seq<string>
  {
    if Truthy(n) then [flag, IntToString(n.value)] else []
  }

  /** `bin/champsim`, the optional counts, then the trace path. */
  function Command(champSimPath: string, warmup: Option<int>, sim: Option<int>, tracePath: string): (r: seq<string>)
    ensures |r| >= 2
    ensures r[0] == PathJoin(champSimPath, "bin/champsim") && r[|r| - 1] == tracePath
    ensures r[1..|r| - 1] == Flag(WarmupFlag, warmup) + Flag(SimFlag, sim)
  {
    var r := [PathJoin(champSimPath, "bin/champsim")] + Flag(WarmupFlag, warmup) + Flag(SimFlag, sim) + [tracePath];
    assert r[1..|r| - 1] == Flag(WarmupFlag, warmup) + Flag(SimFlag, sim);
    r
  }

  /** A flag's part of the command: both entries when the count is truthy,
      with the count reading back through `int()`, and nothing otherwise. */
  lemma FlagPart(flag: string, n: Option<int>)
    ensures Truthy(n) ==> |Flag(flag, n)| == 2 && Flag(flag, n)[0] == flag && PyInt(Flag(flag, n)[1]) == Some(n.value)
    ensures !Truthy(n) ==> Flag(flag, n) == []
  {
    if Truthy(n) {
      ParseRenderedInt(n.value);
    }
  }

  /** Where the entries of `[head] + f1 + f2 + [tail]` sit. */
  lemma Layout<T>(head: T, f1: seq<T>, f2: seq<T>, tail: T)
    ensures var r := [head] + f1 + f2 + [tail];
      |r| == 2 + |f1| + |f2| && r[0] == head && r[|r| - 1] == tail
    ensures var r := [head] + f1 + f2 + [tail];
      |f1| == 2 ==> r[1] == f1[0] && r[2] == f1[1]
    ensures var r := [head] + f1 + f2 + [tail];
      |f2| == 2 ==> r[|r| - 3] == f2[0] && r[|r| - 2] == f2[1]
  {
  }

  /** A count is passed exactly when it is set and non-zero, right after its
      flag, and `int()` reads it back as given. */
  lemma CommandFlags(champSimPath: string, warmup: Option<int>, sim: Option<int>, tracePath: string)
    ensures var r := Command(champSimPath, warmup, sim, tracePath);
      |r| == 2 + (if Truthy(warmup) then 2 else 0) + (if Truthy(sim) then 2 else 0)
    ensures var r := Command(champSimPath, warmup, sim, tracePath);
      Truthy(warmup) ==> r[1] == WarmupFlag && PyInt(r[2]) == Some(warmup.value)
    ensures var r := Command(champSimPath, warmup, sim, tracePath);
      Truthy(sim) ==> r[|r| - 3] == SimFlag && PyInt(r[|r| - 2]) == Some(sim.value)
    ensures var r := Command(champSimPath, warmup, sim, tracePath);
      !Truthy(warmup) && !Truthy(sim) ==> r == [PathJoin(champSimPath, "bin/champsim"), tracePath]
  {
    var head := PathJoin(champSimPath, "bin/champsim");
    var f1, f2 := Flag(WarmupFlag, warmup), Flag(SimFlag, sim);
    assert Command(champSimPath, warmup, sim, tracePath) == [head] + f1 + f2 + [tracePath];
    FlagPart(WarmupFlag, warmup);
    FlagPart(SimFlag, sim);
    Layout(head, f1, f2, tracePath);
  }

  /** `is_number`: `int()` accepts the text. */
  predicate IsNumber(v: string)
  {
    PyInt(v).Some?
  }

  /** `int(argv[i])` when `argv[i]` is present and a number, else `None`. */
  function OptionalCount(argv: seq<string>, i: nat): (r: Option<int>)
    ensures r.Some? <==> i < |argv| && IsNumber(argv[i])
    ensures r.Some? ==> PyInt(argv[i]) == r
  {
    if i < |argv| && IsNumber(argv[i]) then PyInt(argv[i]) else None
  }

  datatype Args = Args(threads: int, champSimPath: string, traceDir: string, configFile: string, outputDir: string,
                       warmup: Option<int>, sim: Option<int>)

  /** `main`'s checks: fewer than six entries or a thread count that is not
      a positive integer end the program. */
  function ParseArgs(argv: seq<string>): (r: Result<Args, string>)
    ensures |argv| < 6 ==> r.Failure?
    ensures |argv| >= 6 ==> (r.Success? <==> PyInt(argv[1]).Some? && PyInt(argv[1]).value >= 1)
    ensures r.Success? ==> r.value.threads >= 1 && PyInt(argv[1]) == Some(r.value.threads)
    ensures r.Success? ==> r.value.warmup == OptionalCount(argv, 6) && r.value.sim == OptionalCount(argv, 7)
  {
    if |argv| < 6 then Failure("usage")
    else
      match PyInt(argv[1])
      case None => Failure("Please provide a valid number of threads.")
      case Some(t) =>
        if t < 1 then Failure("Please provide a valid number of threads.")
        else Success(Args(t, argv[2], argv[3], argv[4], argv[5], OptionalCount(argv, 6), OptionalCount(argv, 7)))
  }

  /** `exec_all_policies`' submissions `(trace file, policy)`: for each
      policy in turn, every listed file, whatever its extension. */
  function Jobs(listing: seq<string>): (r: seq<(string, string)>)
    ensures |r| == 4 * |listing|
  {
    var loops := Product(Policies, listing);
    seq(|loops|, i requires 0 <= i < |loops| => (loops[i].1, loops[i].0))
  }

  /** Every listed file is run once under each of the four policies, and
      nothing else is run. */
  lemma JobsExact(listing: seq<string>, file: string, policy: string)
    requires forall i, j :: 0 <= i < j < |listing| ==> listing[i] != listing[j]
    ensures (file, policy) in Jobs(listing) <==> file in listing && policy in Policies
    ensures file in listing && policy in Policies ==> |set i | 0 <= i < |Jobs(listing)| && Jobs(listing)[i] == (file, policy)| == 1
  {
    var r := Jobs(listing);
    if (file, policy) in r {
      var k :| 0 <= k < |r| && r[k] == (file, policy);
      JobListed(listing, k);
    }
    if file in listing && policy in Policies {
      var j :| 0 <= j < |listing| && listing[j] == file;
      var p :| 0 <= p < 4 && Policies[p] == policy;
      JobAt(listing, p, j);
      var at := p * |listing| + j;
      forall k | 0 <= k < |r| && r[k] == (file, policy) ensures k == at {
        JobOnce(listing, p, j, k);
      }
      assert (set i | 0 <= i < |r| && r[i] == (file, policy)) == {at};
    }
  }

  /** Every submission pairs a listed file with one of the four policies. */
  lemma JobListed(listing: seq<string>, k: nat)
    requires k < |Jobs(listing)|
    ensures Jobs(listing)[k].0 in listing && Jobs(listing)[k].1 in Policies
  {
    ProductMember(Policies, listing, k);
  }

  /** The policy loop is outermost: policy `p` runs file `j` at position
      `p * |listing| + j`. */
  lemma JobAt(listing: seq<string>, p: nat, j: nat)
    requires p < 4 && j < |listing|
    ensures p * |listing| + j < |Jobs(listing)| && Jobs(listing)[p * |listing| + j] == (listing[j], Policies[p])
  {
    ProductAt(Policies, listing, p, j);
  }

  /** With distinct file names, that position is the only one. */
  lemma JobOnce(listing: seq<string>, p: nat, j: nat, k: nat)
    requires forall i, j :: 0 <= i < j < |listing| ==> listing[i] != listing[j]
    requires p < 4 && j < |listing| && k < |Jobs(listing)| && Jobs(listing)[k] == (listing[j], Policies[p])
    ensures k == p * |listing| + j
  {
    ProductMember(Policies, listing, k);
    var p', j' :| 0 <= p' < 4 && 0 <= j' < |listing| && k == p' * |listing| + j' && Product(Policies, listing)[k] == (Policies[p'], listing[j']);
    DistinctPolicies(p, p');
    assert j' == j;
  }

  /** The policy-loop iteration that queued each submission: the loop
      rebuilds `bin/champsim` for policy `p`, then queues submissions
      `p * |listing| ..` of `Jobs`. */
  function Owners(listing: seq<string>): (r: seq<nat>)
    ensures |r| == |Jobs(listing)|
    ensures forall k :: 0 <= k < |r| ==> r[k] < |Policies|
  {
    seq(4 * |listing|, k requires 0 <= k < 4 * |listing| => OwnerOf(k, |listing|))
  }

  function OwnerOf(k: nat, n: nat): (p: nat)
    requires k < 4 * n
    ensures p < 4 && p == k / n
  {
    k / n
  }

  lemma OwnerAt(listing: seq<string>, p: nat, j: nat)
    requires p < 4 && j < |listing|
    ensures p * |listing| + j < |Owners(listing)| && Owners(listing)[p * |listing| + j] == p
  {
    JobAt(listing, p, j);
    DivModUnique(p * |listing| + j, |listing|, p, j);
  }

  lemma {:induction false} OwnersOrdered(listing: seq<string>, a: nat, b: nat)
    requires a <= b < |Owners(listing)|
    ensures Owners(listing)[a] <= Owners(listing)[b]
  {
    var n := |listing|;
    var qa, ra := DivMod(a, n);
    var qb, rb := DivMod(b, n);
    DivModUnique(a, n, qa, ra);
    DivModUnique(b, n, qb, rb);
    if qa > qb {
      MulMono(qb + 1, qa, n);
      assert false;
    }
  }

  /** As written, a submission reads `bin/champsim` only when its worker
      starts the binary, after taking the job from the queue; its release
      of `S1_replacement` then lets the loop rebuild for the next policy.
      With one worker and two trace files, the first `lru` job releases,
      the loop rebuilds for `drrip` while that job runs, and the second
      `lru` job, started only once the worker is free, runs the `drrip`
      build; each later release lets one more rebuild happen. */
  lemma StaleBinaryExample(listing: seq<string>)
    requires |listing| == 2
    ensures Owners(listing) == [0, 0, 1, 1, 2, 2, 3, 3]
    ensures Schedule(Owners(listing), [1, 2, 3, 4, 4, 4, 4, 4], 4)
    ensures ReadAtStart(Policies, Owners(listing), [1, 2, 3, 4, 4, 4, 4, 4])[1] == "drrip"
    ensures Jobs(listing)[1].1 == "lru"
  {
    var owners := Owners(listing);
    forall k | 0 <= k < 8
      ensures owners[k] == [0, 0, 1, 1, 2, 2, 3, 3][k]
    {
      OwnerAt(listing, k / 2, k % 2);
    }
    JobAt(listing, 0, 1);
  }

  /** With the binary captured when the job is queued (one build per
      policy), every submission runs the build of the policy its output
      file names. */
  lemma QueuedBinaryMatchesLabel(listing: seq<string>, k: nat)
    requires k < |Jobs(listing)|
    ensures ReadAtQueue(Policies, Owners(listing))[k] == Jobs(listing)[k].1
  {
    var n := |listing|;
    var p, j := DivMod(k, n);
    if p >= 4 {
      MulMono(4, p, n);
      assert false;
    }
    OwnerAt(listing, p, j);
    JobAt(listing, p, j);
  }

  lemma DistinctPolicies(p: nat, q: nat)
    requires p < 4 && q < 4 && Policies[p] == Policies[q]
    ensures p == q
  {
  }
}
