/** The sequential bookkeeping of the older ChampSim runner
    (testsOldChampSim/champsim.py): the simulator command, the completion
    ledger kept in file names, the trace files it picks up, the order of
    the sweep and the command-line checks.  The output directory is a set
    of names and the simulator's exit status is an input. */
module OldChampSimRunner {
  import opened Wrappers
  import opened PyStr
  import opened RunNames
  import opened Sweep
  import opened OldChampSimConfig

  const WarmupFlag: string := "--warmup-instructions"
  const SimFlag: string := "--simulation-instructions"

  /** Python truthiness of an optional instruction count: set and non-zero. */
  predicate Truthy(n: Option<nat>)
  {
    n.Some? && n.value != 0
  }

  function Flag(flag: string, n: Option<nat>): seq<string>
  {
    if Truthy(n) then [flag, NatToString(n.value)] else []
  }

  /** The argument list of `exec_single_trace`: the binary under `bin/`,
      the two optional counts, and the trace path last.  Each count reads
      back with `int()` as the value given. */
  function Command(champSimPath: string, binName: string, warmup: Option<nat>, sim: Option<nat>, tracePath: string): (r: seq<string>)
    ensures |r| == 2 + |Flag(WarmupFlag, warmup)| + |Flag(SimFlag, sim)|
    ensures r[0] == PathJoin(PathJoin(champSimPath, "bin"), binName) && r[|r| - 1] == tracePath
    ensures r[1..|r| - 1] == Flag(WarmupFlag, warmup) + Flag(SimFlag, sim)
  {
    var r := [PathJoin(PathJoin(champSimPath, "bin"), binName)] + Flag(WarmupFlag, warmup) + Flag(SimFlag, sim) + [tracePath];
    assert r[1..|r| - 1] == Flag(WarmupFlag, warmup) + Flag(SimFlag, sim);
    r
  }

  /** A count's flag is present exactly when the count is set and
      non-zero. */
  lemma CommandFlags(champSimPath: string, binName: string, warmup: Option<nat>, sim: Option<nat>, tracePath: string)
    ensures var r := Command(champSimPath, binName, warmup, sim, tracePath);
      (WarmupFlag in r[1..|r| - 1] <==> Truthy(warmup)) && (SimFlag in r[1..|r| - 1] <==> Truthy(sim))
    ensures |Command(champSimPath, binName, warmup, sim, tracePath)| == 2 + (if Truthy(warmup) then 2 else 0) + (if Truthy(sim) then 2 else 0)
  {
    if Truthy(warmup) {
      NotAFlag(NatToString(warmup.value));
    }
    if Truthy(sim) {
      NotAFlag(NatToString(sim.value));
    }
  }

  /** Each present flag comes right before its rendered count, which
      `int()` reads back, and the warm-up count precedes the simulation
      count. */
  lemma CommandCounts(champSimPath: string, binName: string, warmup: Option<nat>, sim: Option<nat>, tracePath: string)
    ensures var r := Command(champSimPath, binName, warmup, sim, tracePath);
      Truthy(warmup) ==> r[1] == WarmupFlag && PyInt(r[2]) == Some(warmup.value as int)
    ensures var r := Command(champSimPath, binName, warmup, sim, tracePath);
      Truthy(sim) ==> r[|r| - 3] == SimFlag && PyInt(r[|r| - 2]) == Some(sim.value as int)
  {
    var r := Command(champSimPath, binName, warmup, sim, tracePath);
    var mid := r[1..|r| - 1];
    if Truthy(warmup) {
      ParseRendered(warmup.value);
      assert r[1] == mid[0] && r[2] == mid[1];
    }
    if Truthy(sim) {
      ParseRendered(sim.value);
      assert r[|r| - 3] == mid[|mid| - 2] && r[|r| - 2] == mid[|mid| - 1];
    }
  }

  /** A rendered count is neither flag: it starts with a digit. */
  lemma NotAFlag(t: string)
    requires IsDigitStr(t)
    ensures t != WarmupFlag && t != SimFlag
  {
    assert t[0] != '-';
  }

  /** The directory after one run: the log is opened (created) under the
      temporary name, and renamed to the completed name only when the
      simulator exits with status 0.  On any other status the temporary
      log stays and no completed name appears. */
  function RunOnce(dir: set<string>, k: RunKey, status: int): (r: set<string>)
    ensures status == 0 ==> DoneName(k) in r && TempName(k) !in r
    ensures status != 0 ==> TempName(k) in r && (DoneName(k) in r <==> DoneName(k) in dir)
    ensures forall n :: n != TempName(k) && n != DoneName(k) ==> (n in r <==> n in dir)
  {
    TempDoneDiffer(k);
    var created := dir + {TempName(k)};
    if status == 0 then created - {TempName(k)} + {DoneName(k)} else created
  }

  /** A temporary name never equals any completed name: they end in
      `t.txt` and `E.txt`. */
  lemma TempNeverDone(k: RunKey, k': RunKey)
    ensures TempName(k) != DoneName(k')
  {
    var t, d := TempName(k), DoneName(k');
    assert t[|t| - 5] == 't';
    assert d[|d| - 5] == 'E';
  }

  /** `verify_already_executed`: the program exits when the output
      directory is missing; otherwise the run is done exactly when a file
      with exactly the completed name is listed. */
  function AlreadyExecuted(dir: Option<set<string>>, k: RunKey): (r: Result<bool, string>)
    ensures dir.None? <==> r.Failure?
    ensures dir.Some? ==> r == Success(DoneName(k) in dir.value)
  {
    match dir
    case None => Failure("Directory not found")
    case Some(d) => Success(DoneName(k) in d)
  }

  /** `is_already_executed`: the same test, but a missing directory is
      created (empty) instead of ending the program. */
  function IsAlreadyExecuted(dir: Option<set<string>>, k: RunKey): (r: (bool, set<string>))
    ensures r.0 <==> dir.Some? && DoneName(k) in dir.value
    ensures dir.Some? ==> r.1 == dir.value
    ensures dir.None? ==> r.1 == {}
  {
    match dir
    case None => (false, {})
    case Some(d) => (DoneName(k) in d, d)
  }

  /** One job of a sequential session: check the ledger, then run unless
      the completed name is already there. */
  function Attempt(dir: set<string>, k: RunKey, status: int): set<string>
  {
    if DoneName(k) in dir then dir else RunOnce(dir, k, status)
  }

  /** A session of jobs `(key, exit status)` carried out one after the other. */
  function Session(dir: set<string>, jobs: seq<(RunKey, int)>): set<string>
    decreases |jobs|
  {
    if |jobs| == 0 then dir else Session(Attempt(dir, jobs[0].0, jobs[0].1), jobs[1..])
  }

  /** The jobs of a session the simulator was actually started for. */
  function Ran(dir: set<string>, jobs: seq<(RunKey, int)>): seq<(RunKey, int)>
    decreases |jobs|
  {
    if |jobs| == 0 then []
    else
      (if DoneName(jobs[0].0) in dir then [] else [jobs[0]]) + Ran(Attempt(dir, jobs[0].0, jobs[0].1), jobs[1..])
  }

  /** Completed names are never lost: nothing but temporary logs is ever
      removed. */
  lemma AttemptKeepsDone(dir: set<string>, k: RunKey, status: int, k': RunKey)
    requires DoneName(k') in dir
    ensures DoneName(k') in Attempt(dir, k, status)
  {
    TempNeverDone(k, k');
  }

  /** No job is ever started for a run whose completed name was present
      when it came up, and a run that succeeded is never started again. */
  lemma {:induction false} NeverRerun(dir: set<string>, jobs: seq<(RunKey, int)>)
    ensures forall x :: x in Ran(dir, jobs) ==> DoneName(x.0) !in dir
    ensures forall i, j :: 0 <= i < j < |Ran(dir, jobs)| && DoneName(Ran(dir, jobs)[i].0) == DoneName(Ran(dir, jobs)[j].0) ==> Ran(dir, jobs)[i].1 != 0
    decreases |jobs|
  {
    if |jobs| > 0 {
      var k, st := jobs[0].0, jobs[0].1;
      var dir' := Attempt(dir, k, st);
      var rest := Ran(dir', jobs[1..]);
      NeverRerun(dir', jobs[1..]);
      forall k' | DoneName(k') in dir ensures DoneName(k') in dir' {
        AttemptKeepsDone(dir, k, st, k');
      }
      var r := Ran(dir, jobs);
      if DoneName(k) !in dir {
        assert r == [jobs[0]] + rest;
        forall i, j | 0 <= i < j < |r| && DoneName(r[i].0) == DoneName(r[j].0) ensures r[i].1 != 0 {
          if i == 0 {
            assert r[j] == rest[j - 1];
            assert DoneName(k) !in dir';
          } else {
            assert r[i] == rest[i - 1] && r[j] == rest[j - 1];
          }
        }
      } else {
        assert r == rest;
      }
    }
  }

  /** "Mark only on success": a completed name is present after a session
      exactly when it was there before or some started job with that name
      exited with status 0. */
  lemma {:induction false} SessionDone(dir: set<string>, jobs: seq<(RunKey, int)>, k: RunKey)
    ensures DoneName(k) in Session(dir, jobs) <==>
      DoneName(k) in dir || exists x :: x in Ran(dir, jobs) && x.1 == 0 && DoneName(x.0) == DoneName(k)
    decreases |jobs|
  {
    if |jobs| > 0 {
      var k0, st := jobs[0].0, jobs[0].1;
      var dir' := Attempt(dir, k0, st);
      SessionDone(dir', jobs[1..], k);
      var r := Ran(dir, jobs);
      var rest := Ran(dir', jobs[1..]);
      assert DoneName(k) in dir' <==> DoneName(k) in dir || (DoneName(k0) !in dir && st == 0 && DoneName(k0) == DoneName(k)) by {
        if DoneName(k0) !in dir {
          TempNeverDone(k0, k);
        }
      }
      if DoneName(k0) !in dir {
        assert r == [jobs[0]] + rest;
      } else {
        assert r == rest;
      }
    }
  }

  /** `prepare_execution`'s name cleaning: only `.xz` and `.champsimtrace`
      files are used; `[:-3]` or `[:-13]` is cut off and then one more
      extension is split off.  `None` for a file that is not used. */
  function CleanTraceName(file: string): (r: Option<string>)
    ensures r.Some? <==> EndsWith(file, ".xz") || EndsWith(file, ".champsimtrace")
  {
    if EndsWith(file, ".xz") then Some(SplitExt(file[..|file| - 3]).0)
    else if EndsWith(file, ".champsimtrace") then Some(SplitExt(file[..|file| - 13]).0)
    else None
  }

  /** A trace `X` stored plain gives the name `X`: `[:-13]` leaves the
      dot, which `splitext` then removes. */
  lemma CleanPlain(x: string)
    requires '/' !in x
    requires exists k :: 0 <= k < |x| && x[k] != '.'
    ensures CleanTraceName(x + ".champsimtrace") == Some(x)
  {
    var plain := x + ".champsimtrace";
    assert !EndsWith(plain, ".xz") by {
      assert plain[|plain| - 1] == 'e';
    }
    assert plain[|plain| - 14..] == ".champsimtrace";
    assert plain[..|plain| - 13] == x + "." + "";
    SplitExtOf(x, "");
  }

  /** The compressed form gives the same name. */
  lemma CleanPacked(x: string)
    requires '/' !in x
    requires exists k :: 0 <= k < |x| && x[k] != '.'
    ensures CleanTraceName(x + ".champsimtrace.xz") == Some(x)
  {
    var packed := x + ".champsimtrace.xz";
    assert packed[|packed| - 3..] == ".xz";
    assert packed[..|packed| - 3] == x + "." + "champsimtrace";
    SplitExtOf(x, "champsimtrace");
  }

  /** A trace `X` stored plain or compressed gives the same name `X`. */
  lemma CleanBothForms(x: string)
    requires '/' !in x
    requires exists k :: 0 <= k < |x| && x[k] != '.'
    ensures CleanTraceName(x + ".champsimtrace") == CleanTraceName(x + ".champsimtrace.xz") == Some(x)
  {
    CleanPlain(x);
    CleanPacked(x);
  }

  /** One job handed to the thread pool. */
  datatype Submission = Submission(key: RunKey, tracePath: string)

  function KeyFor(trace: string, policy: Option<string>, branch: Option<string>, prefetcher: Option<string>): RunKey
  {
    RunKey(trace, Show(policy), Show(branch), Show(prefetcher))
  }

  /** `prepare_execution` for one sweep point over a directory listing, the
      output directory as it stands when each check is made.  `Failure`
      where the program exits because the output directory is missing. */
  function Submissions(traceDir: string, listing: seq<string>, out: Option<set<string>>,
                       policy: Option<string>, branch: Option<string>, prefetcher: Option<string>): (r: Result<seq<Submission>, string>)
    ensures r.Failure? <==> out.None? && exists i :: 0 <= i < |listing| && CleanTraceName(listing[i]).Some?
    ensures r.Success? ==> |r.value| <= |listing|
    decreases |listing|
  {
    if |listing| == 0 then Success([])
    else
      var rest := Submissions(traceDir, listing[1..], out, policy, branch, prefetcher);
      assert rest.Failure? <==> out.None? && exists i :: 1 <= i < |listing| && CleanTraceName(listing[i]).Some? by {
        if exists i :: 1 <= i < |listing| && CleanTraceName(listing[i]).Some? {
          var i :| 1 <= i < |listing| && CleanTraceName(listing[i]).Some?;
          assert listing[1..][i - 1] == listing[i];
        }
      }
      match CleanTraceName(listing[0])
      case None => rest
      case Some(x) =>
        match out
        case None => Failure("Directory not found")
        case Some(d) =>
          var k := KeyFor(x, policy, branch, prefetcher);
          if DoneName(k) in d then rest
          else
            match rest
            case Failure(e) => Failure(e)
            case Success(s) => Success([Submission(k, PathJoin(traceDir, listing[0]))] + s)
  }

  /** Every submitted job comes from a used trace file and its completed
      name is absent; every used trace file whose completed name is absent
      is submitted. */
  lemma {:induction false} SubmissionsExact(traceDir: string, listing: seq<string>, d: set<string>,
                                            policy: Option<string>, branch: Option<string>, prefetcher: Option<string>)
    requires Submissions(traceDir, listing, Some(d), policy, branch, prefetcher).Success?
    ensures forall x :: x in Submissions(traceDir, listing, Some(d), policy, branch, prefetcher).value ==>
      DoneName(x.key) !in d &&
      exists i :: 0 <= i < |listing| && CleanTraceName(listing[i]) == Some(x.key.trace) &&
        x == Submission(KeyFor(x.key.trace, policy, branch, prefetcher), PathJoin(traceDir, listing[i]))
    ensures forall i :: 0 <= i < |listing| && CleanTraceName(listing[i]).Some? && DoneName(KeyFor(CleanTraceName(listing[i]).value, policy, branch, prefetcher)) !in d ==>
        Submission(KeyFor(CleanTraceName(listing[i]).value, policy, branch, prefetcher), PathJoin(traceDir, listing[i]))
          in Submissions(traceDir, listing, Some(d), policy, branch, prefetcher).value
    decreases |listing|
  {
    if |listing| > 0 {
      var tail := listing[1..];
      SubmissionsExact(traceDir, tail, d, policy, branch, prefetcher);
      var r := Submissions(traceDir, listing, Some(d), policy, branch, prefetcher).value;
      var rest := Submissions(traceDir, tail, Some(d), policy, branch, prefetcher).value;
      assert forall i :: 1 <= i < |listing| ==> tail[i - 1] == listing[i];
      forall x | x in rest
        ensures exists i :: 0 <= i < |listing| && CleanTraceName(listing[i]) == Some(x.key.trace) && x == Submission(KeyFor(x.key.trace, policy, branch, prefetcher), PathJoin(traceDir, listing[i]))
      {
        var i :| 0 <= i < |tail| && CleanTraceName(tail[i]) == Some(x.key.trace) &&
          x == Submission(KeyFor(x.key.trace, policy, branch, prefetcher), PathJoin(traceDir, tail[i]));
        assert tail[i] == listing[i + 1];
      }
    }
  }

  /** A trace kept both plain and compressed is submitted twice under one
      key in the same sweep point when its run is not yet complete: both
      jobs write the same log. */
  lemma BothFormsSubmitted(traceDir: string, x: string, d: set<string>,
                           policy: Option<string>, branch: Option<string>, prefetcher: Option<string>)
    requires '/' !in x && exists k :: 0 <= k < |x| && x[k] != '.'
    requires DoneName(KeyFor(x, policy, branch, prefetcher)) !in d
    ensures var r := Submissions(traceDir, [x + ".champsimtrace", x + ".champsimtrace.xz"], Some(d), policy, branch, prefetcher);
      r.Success? && |r.value| == 2 && r.value[0].key == r.value[1].key == KeyFor(x, policy, branch, prefetcher)
  {
    CleanBothForms(x);
    var listing := [x + ".champsimtrace", x + ".champsimtrace.xz"];
    assert listing[1..] == [x + ".champsimtrace.xz"];
    assert listing[1..][1..] == [];
  }

  /** One point of `execute_all_policies`: the sample number, its
      geometry, and the policy, prefetcher and branch predictor. */
  datatype Point = Point(index: nat, sample: Sample, policy: Option<string>, prefetcher: Option<string>, branch: Option<string>)

  /** `self.Samples`: the four lists zipped, stopping at the shortest. */
  function Samples(l1i: seq<CacheConfig>, l1d: seq<CacheConfig>, l2c: seq<CacheConfig>, llc: seq<CacheConfig>): (r: seq<Sample>)
    ensures |r| == Min(Min(|l1i|, |l1d|), Min(|l2c|, |llc|))
    ensures forall i :: 0 <= i < |r| ==> r[i] == Sample(l1i[i], l1d[i], l2c[i], llc[i])
  {
    var n := Min(Min(|l1i|, |l1d|), Min(|l2c|, |llc|));
    seq(n, i requires 0 <= i < n => Sample(l1i[i], l1d[i], l2c[i], llc[i]))
  }

  function ToPoint(x: ((((nat, Sample), Option<string>), Option<string>), Option<string>)): Point
  {
    Point(x.0.0.0.0, x.0.0.0.1, x.0.0.1, x.0.1, x.1)
  }

  /** The sweep points in loop order: sample (numbered from `start`), then
      policy, prefetcher and branch predictor, an empty list counting as
      `[None]`.  This runner numbers its samples from 1. */
  function Points(samples: seq<Sample>, start: nat, policies: seq<string>, prefetchers: seq<string>, branches: seq<string>): seq<Point>
  {
    var loops := Product(Product(Product(Enumerate(samples, start), OrNone(policies)), OrNone(prefetchers)), OrNone(branches));
    seq(|loops|, i requires 0 <= i < |loops| => ToPoint(loops[i]))
  }

  /** The point of sample `s`, policy `p`, prefetcher `f` and branch
      predictor `b` (indices into the lists with `None` for an empty one)
      is visited at position `((s * P + p) * F + f) * B + b` and is
      numbered `s + start`. */
  lemma PointAt(samples: seq<Sample>, start: nat, policies: seq<string>, prefetchers: seq<string>, branches: seq<string>, s: nat, p: nat, f: nat, b: nat)
    requires s < |samples| && p < |OrNone(policies)| && f < |OrNone(prefetchers)| && b < |OrNone(branches)|
    ensures |Points(samples, start, policies, prefetchers, branches)| == |samples| * |OrNone(policies)| * |OrNone(prefetchers)| * |OrNone(branches)|
    ensures PointIndex(s, p, f, b, |OrNone(policies)|, |OrNone(prefetchers)|, |OrNone(branches)|) < |Points(samples, start, policies, prefetchers, branches)|
    ensures Points(samples, start, policies, prefetchers, branches)[PointIndex(s, p, f, b, |OrNone(policies)|, |OrNone(prefetchers)|, |OrNone(branches)|)] ==
      Point(s + start, samples[s], OrNone(policies)[p], OrNone(prefetchers)[f], OrNone(branches)[b])
  {
    var P, F, B := OrNone(policies), OrNone(prefetchers), OrNone(branches);
    var e := Enumerate(samples, start);
    Product3At(e, P, F, B, s, p, f, b);
    Product3Length(e, P, F, B);
    assert |e| == |samples|;
  }

  /** The position of a point in the nested loops. */
  function PointIndex(s: nat, p: nat, f: nat, b: nat, np: nat, nf: nat, nb: nat): nat
  {
    ((s * np + p) * nf + f) * nb + b
  }

  /** The folder of sample `index`: `<output>/Sample{index}`. */
  function SampleFolder(outputDir: string, index: nat): string
  {
    PathJoin(outputDir, "Sample" + NatToString(index))
  }

  /** Distinct samples get distinct folders. */
  lemma SampleFoldersDistinct(outputDir: string, i: nat, j: nat)
    requires i != j
    ensures "Sample" + NatToString(i) != "Sample" + NatToString(j)
  {
    var a, b := "Sample" + NatToString(i), "Sample" + NatToString(j);
    assert a[6..] == NatToString(i) && b[6..] == NatToString(j);
    assert DigitsValue(a[6..]) != DigitsValue(b[6..]);
  }

  /** The command line `main` accepts. */
  datatype Args = Args(threads: int, champSimPath: string, traceDir: string, configFile: string, outputDir: string,
                       warmup: Option<nat>, sim: Option<nat>)

  /** `int(argv[i])` when `argv[i]` is present and `isdigit`, else `None`. */
  function OptionalCount(argv: seq<string>, i: nat): (r: Option<nat>)
    ensures r.Some? <==> i < |argv| && IsDigitStr(argv[i])
    ensures r.Some? ==> PyInt(argv[i]) == Some(r.value as int)
  {
    if i < |argv| && IsDigitStr(argv[i]) then
      IsDigitParses(argv[i]);
      Some(DigitsValue(argv[i]))
    else None
  }

  /** `main`'s checks: fewer than six entries (script name included) or a
      thread count that `int()` rejects or that is below 1 end the program. */
  function ParseArgs(argv: seq<string>): (r: Result<Args, string>)
    ensures |argv| < 6 ==> r.Failure?
    ensures |argv| >= 6 ==> (r.Success? <==> PyInt(argv[1]).Some? && PyInt(argv[1]).value >= 1)
    ensures r.Success? ==> r.value.threads >= 1 && PyInt(argv[1]) == Some(r.value.threads)
    ensures r.Success? ==> r.value.warmup == OptionalCount(argv, 6) && r.value.sim == OptionalCount(argv, 7)
    ensures r.Success? ==> r.value.outputDir == argv[5] && r.value.traceDir == argv[3]
  {
    if |argv| < 6 then Failure("usage")
    else
      match PyInt(argv[1])
      case None => Failure("Please provide a valid (positive) number of threads.")
      case Some(t) =>
        if t < 1 then Failure("Please provide a valid (positive) number of threads.")
        else Success(Args(t, argv[2], argv[3], argv[4], argv[5], OptionalCount(argv, 6), OptionalCount(argv, 7)))
  }
}
