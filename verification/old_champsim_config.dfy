/** How the older ChampSim runner (testsOldChampSim/champsim.py) derives
    the JSON configuration of one sweep point: the base file with the four
    cache levels resized, then the LLC replacement policy, the LLC
    prefetcher, the branch predictor of core 0 and the executable name. */
module OldChampSimConfig {
  import opened Wrappers
  import opened OrderedDict
  import opened PyStr
  import opened JsonConfig
  import opened RunNames

  /** Geometry and latency of one cache level. */
  datatype CacheConfig = CacheConfig(sets: int, ways: int, latency: int)

  /** One sample: a geometry for each of the four levels. */
  datatype Sample = Sample(l1i: CacheConfig, l1d: CacheConfig, l2c: CacheConfig, llc: CacheConfig)

  /** The configuration sections of the four levels, in the order the
      runner updates them. */
  const CacheNames: seq<string> := ["L1I", "L1D", "L2C", "LLC"]

  /** The keys `dict.update` writes in each section, in order. */
  const SizeKeys: seq<string> := ["sets", "ways", "latency"]

  function Level(s: Sample, i: nat): CacheConfig
    requires i < 4
  {
    if i == 0 then s.l1i else if i == 1 then s.l1d else if i == 2 then s.l2c else s.llc
  }

  function SizeValue(c: CacheConfig, f: nat): int
    requires f < 3
  {
    if f == 0 then c.sets else if f == 1 then c.ways else c.latency
  }

  /** One assignment `config[section][key] = value`. */
  datatype Write = Write(section: string, key: string, value: Json)

  function PathOf(w: Write): Path
  {
    [Field(w.section), Field(w.key)]
  }

  /** `section` names an object directly under the top-level object. */
  predicate IsSection(j: Json, section: string)
  {
    j.JObj? && Get(j.fields, section).Some? && Get(j.fields, section).value.JObj?
  }

  /** The assignments, one after the other; `None` where Python raises. */
  function WriteAll(j: Json, ws: seq<Write>): (r: Option<Json>)
    decreases |ws|
  {
    if |ws| == 0 then Some(j)
    else
      match SetPath(j, PathOf(ws[0]), ws[0].value)
      case None => None
      case Some(j') => WriteAll(j', ws[1..])
  }

  /** A two-level assignment succeeds exactly on an existing section, and
      leaves every section a section. */
  lemma WriteOne(j: Json, w: Write)
    ensures SetPath(j, PathOf(w), w.value).Some? <==> IsSection(j, w.section)
    ensures SetPath(j, PathOf(w), w.value).Some? ==>
      forall s :: IsSection(SetPath(j, PathOf(w), w.value).value, s) <==> IsSection(j, s)
  {
    var p := PathOf(w);
    SetPathDefined(j, p, w.value);
    assert p[..1] == [Field(w.section)];
    assert GetPath(j, p[..1]) == Step1(j, Field(w.section));
    if IsSection(j, w.section) {
      var sec := Get(j.fields, w.section).value;
      var inner := JObj(Put(sec.fields, w.key, w.value));
      assert SetPath(sec, p[1..], w.value) == Some(inner);
      var r := SetPath(j, p, w.value).value;
      assert r == JObj(Put(j.fields, w.section, inner));
      GetPutSame(j.fields, w.section, inner);
    }
  }

  /** The whole batch succeeds exactly when every section it writes exists. */
  lemma {:induction false} WriteAllDefined(j: Json, ws: seq<Write>)
    ensures WriteAll(j, ws).Some? <==> forall i :: 0 <= i < |ws| ==> IsSection(j, ws[i].section)
    decreases |ws|
  {
    if |ws| > 0 {
      WriteOne(j, ws[0]);
      if IsSection(j, ws[0].section) {
        var j' := SetPath(j, PathOf(ws[0]), ws[0].value).value;
        assert WriteAll(j, ws) == WriteAll(j', ws[1..]);
        WriteAllDefined(j', ws[1..]);
        SectionsShift(j, j', ws);
      }
    }
  }

  /** The rest of a batch meets existing sections in the document after its
      first write exactly when it does in the original. */
  lemma SectionsShift(j: Json, j': Json, ws: seq<Write>)
    requires |ws| > 0 && IsSection(j, ws[0].section)
    requires forall s :: IsSection(j', s) <==> IsSection(j, s)
    ensures (forall i :: 0 <= i < |ws| ==> IsSection(j, ws[i].section)) <==>
      (forall i :: 0 <= i < |ws[1..]| ==> IsSection(j', ws[1..][i].section))
  {
    assert forall i :: 1 <= i < |ws| ==> ws[1..][i - 1] == ws[i];
  }

  /** A written key that no later write parts ways with ... reads back. */
  lemma {:induction false} WriteAllReads(j: Json, ws: seq<Write>, i: nat)
    requires WriteAll(j, ws).Some? && i < |ws|
    requires forall k :: i < k < |ws| ==> Diverge(PathOf(ws[k]), PathOf(ws[i]))
    ensures GetPath(WriteAll(j, ws).value, PathOf(ws[i])) == Some(ws[i].value)
    decreases |ws|
  {
    var j' := SetPath(j, PathOf(ws[0]), ws[0].value).value;
    if i == 0 {
      SetThenGet(j, PathOf(ws[0]), ws[0].value);
      WriteAllKeeps(j', ws[1..], PathOf(ws[0]));
    } else {
      ReadsLater(j, ws, i);
      WriteAllReads(j', ws[1..], i - 1);
    }
  }

  /** A later write sits one place earlier in the rest of the batch, with
      the same later writes after it. */
  lemma ReadsLater(j: Json, ws: seq<Write>, i: nat)
    requires WriteAll(j, ws).Some? && 0 < i < |ws|
    requires forall k :: i < k < |ws| ==> Diverge(PathOf(ws[k]), PathOf(ws[i]))
    ensures var j' := SetPath(j, PathOf(ws[0]), ws[0].value);
      && j'.Some? && WriteAll(j, ws) == WriteAll(j'.value, ws[1..])
      && ws[1..][i - 1] == ws[i]
      && forall k :: i - 1 < k < |ws[1..]| ==> Diverge(PathOf(ws[1..][k]), PathOf(ws[1..][i - 1]))
  {
    assert forall k :: i - 1 < k < |ws[1..]| ==> ws[1..][k] == ws[k + 1];
  }

  /** A path that parts ways with every write reads as before. */
  lemma {:induction false} WriteAllKeeps(j: Json, ws: seq<Write>, q: Path)
    requires WriteAll(j, ws).Some?
    requires forall k :: 0 <= k < |ws| ==> Diverge(PathOf(ws[k]), q)
    ensures GetPath(WriteAll(j, ws).value, q) == GetPath(j, q)
    decreases |ws|
  {
    if |ws| > 0 {
      var j' := SetPath(j, PathOf(ws[0]), ws[0].value).value;
      SetKeepsOthers(j, PathOf(ws[0]), ws[0].value, q);
      assert forall k :: 0 <= k < |ws[1..]| ==> ws[1..][k] == ws[k + 1];
      WriteAllKeeps(j', ws[1..], q);
    }
  }

  /** The three writes of `config[name].update({...})`. */
  function LevelWrites(name: string, c: CacheConfig): seq<Write>
  {
    [Write(name, "sets", JNum(c.sets)), Write(name, "ways", JNum(c.ways)), Write(name, "latency", JNum(c.latency))]
  }

  /** The twelve writes of `modify_size_cache`: each level's section gets
      `sets`, `ways` and `latency`, levels in the order L1I, L1D, L2C, LLC. */
  function SizeWrites(s: Sample): (ws: seq<Write>)
    ensures |ws| == 12
  {
    LevelWrites("L1I", s.l1i) + LevelWrites("L1D", s.l1d) + LevelWrites("L2C", s.l2c) + LevelWrites("LLC", s.llc)
  }

  /** Write `k` of the batch is entry `(i, f)`: level `i`, key `f`. */
  lemma SizeWriteAt(s: Sample, k: nat) returns (i: nat, f: nat)
    requires k < 12
    ensures i < 4 && f < 3 && k == 3 * i + f
    ensures SizeWrites(s)[k] == Write(CacheNames[i], SizeKeys[f], JNum(SizeValue(Level(s, i), f)))
  {
    i := if k < 3 then 0 else if k < 6 then 1 else if k < 9 then 2 else 3;
    f := k - 3 * i;
  }

  /** `modify_size_cache`: the base configuration with the sample's
      geometry written in. */
  function ModifySizeCache(base: Json, s: Sample): Option<Json>
  {
    WriteAll(base, SizeWrites(s))
  }

  /** A path that parts ways with all twelve size entries. */
  predicate SizeUntouched(q: Path)
  {
    forall i, f :: 0 <= i < 4 && 0 <= f < 3 ==> Diverge([Field(CacheNames[i]), Field(SizeKeys[f])], q)
  }

  /** `modify_size_cache` raises (`KeyError`, `AttributeError`) exactly
      when one of the four sections is missing or not an object. */
  lemma SizeCacheDefined(base: Json, s: Sample)
    ensures ModifySizeCache(base, s).Some? <==> forall i :: 0 <= i < 4 ==> IsSection(base, CacheNames[i])
  {
    var ws := SizeWrites(s);
    WriteAllDefined(base, ws);
    forall k | 0 <= k < 12 ensures ws[k].section in CacheNames {
      var i, f := SizeWriteAt(s, k);
    }
    forall i | 0 <= i < 4 ensures ws[3 * i].section == CacheNames[i] {
      var i', f := SizeWriteAt(s, 3 * i);
    }
  }

  /** Each of the twelve entries reads the sample's figure afterwards. */
  lemma SizeCacheWrites(base: Json, s: Sample, i: nat, f: nat)
    requires ModifySizeCache(base, s).Some? && i < 4 && f < 3
    ensures GetPath(ModifySizeCache(base, s).value, [Field(CacheNames[i]), Field(SizeKeys[f])]) == Some(JNum(SizeValue(Level(s, i), f)))
  {
    var ws := SizeWrites(s);
    var w := 3 * i + f;
    var i0, f0 := SizeWriteAt(s, w);
    forall k | w < k < 12 ensures Diverge(PathOf(ws[k]), PathOf(ws[w])) {
      var i', f' := SizeWriteAt(s, k);
      DistinctEntries(i', f', i, f);
    }
    WriteAllReads(base, ws, w);
  }

  /** Every entry other than the twelve is left as the base file has it. */
  lemma SizeCacheKeeps(base: Json, s: Sample, q: Path)
    requires ModifySizeCache(base, s).Some? && SizeUntouched(q)
    ensures GetPath(ModifySizeCache(base, s).value, q) == GetPath(base, q)
  {
    var ws := SizeWrites(s);
    forall k | 0 <= k < 12 ensures Diverge(PathOf(ws[k]), q) {
      var i, f := SizeWriteAt(s, k);
    }
    WriteAllKeeps(base, ws, q);
  }

  /** Two different (level, key) entries sit at paths that part ways. */
  lemma DistinctEntries(i: nat, f: nat, i': nat, f': nat)
    requires i < 4 && f < 3 && i' < 4 && f' < 3 && (i, f) != (i', f')
    ensures Diverge([Field(CacheNames[i]), Field(SizeKeys[f])], [Field(CacheNames[i']), Field(SizeKeys[f'])])
  {
    var p: Path := [Field(CacheNames[i]), Field(SizeKeys[f])];
    var q: Path := [Field(CacheNames[i']), Field(SizeKeys[f'])];
    if i != i' {
      assert p[0] != q[0];
    } else {
      assert p[1] != q[1];
    }
  }

  const ReplacementPath: Path := [Field("LLC"), Field("replacement")]
  const PrefetcherPath: Path := [Field("LLC"), Field("prefetcher")]
  const BranchPath: Path := [Field("ooo_cpu"), At(0), Field("branch_predictor")]
  const ExecNamePath: Path := [Field("executable_name")]

  /** One subscript assignment with what it promises: it raises exactly
      when a subscript before the last is missing or the last does not fit,
      the path then reads the value, and every path that parts ways reads
      as before. */
  function Assign(j: Json, p: Path, v: Json): (r: Option<Json>)
    requires |p| > 0
    ensures r.Some? <==> GetPath(j, p[..|p| - 1]).Some? && Fits(GetPath(j, p[..|p| - 1]).value, p[|p| - 1])
    ensures r.Some? ==> GetPath(r.value, p) == Some(v)
    ensures r.Some? ==> forall q :: Diverge(p, q) ==> GetPath(r.value, q) == GetPath(j, q)
  {
    SetPathDefined(j, p, v);
    var r := SetPath(j, p, v);
    assert r.Some? ==> GetPath(r.value, p) == Some(v) by {
      if r.Some? {
        SetThenGet(j, p, v);
      }
    }
    assert r.Some? ==> forall q :: Diverge(p, q) ==> GetPath(r.value, q) == GetPath(j, q) by {
      if r.Some? {
        forall q | Diverge(p, q) ensures GetPath(r.value, q) == GetPath(j, q) {
          SetKeepsOthers(j, p, v, q);
        }
      }
    }
    r
  }

  /** `modify_replacement_policy`: `config['LLC']['replacement'] = policy`. */
  function SetReplacement(cfg: Json, policy: Option<string>): (r: Option<Json>)
    ensures r.Some? <==> IsSection(cfg, "LLC")
    ensures r.Some? ==> GetPath(r.value, ReplacementPath) == Some(JsonName(policy))
    ensures r.Some? ==> forall q :: Diverge(ReplacementPath, q) ==> GetPath(r.value, q) == GetPath(cfg, q)
  {
    assert ReplacementPath[..1] == [Field("LLC")];
    Assign(cfg, ReplacementPath, JsonName(policy))
  }

  /** `modify_prefetcher`: `config['LLC']['prefetcher'] = prefetcher`. */
  function SetPrefetcher(cfg: Json, prefetcher: Option<string>): (r: Option<Json>)
    ensures r.Some? <==> IsSection(cfg, "LLC")
    ensures r.Some? ==> GetPath(r.value, PrefetcherPath) == Some(JsonName(prefetcher))
    ensures r.Some? ==> forall q :: Diverge(PrefetcherPath, q) ==> GetPath(r.value, q) == GetPath(cfg, q)
  {
    assert PrefetcherPath[..1] == [Field("LLC")];
    Assign(cfg, PrefetcherPath, JsonName(prefetcher))
  }

  /** `ooo_cpu` is an array whose first element is an object. */
  predicate HasCore0(j: Json)
  {
    GetPath(j, [Field("ooo_cpu"), At(0)]).Some? && GetPath(j, [Field("ooo_cpu"), At(0)]).value.JObj?
  }

  /** `modify_branch`: `config['ooo_cpu'][0]['branch_predictor'] = branch`. */
  function SetBranch(cfg: Json, branch: Option<string>): (r: Option<Json>)
    ensures r.Some? <==> HasCore0(cfg)
    ensures r.Some? ==> GetPath(r.value, BranchPath) == Some(JsonName(branch))
    ensures r.Some? ==> forall q :: Diverge(BranchPath, q) ==> GetPath(r.value, q) == GetPath(cfg, q)
  {
    assert BranchPath[..2] == [Field("ooo_cpu"), At(0)];
    Assign(cfg, BranchPath, JsonName(branch))
  }

  /** `champsim_{policy}_{prefetcher}_{branch}`, the name of both the
      executable and the binary the command runs. */
  function ExecName(policy: Option<string>, prefetcher: Option<string>, branch: Option<string>): string
  {
    "champsim_" + Show(policy) + "_" + Show(prefetcher) + "_" + Show(branch)
  }

  /** `modify_output_exec_name`: a copy of the top-level object with
      `executable_name` set. */
  function SetExecName(cfg: Json, name: string): (r: Option<Json>)
    ensures r.Some? <==> cfg.JObj?
    ensures r.Some? ==> GetPath(r.value, ExecNamePath) == Some(JStr(name))
    ensures r.Some? ==> forall q :: Diverge(ExecNamePath, q) ==> GetPath(r.value, q) == GetPath(cfg, q)
  {
    assert ExecNamePath[..0] == [];
    Assign(cfg, ExecNamePath, JStr(name))
  }

  /** The four per-point edits of the sized configuration, in the order
      the sweep loop makes them. */
  function PointEdits(c0: Json, policy: Option<string>, prefetcher: Option<string>, branch: Option<string>): Option<Json>
  {
    match SetReplacement(c0, policy)
    case None => None
    case Some(c1) =>
      match SetPrefetcher(c1, prefetcher)
      case None => None
      case Some(c2) =>
        match SetBranch(c2, branch)
        case None => None
        case Some(c3) => SetExecName(c3, ExecName(policy, prefetcher, branch))
  }

  /** The configuration written for one sweep point. */
  function ConfigFor(base: Json, s: Sample, policy: Option<string>, prefetcher: Option<string>, branch: Option<string>): Option<Json>
  {
    match ModifySizeCache(base, s)
    case None => None
    case Some(c0) => PointEdits(c0, policy, prefetcher, branch)
  }

  /** The per-point edits leave every path that parts ways with all four. */
  lemma PointEditsKeep(c0: Json, policy: Option<string>, prefetcher: Option<string>, branch: Option<string>, q: Path)
    requires PointEdits(c0, policy, prefetcher, branch).Some?
    requires Diverge(ReplacementPath, q) && Diverge(PrefetcherPath, q) && Diverge(BranchPath, q) && Diverge(ExecNamePath, q)
    ensures GetPath(PointEdits(c0, policy, prefetcher, branch).value, q) == GetPath(c0, q)
  {
  }

  /** A path untouched by any of the point's edits. */
  predicate PointUntouched(q: Path)
  {
    SizeUntouched(q) && Diverge(ReplacementPath, q) && Diverge(PrefetcherPath, q) &&
    Diverge(BranchPath, q) && Diverge(ExecNamePath, q)
  }

  /** The per-point edits name the point's policy, prefetcher, branch
      predictor and executable. */
  lemma PointEditsNames(c0: Json, policy: Option<string>, prefetcher: Option<string>, branch: Option<string>)
    requires PointEdits(c0, policy, prefetcher, branch).Some?
    ensures GetPath(PointEdits(c0, policy, prefetcher, branch).value, ReplacementPath) == Some(JsonName(policy))
    ensures GetPath(PointEdits(c0, policy, prefetcher, branch).value, PrefetcherPath) == Some(JsonName(prefetcher))
    ensures GetPath(PointEdits(c0, policy, prefetcher, branch).value, BranchPath) == Some(JsonName(branch))
    ensures GetPath(PointEdits(c0, policy, prefetcher, branch).value, ExecNamePath) == Some(JStr(ExecName(policy, prefetcher, branch)))
  {
    DivergeAt(PrefetcherPath, ReplacementPath, 1);
    DivergeAt(BranchPath, ReplacementPath, 0);
    DivergeAt(ExecNamePath, ReplacementPath, 0);
    DivergeAt(BranchPath, PrefetcherPath, 0);
    DivergeAt(ExecNamePath, PrefetcherPath, 0);
    DivergeAt(ExecNamePath, BranchPath, 0);
  }

  /** The configuration of a sweep point names the point's policy,
      prefetcher, branch predictor and executable. */
  lemma ConfigForNames(base: Json, s: Sample, policy: Option<string>, prefetcher: Option<string>, branch: Option<string>)
    requires ConfigFor(base, s, policy, prefetcher, branch).Some?
    ensures GetPath(ConfigFor(base, s, policy, prefetcher, branch).value, ReplacementPath) == Some(JsonName(policy))
    ensures GetPath(ConfigFor(base, s, policy, prefetcher, branch).value, PrefetcherPath) == Some(JsonName(prefetcher))
    ensures GetPath(ConfigFor(base, s, policy, prefetcher, branch).value, BranchPath) == Some(JsonName(branch))
    ensures GetPath(ConfigFor(base, s, policy, prefetcher, branch).value, ExecNamePath) == Some(JStr(ExecName(policy, prefetcher, branch)))
  {
    PointEditsNames(ModifySizeCache(base, s).value, policy, prefetcher, branch);
  }

  /** The configuration of a sweep point carries the sample's geometry. */
  lemma ConfigForSizes(base: Json, s: Sample, policy: Option<string>, prefetcher: Option<string>, branch: Option<string>, i: nat, f: nat)
    requires ConfigFor(base, s, policy, prefetcher, branch).Some? && i < 4 && f < 3
    ensures GetPath(ConfigFor(base, s, policy, prefetcher, branch).value, [Field(CacheNames[i]), Field(SizeKeys[f])]) == Some(JNum(SizeValue(Level(s, i), f)))
  {
    SizeCacheWrites(base, s, i, f);
    var q: Path := [Field(CacheNames[i]), Field(SizeKeys[f])];
    ShortNames(i, f);
    DivergeAt(ReplacementPath, q, 1);
    DivergeAt(PrefetcherPath, q, 1);
    DivergeAt(BranchPath, q, 0);
    DivergeAt(ExecNamePath, q, 0);
    PointEditsKeep(ModifySizeCache(base, s).value, policy, prefetcher, branch, q);
  }

  /** Level and key names are shorter than the names the other edits use. */
  lemma ShortNames(i: nat, f: nat)
    requires i < 4 && f < 3
    ensures |CacheNames[i]| == 3 && |SizeKeys[f]| <= 7
  {
    if i == 0 {} else if i == 1 {} else if i == 2 {} else {}
    if f == 0 {} else if f == 1 {} else {}
  }

  /** Every entry none of the point's edits touches is the base file's. */
  lemma ConfigForKeeps(base: Json, s: Sample, policy: Option<string>, prefetcher: Option<string>, branch: Option<string>, q: Path)
    requires ConfigFor(base, s, policy, prefetcher, branch).Some? && PointUntouched(q)
    ensures GetPath(ConfigFor(base, s, policy, prefetcher, branch).value, q) == GetPath(base, q)
  {
    SizeCacheKeeps(base, s, q);
    PointEditsKeep(ModifySizeCache(base, s).value, policy, prefetcher, branch, q);
  }
}
