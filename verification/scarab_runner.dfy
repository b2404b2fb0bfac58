/** The Scarab runner (testsScarab/scarab.py): for every cache sample it
    rewrites the cache sizes in a `PARAMS.in` file, then for every trace
    folder, cache replacement policy, branch predictor and prefetcher it
    rewrites those settings, copies the file into Scarab's source tree and
    starts one simulation per trace file.

    `PARAMS.in` is modelled by its flags: flag name (`--icache_size`) to the
    token that follows it (`32768`).  A pattern `--flag\s+\d+` replaces the
    run of digits the token starts with, a pattern `--flag\s+\S+` the whole
    token; a flag the file does not have, or a token the pattern does not
    fit, leaves the file unchanged.  The file is edited in place, so each
    point starts from what the point before left. */
module ScarabRunner {
  import opened Wrappers
  import opened PyStr
  import opened OrderedDict
  import opened Sweep
  import opened RunNames
  import opened OldChampSimConfig
  import Gem5Runner
  import OldChampSimRunner
  import NewChampSimRunner
  import ScarabResults
  import opened WorkerPool

  type ParamsFile = Dict<string, string>

  predicate IsDigit(c: char)
  {
    '0' <= c <= '9'
  }

  /** The length of the run of digits a token starts with. */
  function DigitRun(v: string): (n: nat)
    ensures n <= |v|
    ensures forall i :: 0 <= i < n ==> IsDigit(v[i])
    ensures n == |v| || !IsDigit(v[n])
  {
    if |v| > 0 && IsDigit(v[0]) then
      var n := 1 + DigitRun(v[1..]);
      assert forall i :: 1 <= i < n ==> v[i] == v[1..][i - 1];
      n
    else 0
  }

  /** Digits followed by a non-digit (or nothing) form exactly one run. */
  lemma {:induction false} DigitRunOf(d: string, rest: string)
    requires forall i :: 0 <= i < |d| ==> IsDigit(d[i])
    requires rest == [] || !IsDigit(rest[0])
    ensures DigitRun(d + rest) == |d|
    decreases |d|
  {
    if |d| > 0 {
      assert (d + rest)[1..] == d[1..] + rest;
      DigitRunOf(d[1..], rest);
    } else {
      assert d + rest == rest;
    }
  }

  /** `re.sub(r"--flag\s+\d+", f"--flag {n}")` on the flag's token: read
      back, the token's leading number is now `n` and the rest of the token
      is kept; a token that does not start with a digit does not match. */
  function DigitsSub(v: string, n: int): (r: string)
    ensures DigitRun(v) == 0 ==> r == v
    ensures DigitRun(v) > 0 && n >= 0 ==>
      DigitRun(r) == |NatToString(n)| && DigitsValue(r[..DigitRun(r)]) == n && r[DigitRun(r)..] == v[DigitRun(v)..]
  {
    if DigitRun(v) > 0 then
      var rest := v[DigitRun(v)..];
      if n >= 0 then
        DigitRunOf(NatToString(n), rest);
        var r := NatToString(n) + rest;
        assert r[..|NatToString(n)|] == NatToString(n);
        r
      else IntToString(n) + rest
    else v
  }

  /** Rewriting a number twice keeps the second number only. */
  lemma DigitsSubTwice(v: string, a: int, b: int)
    requires a >= 0
    ensures DigitsSub(DigitsSub(v, a), b) == DigitsSub(v, b)
  {
    if DigitRun(v) > 0 {
      var w := DigitsSub(v, a);
      assert w[DigitRun(w)..] == v[DigitRun(v)..];
    }
  }

  function SubOpt(o: Option<string>, n: int): Option<string>
  {
    match o
    case None => None
    case Some(v) => Some(DigitsSub(v, n))
  }

  /** One `--flag\s+\d+` substitution on the file. */
  function SubFlag(f: ParamsFile, flag: string, n: int): (r: ParamsFile)
    requires DistinctKeys(f)
    ensures Keys(r) == Keys(f) && DistinctKeys(r)
    ensures Get(r, flag) == SubOpt(Get(f, flag), n)
    ensures forall k :: k != flag ==> Get(r, k) == Get(f, k)
  {
    match Get(f, flag)
    case None => f
    case Some(v) =>
      assert HasKey(f, flag);
      Gem5Runner.Rewrite(f, flag, DigitsSub(v, n))
  }

  /** The caches `modify_cache_size` addresses; Scarab calls the last level
      `l1` and the second level `mlc`. */
  datatype Cache = ICache | DCache | Mlc | L1
  datatype Attr = Size | Assoc | Cycles

  function CacheName(c: Cache): string
  {
    match c
    case ICache => "icache"
    case DCache => "dcache"
    case Mlc => "mlc"
    case L1 => "l1"
  }

  function AttrName(a: Attr): (r: string)
    ensures |r| > 0 && '_' !in r
    ensures r[|r| - 1] == 'e' || r[|r| - 1] == 'c' || r[|r| - 1] == 's'
  {
    match a
    case Size => "size"
    case Assoc => "assoc"
    case Cycles => "cycles"
  }

  function FlagOf(c: Cache, a: Attr): string
  {
    "--" + CacheName(c) + "_" + AttrName(a)
  }

  /** Distinct cache settings are distinct flags. */
  lemma FlagsDistinct(c1: Cache, a1: Attr, c2: Cache, a2: Attr)
    requires (c1, a1) != (c2, a2)
    ensures FlagOf(c1, a1) != FlagOf(c2, a2)
  {
    var h1, h2 := "--" + CacheName(c1), "--" + CacheName(c2);
    assert '_' !in h1 && '_' !in h2;
    assert FlagOf(c1, a1) == h1 + ['_'] + AttrName(a1);
    assert FlagOf(c2, a2) == h2 + ['_'] + AttrName(a2);
    if c1 != c2 {
      assert h1 != h2 by {
        assert h1[2..] == CacheName(c1) && h2[2..] == CacheName(c2);
      }
    } else {
      assert AttrName(a1) != AttrName(a2);
    }
    SeparatedUnique(h1, AttrName(a1), h2, AttrName(a2), '_');
  }

  /** The substitutions of `modify_cache_size`, in order: size and
      associativity for every level, and the latency for all but the
      instruction cache. */
  const SizeFlags: seq<(Cache, Attr)> := [
    (ICache, Size), (ICache, Assoc),
    (DCache, Size), (DCache, Assoc), (DCache, Cycles),
    (Mlc, Size), (Mlc, Assoc), (Mlc, Cycles),
    (L1, Size), (L1, Assoc), (L1, Cycles)]

  function LevelOf(s: Sample, c: Cache): CacheConfig
  {
    match c
    case ICache => s.l1i
    case DCache => s.l1d
    case Mlc => s.l2c
    case L1 => s.llc
  }

  /** The number written for a setting: sets times ways times 64 bytes,
      the ways, or the latency. */
  function SettingValue(s: Sample, c: Cache, a: Attr): int
  {
    var cfg := LevelOf(s, c);
    match a
    case Size => cfg.sets * cfg.ways * 64
    case Assoc => cfg.ways
    case Cycles => cfg.latency
  }

  function ApplySettings(f: ParamsFile, s: Sample, fs: seq<(Cache, Attr)>): (r: ParamsFile)
    requires DistinctKeys(f)
    ensures Keys(r) == Keys(f) && DistinctKeys(r)
    decreases |fs|, f  // naming the file keeps the verifier from unrolling the constant list
  {
    if |fs| == 0 then f
    else ApplySettings(SubFlag(f, FlagOf(fs[0].0, fs[0].1), SettingValue(s, fs[0].0, fs[0].1)), s, fs[1..])
  }

  /** `modify_cache_size`. */
  function ModifyCacheSize(f: ParamsFile, s: Sample): (r: ParamsFile)
    requires DistinctKeys(f)
    ensures Keys(r) == Keys(f) && DistinctKeys(r)
  {
    ApplySettings(f, s, SizeFlags)
  }

  predicate DistinctSettings(fs: seq<(Cache, Attr)>)
  {
    forall i, j :: 0 <= i < j < |fs| ==> fs[i] != fs[j]
  }

  lemma DistinctTail(fs: seq<(Cache, Attr)>)
    requires |fs| > 0 && DistinctSettings(fs)
    ensures DistinctSettings(fs[1..])
  {
    var tail := fs[1..];
    forall i, j | 0 <= i < j < |tail| ensures tail[i] != tail[j] {
      assert tail[i] == fs[i + 1] && tail[j] == fs[j + 1];
    }
  }

  /** A flag no substitution names is kept. */
  lemma {:induction false} ApplySettingsKeeps(f: ParamsFile, s: Sample, fs: seq<(Cache, Attr)>, k: string)
    requires DistinctKeys(f)
    requires forall i :: 0 <= i < |fs| ==> k != FlagOf(fs[i].0, fs[i].1)
    ensures Get(ApplySettings(f, s, fs), k) == Get(f, k)
    decreases |fs|
  {
    if |fs| > 0 {
      var f' := SubFlag(f, FlagOf(fs[0].0, fs[0].1), SettingValue(s, fs[0].0, fs[0].1));
      assert k != FlagOf(fs[0].0, fs[0].1);
      forall j | 0 <= j < |fs[1..]| ensures k != FlagOf(fs[1..][j].0, fs[1..][j].1) {
        assert fs[1..][j] == fs[j + 1];
      }
      ApplySettingsKeeps(f', s, fs[1..], k);
    }
  }

  /** The flag of a setting that is not in the list is kept. */
  lemma ApplySettingsUnlisted(f: ParamsFile, s: Sample, fs: seq<(Cache, Attr)>, c: Cache, a: Attr)
    requires DistinctKeys(f)
    requires forall i :: 0 <= i < |fs| ==> fs[i] != (c, a)
    ensures Get(ApplySettings(f, s, fs), FlagOf(c, a)) == Get(f, FlagOf(c, a))
  {
    forall i | 0 <= i < |fs| ensures FlagOf(c, a) != FlagOf(fs[i].0, fs[i].1) {
      FlagsDistinct(c, a, fs[i].0, fs[i].1);
    }
    ApplySettingsKeeps(f, s, fs, FlagOf(c, a));
  }

  lemma ApplySettingsFirst(f: ParamsFile, s: Sample, fs: seq<(Cache, Attr)>)
    requires DistinctKeys(f) && DistinctSettings(fs) && 0 < |fs|
    ensures Get(ApplySettings(f, s, fs), FlagOf(fs[0].0, fs[0].1)) == SubOpt(Get(f, FlagOf(fs[0].0, fs[0].1)), SettingValue(s, fs[0].0, fs[0].1))
  {
    var f' := SubFlag(f, FlagOf(fs[0].0, fs[0].1), SettingValue(s, fs[0].0, fs[0].1));
    var tail := fs[1..];
    forall j | 0 <= j < |tail| ensures tail[j] != (fs[0].0, fs[0].1) {
      assert tail[j] == fs[j + 1];
    }
    ApplySettingsUnlisted(f', s, tail, fs[0].0, fs[0].1);
  }

  /** A listed setting's flag gets the setting's number. */
  lemma {:induction false} ApplySettingsListed(f: ParamsFile, s: Sample, fs: seq<(Cache, Attr)>, i: nat)
    requires DistinctKeys(f) && DistinctSettings(fs) && i < |fs|
    ensures Get(ApplySettings(f, s, fs), FlagOf(fs[i].0, fs[i].1)) == SubOpt(Get(f, FlagOf(fs[i].0, fs[i].1)), SettingValue(s, fs[i].0, fs[i].1))
    decreases |fs|
  {
    if i == 0 {
      ApplySettingsFirst(f, s, fs);
    } else {
      var f' := SubFlag(f, FlagOf(fs[0].0, fs[0].1), SettingValue(s, fs[0].0, fs[0].1));
      ListedLater(f, s, fs, i);
      ApplySettingsListed(f', s, fs[1..], i - 1);
    }
  }

  /** A later setting's flag is untouched by the first setting, and sits one
      place earlier in the rest of the list. */
  lemma ListedLater(f: ParamsFile, s: Sample, fs: seq<(Cache, Attr)>, i: nat)
    requires DistinctKeys(f) && DistinctSettings(fs) && 0 < i < |fs|
    ensures var f' := SubFlag(f, FlagOf(fs[0].0, fs[0].1), SettingValue(s, fs[0].0, fs[0].1));
      && DistinctSettings(fs[1..]) && fs[1..][i - 1] == fs[i]
      && Get(f', FlagOf(fs[i].0, fs[i].1)) == Get(f, FlagOf(fs[i].0, fs[i].1))
      && ApplySettings(f, s, fs) == ApplySettings(f', s, fs[1..])
  {
    DistinctTail(fs);
    FlagsDistinct(fs[0].0, fs[0].1, fs[i].0, fs[i].1);
    ApplySettingsUnfold(f, s, fs);
  }

  lemma ApplySettingsUnfold(f: ParamsFile, s: Sample, fs: seq<(Cache, Attr)>)
    requires DistinctKeys(f) && 0 < |fs|
    ensures ApplySettings(f, s, fs) == ApplySettings(SubFlag(f, FlagOf(fs[0].0, fs[0].1), SettingValue(s, fs[0].0, fs[0].1)), s, fs[1..])
  {
  }

  lemma SizeFlagsDistinct()
    ensures DistinctSettings(SizeFlags)
  {
  }

  /** Where a setting other than the instruction cache's latency sits in
      the list of substitutions. */
  function SizeFlagIndex(c: Cache, a: Attr): (i: nat)
    requires (c, a) != (ICache, Cycles)
    ensures i < |SizeFlags| && SizeFlags[i] == (c, a)
  {
    var j := match a case Size => 0 case Assoc => 1 case Cycles => 2;
    match c
    case ICache => j
    case DCache => 2 + j
    case Mlc => 5 + j
    case L1 => 8 + j
  }

  lemma InstructionLatencyUnlisted()
    ensures forall i :: 0 <= i < |SizeFlags| ==> SizeFlags[i] != (ICache, Cycles)
  {
  }

  /** After `modify_cache_size` every size and associativity flag, and the
      latency flags of the data cache, the second level and the last
      level, hold the sample's numbers; the instruction cache's latency and
      every other flag are as before. */
  lemma CacheSizeEffect(f: ParamsFile, s: Sample, c: Cache, a: Attr)
    requires DistinctKeys(f)
    ensures (c, a) != (ICache, Cycles) ==>
      Get(ModifyCacheSize(f, s), FlagOf(c, a)) == SubOpt(Get(f, FlagOf(c, a)), SettingValue(s, c, a))
    ensures (c, a) == (ICache, Cycles) ==> Get(ModifyCacheSize(f, s), FlagOf(c, a)) == Get(f, FlagOf(c, a))
  {
    if (c, a) != (ICache, Cycles) {
      SizeFlagsDistinct();
      ApplySettingsListed(f, s, SizeFlags, SizeFlagIndex(c, a));
    } else {
      InstructionLatencyUnlisted();
      ApplySettingsUnlisted(f, s, SizeFlags, c, a);
    }
  }

  /** A flag that is no cache setting is not touched by `modify_cache_size`. */
  lemma CacheSizeKeeps(f: ParamsFile, s: Sample, k: string)
    requires DistinctKeys(f)
    requires forall c, a :: k != FlagOf(c, a)
    ensures Get(ModifyCacheSize(f, s), k) == Get(f, k)
  {
    ApplySettingsKeeps(f, s, SizeFlags, k);
  }

  const ReplFlag: string := "--l1_cache_repl_policy"
  const BpFlag: string := "--bp_mech"
  const StrideFlag: string := "--pref_stride_on"
  const StridePcFlag: string := "--pref_stridepc_on"
  const GhbFlag: string := "--pref_ghb_on"

  /** `prefetcher_map`: the option enables exactly one of the three
      prefetchers; any other option is not in the map. */
  function PrefetcherSetting(p: Option<string>): (r: Option<seq<(string, string)>>)
    ensures r.Some? <==> p == Some("0") || p == Some("1") || p == Some("2")
    ensures r.Some? ==> |r.value| == 3 && r.value[0].0 == StrideFlag && r.value[1].0 == StridePcFlag && r.value[2].0 == GhbFlag
    ensures r.Some? ==> forall i :: 0 <= i < 3 ==> r.value[i].1 == (if i == DigitValue(p.value[0]) then "1" else "0")
  {
    if p == Some("0") then Some([(StrideFlag, "1"), (StridePcFlag, "0"), (GhbFlag, "0")])
    else if p == Some("1") then Some([(StrideFlag, "0"), (StridePcFlag, "1"), (GhbFlag, "0")])
    else if p == Some("2") then Some([(StrideFlag, "0"), (StridePcFlag, "0"), (GhbFlag, "1")])
    else None
  }

  /** One point's cache policy, branch predictor and prefetcher option. */
  datatype Choice = Choice(policy: Option<string>, branch: Option<string>, prefetcher: Option<string>)

  /** `re.sub(flag\s+\S+, flag value)` for each edit in turn. */
  function Rewrites(f: ParamsFile, edits: seq<(string, string)>): (r: ParamsFile)
    requires DistinctKeys(f)
    ensures Keys(r) == Keys(f) && DistinctKeys(r)
    decreases |edits|
  {
    if |edits| == 0 then f
    else Rewrites(Gem5Runner.Rewrite(f, edits[0].0, edits[0].1), edits[1..])
  }

  /** The value the last edit of `k` in a list gives it. */
  function LastEdit(edits: seq<(string, string)>, k: string): Option<string>
    decreases |edits|
  {
    if |edits| == 0 then None
    else
      match LastEdit(edits[1..], k)
      case Some(v) => Some(v)
      case None => if edits[0].0 == k then Some(edits[0].1) else None
  }

  /** A flag the file has ends with the value of its last edit; every
      other flag is kept. */
  lemma {:induction false} RewritesGet(f: ParamsFile, edits: seq<(string, string)>, k: string)
    requires DistinctKeys(f)
    ensures Get(Rewrites(f, edits), k) == if LastEdit(edits, k).Some? && HasKey(f, k) then LastEdit(edits, k) else Get(f, k)
    decreases |edits|
  {
    if |edits| > 0 {
      var g := Gem5Runner.Rewrite(f, edits[0].0, edits[0].1);
      RewritesGet(g, edits[1..], k);
    }
  }

  /** The edits of one point, in the order the script applies them. */
  function PointSettings(ch: Choice): (r: seq<(string, string)>)
    requires PrefetcherSetting(ch.prefetcher).Some?
    ensures |r| == 5
  {
    [(ReplFlag, Show(ch.policy)), (BpFlag, Show(ch.branch))] + PrefetcherSetting(ch.prefetcher).value
  }

  /** `modify_replacement_cache`, `modify_branch_predictor` and
      `modify_prefetcher` for one point; `None` where the prefetcher option
      makes the script exit. */
  function PointEdits(f: ParamsFile, ch: Choice): (r: Option<ParamsFile>)
    requires DistinctKeys(f)
    ensures r.Some? <==> PrefetcherSetting(ch.prefetcher).Some?
    ensures r.Some? ==> Keys(r.value) == Keys(f) && DistinctKeys(r.value)
  {
    if PrefetcherSetting(ch.prefetcher).Some? then Some(Rewrites(f, PointSettings(ch)))
    else None
  }

  predicate PointFlag(k: string)
  {
    k == ReplFlag || k == BpFlag || k == StrideFlag || k == StridePcFlag || k == GhbFlag
  }

  /** The value a point gives a flag it sets. */
  function PointValue(ch: Choice, k: string): string
    requires PrefetcherSetting(ch.prefetcher).Some? && PointFlag(k)
  {
    var ps := PrefetcherSetting(ch.prefetcher).value;
    if k == ReplFlag then Show(ch.policy)
    else if k == BpFlag then Show(ch.branch)
    else if k == StrideFlag then ps[0].1
    else if k == StridePcFlag then ps[1].1
    else ps[2].1
  }

  lemma PointFlagsDistinct()
    ensures ReplFlag != BpFlag && ReplFlag != StrideFlag && ReplFlag != StridePcFlag && ReplFlag != GhbFlag
    ensures BpFlag != StrideFlag && BpFlag != StridePcFlag && BpFlag != GhbFlag
    ensures StrideFlag != StridePcFlag && StrideFlag != GhbFlag && StridePcFlag != GhbFlag
  {
    assert ReplFlag[2] == 'l' && BpFlag[2] == 'b' && StrideFlag[2] == 'p';
    assert StrideFlag[7] == 's' && StridePcFlag[7] == 's' && GhbFlag[7] == 'g';
    assert StrideFlag[13] == '_' && StridePcFlag[13] == 'p';
  }

  lemma PointLastEdit(ch: Choice, k: string)
    requires PrefetcherSetting(ch.prefetcher).Some?
    ensures LastEdit(PointSettings(ch), k) == if PointFlag(k) then Some(PointValue(ch, k)) else None
  {
    PointFlagsDistinct();
    var e := PointSettings(ch);
    assert e[4..][1..] == [];
    assert e[3..][1..] == e[4..];
    assert e[2..][1..] == e[3..];
    assert e[1..][1..] == e[2..];
    assert e[0] == (ReplFlag, Show(ch.policy)) && e[1] == (BpFlag, Show(ch.branch));
    assert e[2].0 == StrideFlag && e[3].0 == StridePcFlag && e[4].0 == GhbFlag;
    assert LastEdit(e[4..], k) == if k == GhbFlag then Some(e[4].1) else None;
    assert LastEdit(e[3..], k) == if k == GhbFlag then Some(e[4].1) else if k == StridePcFlag then Some(e[3].1) else None;
    assert LastEdit(e[2..], k) == if k == GhbFlag then Some(e[4].1) else if k == StridePcFlag then Some(e[3].1)
      else if k == StrideFlag then Some(e[2].1) else None;
    assert LastEdit(e[1..], k) == if k == GhbFlag then Some(e[4].1) else if k == StridePcFlag then Some(e[3].1)
      else if k == StrideFlag then Some(e[2].1) else if k == BpFlag then Some(e[1].1) else None;
    assert e[1..] == e[0..][1..] && e == e[0..];
  }

  /** A point sets its five flags, where the file has them, and keeps
      every other flag. */
  lemma PointEditsEffect(f: ParamsFile, ch: Choice, k: string)
    requires DistinctKeys(f) && PrefetcherSetting(ch.prefetcher).Some?
    ensures PointFlag(k) && HasKey(f, k) ==> Get(PointEdits(f, ch).value, k) == Some(PointValue(ch, k))
    ensures !PointFlag(k) ==> Get(PointEdits(f, ch).value, k) == Get(f, k)
  {
    RewritesGet(f, PointSettings(ch), k);
    PointLastEdit(ch, k);
  }

  /** Exactly one prefetcher is on after a point: the one its option names. */
  lemma OneHot(f: ParamsFile, ch: Choice)
    requires DistinctKeys(f) && PrefetcherSetting(ch.prefetcher).Some?
    requires HasKey(f, StrideFlag) && HasKey(f, StridePcFlag) && HasKey(f, GhbFlag)
    ensures var r := PointEdits(f, ch).value; var on := DigitValue(ch.prefetcher.value[0]);
      Get(r, StrideFlag) == Some(if on == 0 then "1" else "0") &&
      Get(r, StridePcFlag) == Some(if on == 1 then "1" else "0") &&
      Get(r, GhbFlag) == Some(if on == 2 then "1" else "0")
  {
    PointEditsEffect(f, ch, StrideFlag);
    PointEditsEffect(f, ch, StridePcFlag);
    PointEditsEffect(f, ch, GhbFlag);
    PointFlagsDistinct();
  }

  /** The flags a point sets are no cache settings. */
  lemma PointFlagNotCache(k: string, c: Cache, a: Attr)
    requires PointFlag(k)
    ensures k != FlagOf(c, a)
  {
    var fl := FlagOf(c, a);
    assert fl[|fl| - 1] == AttrName(a)[|AttrName(a)| - 1];
    assert ReplFlag[|ReplFlag| - 1] == 'y' && BpFlag[|BpFlag| - 1] == 'h';
    assert StrideFlag[|StrideFlag| - 1] == 'n' && StridePcFlag[|StridePcFlag| - 1] == 'n' && GhbFlag[|GhbFlag| - 1] == 'n';
  }

  /** A sample with no negative number: its sizes render as digits. */
  predicate NonNegative(s: Sample)
  {
    forall c: Cache, a: Attr :: SettingValue(s, c, a) >= 0
  }

  /** What the runner does to `PARAMS.in`, step by step. */
  datatype Step = Resize(sample: Sample) | Set(choice: Choice)

  predicate ValidStep(st: Step)
  {
    match st
    case Resize(s) => NonNegative(s)
    case Set(ch) => PrefetcherSetting(ch.prefetcher).Some?
  }

  function Apply(f: ParamsFile, st: Step): (r: ParamsFile)
    requires DistinctKeys(f) && ValidStep(st)
    ensures Keys(r) == Keys(f) && DistinctKeys(r)
  {
    match st
    case Resize(s) => ModifyCacheSize(f, s)
    case Set(ch) => PointEdits(f, ch).value
  }

  /** The file after a sequence of steps. */
  function Replay(f: ParamsFile, steps: seq<Step>): (r: ParamsFile)
    requires DistinctKeys(f) && forall i :: 0 <= i < |steps| ==> ValidStep(steps[i])
    ensures Keys(r) == Keys(f) && DistinctKeys(r)
    decreases |steps|
  {
    if |steps| == 0 then f
    else Replay(Apply(f, steps[0]), steps[1..])
  }

  /** Independent reading: the original file with only the latest sample's
      sizes and the latest point's settings applied. */
  function Latest(f: ParamsFile, s: Option<Sample>, ch: Option<Choice>): ParamsFile
    requires DistinctKeys(f)
    requires s.Some? ==> NonNegative(s.value)
    requires ch.Some? ==> PrefetcherSetting(ch.value.prefetcher).Some?
  {
    var g := if s.Some? then ModifyCacheSize(f, s.value) else f;
    if ch.Some? then PointEdits(g, ch.value).value else g
  }

  function LastResize(steps: seq<Step>): (r: Option<Sample>)
    ensures r.Some? ==> Resize(r.value) in steps
  {
    if |steps| == 0 then None
    else if steps[|steps| - 1].Resize? then Some(steps[|steps| - 1].sample)
    else LastResize(steps[..|steps| - 1])
  }

  function LastSet(steps: seq<Step>): (r: Option<Choice>)
    ensures r.Some? ==> Set(r.value) in steps
  {
    if |steps| == 0 then None
    else if steps[|steps| - 1].Set? then Some(steps[|steps| - 1].choice)
    else LastSet(steps[..|steps| - 1])
  }

  /** Two files with the same keys agree wherever `Get` agrees. */
  lemma SameFile(a: ParamsFile, b: ParamsFile)
    requires Keys(a) == Keys(b) && DistinctKeys(a)
    requires forall k :: Get(a, k) == Get(b, k)
    ensures a == b
  {
    DictExt(a, b);
  }

  lemma HasKeySame(a: ParamsFile, b: ParamsFile, k: string)
    requires Keys(a) == Keys(b)
    ensures HasKey(a, k) <==> HasKey(b, k)
  {
    Gem5Runner.HasKeyOfKeys(a, b, k);
  }

  /** A later sample's sizes replace an earlier sample's. */
  lemma ResizeTwice(f: ParamsFile, s1: Sample, s2: Sample)
    requires DistinctKeys(f) && NonNegative(s1)
    ensures ModifyCacheSize(ModifyCacheSize(f, s1), s2) == ModifyCacheSize(f, s2)
  {
    var g := ModifyCacheSize(f, s1);
    var x, y := ModifyCacheSize(g, s2), ModifyCacheSize(f, s2);
    forall k ensures Get(x, k) == Get(y, k) {
      if exists c, a :: k == FlagOf(c, a) {
        var c, a :| k == FlagOf(c, a);
        CacheSizeEffect(g, s2, c, a);
        CacheSizeEffect(f, s1, c, a);
        CacheSizeEffect(f, s2, c, a);
        if (c, a) != (ICache, Cycles) && Get(f, k).Some? {
          DigitsSubTwice(Get(f, k).value, SettingValue(s1, c, a), SettingValue(s2, c, a));
        }
      } else {
        CacheSizeKeeps(g, s2, k);
        CacheSizeKeeps(f, s1, k);
        CacheSizeKeeps(f, s2, k);
      }
    }
    SameFile(x, y);
  }

  /** A later point's settings replace an earlier point's. */
  lemma SetTwice(f: ParamsFile, a: Choice, b: Choice)
    requires DistinctKeys(f) && PrefetcherSetting(a.prefetcher).Some? && PrefetcherSetting(b.prefetcher).Some?
    ensures PointEdits(PointEdits(f, a).value, b).value == PointEdits(f, b).value
  {
    var g := PointEdits(f, a).value;
    var x, y := PointEdits(g, b).value, PointEdits(f, b).value;
    forall k ensures Get(x, k) == Get(y, k) {
      PointEditsEffect(g, b, k);
      PointEditsEffect(f, a, k);
      PointEditsEffect(f, b, k);
      HasKeySame(g, f, k);
      if PointFlag(k) && !HasKey(f, k) {
        assert Get(x, k) == None && Get(y, k) == None;
      }
    }
    SameFile(x, y);
  }

  /** Resizing and a point's settings touch different flags, so their
      order does not matter. */
  lemma ResizeSetCommute(f: ParamsFile, s: Sample, ch: Choice)
    requires DistinctKeys(f) && PrefetcherSetting(ch.prefetcher).Some?
    ensures ModifyCacheSize(PointEdits(f, ch).value, s) == PointEdits(ModifyCacheSize(f, s), ch).value
  {
    var p := PointEdits(f, ch).value;
    var m := ModifyCacheSize(f, s);
    var x, y := ModifyCacheSize(p, s), PointEdits(m, ch).value;
    forall k ensures Get(x, k) == Get(y, k) {
      PointEditsEffect(f, ch, k);
      PointEditsEffect(m, ch, k);
      HasKeySame(m, f, k);
      if exists c, a :: k == FlagOf(c, a) {
        var c, a :| k == FlagOf(c, a);
        CacheSizeEffect(p, s, c, a);
        CacheSizeEffect(f, s, c, a);
        if PointFlag(k) {
          PointFlagNotCache(k, c, a);
        }
      } else {
        CacheSizeKeeps(p, s, k);
        CacheSizeKeeps(f, s, k);
        if PointFlag(k) && !HasKey(f, k) {
          assert Get(x, k) == None;
        }
      }
    }
    SameFile(x, y);
  }

  /** The file after any run of steps is the original with only the
      latest sample's sizes and the latest point's settings: what a point
      runs with does not depend on the points before it. */
  lemma {:induction false} ReplayIsLatest(f: ParamsFile, steps: seq<Step>)
    requires DistinctKeys(f) && forall i :: 0 <= i < |steps| ==> ValidStep(steps[i])
    ensures LastResize(steps).Some? ==> NonNegative(LastResize(steps).value)
    ensures LastSet(steps).Some? ==> PrefetcherSetting(LastSet(steps).value.prefetcher).Some?
    ensures Replay(f, steps) == Latest(f, LastResize(steps), LastSet(steps))
    decreases |steps|
  {
    if |steps| > 0 {
      ReplayLast(f, steps);
      ReplayIsLatest(f, steps[..|steps| - 1]);
      LatestStep(f, steps);
    }
  }

  /** Replaying a run is replaying all but its last step, then that step. */
  lemma {:induction false} ReplayLast(f: ParamsFile, steps: seq<Step>)
    requires DistinctKeys(f) && forall i :: 0 <= i < |steps| ==> ValidStep(steps[i])
    requires |steps| > 0
    ensures Replay(f, steps) == Apply(Replay(f, steps[..|steps| - 1]), steps[|steps| - 1])
    decreases |steps|
  {
    if |steps| > 1 {
      TailValid(steps);
      ReplayLast(Apply(f, steps[0]), steps[1..]);
      InitOfTail(steps);
    }
  }

  lemma TailValid(steps: seq<Step>)
    requires |steps| > 0 && forall i :: 0 <= i < |steps| ==> ValidStep(steps[i])
    ensures forall i :: 0 <= i < |steps| - 1 ==> ValidStep(steps[1..][i])
  {
    forall i | 0 <= i < |steps| - 1 ensures ValidStep(steps[1..][i]) {
      assert steps[1..][i] == steps[i + 1];
    }
  }

  lemma InitOfTail<T>(s: seq<T>)
    requires |s| > 1
    ensures s[1..][..|s| - 2] == s[..|s| - 1][1..]
    ensures s[1..][|s| - 2] == s[|s| - 1]
  {
  }

  /** One more step on the latest file is the latest file of the longer run. */
  lemma LatestStep(f: ParamsFile, steps: seq<Step>)
    requires DistinctKeys(f) && |steps| > 0 && ValidStep(steps[|steps| - 1])
    requires LastResize(steps[..|steps| - 1]).Some? ==> NonNegative(LastResize(steps[..|steps| - 1]).value)
    requires LastSet(steps[..|steps| - 1]).Some? ==> PrefetcherSetting(LastSet(steps[..|steps| - 1]).value.prefetcher).Some?
    ensures LastResize(steps).Some? ==> NonNegative(LastResize(steps).value)
    ensures LastSet(steps).Some? ==> PrefetcherSetting(LastSet(steps).value.prefetcher).Some?
    ensures Apply(Latest(f, LastResize(steps[..|steps| - 1]), LastSet(steps[..|steps| - 1])), steps[|steps| - 1])
         == Latest(f, LastResize(steps), LastSet(steps))
  {
    var rs, pc := LastResize(steps[..|steps| - 1]), LastSet(steps[..|steps| - 1]);
    match steps[|steps| - 1]
    case Resize(s) =>
      assert LastResize(steps) == Some(s) && LastSet(steps) == pc;
      LatestThenResize(f, rs, pc, s);
    case Set(ch) =>
      assert LastResize(steps) == rs && LastSet(steps) == Some(ch);
      LatestThenSet(f, rs, pc, ch);
  }

  /** Resizing the latest file replaces its sample and keeps its point. */
  lemma LatestThenResize(f: ParamsFile, rs: Option<Sample>, pc: Option<Choice>, s: Sample)
    requires DistinctKeys(f) && NonNegative(s)
    requires rs.Some? ==> NonNegative(rs.value)
    requires pc.Some? ==> PrefetcherSetting(pc.value.prefetcher).Some?
    ensures Apply(Latest(f, rs, pc), Resize(s)) == Latest(f, Some(s), pc)
  {
    var g := if rs.Some? then ModifyCacheSize(f, rs.value) else f;
    if rs.Some? {
      ResizeTwice(f, rs.value, s);
    }
    if pc.Some? {
      ResizeSetCommute(g, s, pc.value);
    }
  }

  /** A point's settings on the latest file replace its point and keep
      its sample. */
  lemma LatestThenSet(f: ParamsFile, rs: Option<Sample>, pc: Option<Choice>, ch: Choice)
    requires DistinctKeys(f) && PrefetcherSetting(ch.prefetcher).Some?
    requires rs.Some? ==> NonNegative(rs.value)
    requires pc.Some? ==> PrefetcherSetting(pc.value.prefetcher).Some?
    ensures Apply(Latest(f, rs, pc), Set(ch)) == Latest(f, rs, Some(ch))
  {
    var g := if rs.Some? then ModifyCacheSize(f, rs.value) else f;
    if pc.Some? {
      SetTwice(g, pc.value, ch);
    }
  }

  /** `prefetchers_names.get(prefetcher, f"{prefetcher}")`. */
  function PrefetcherName(names: Dict<string, string>, p: Option<string>): string
  {
    match p
    case None => "None"
    case Some(x) =>
      match Get(names, x)
      case Some(n) => n
      case None => x
  }

  /** `cache_policy_map.get(policy_Cache, policy_Cache)`; `None` stays
      `None`, which `os.path.join` rejects. */
  function PolicyFolder(names: Dict<string, string>, policy: Option<string>): Option<string>
  {
    match policy
    case None => None
    case Some(x) =>
      match Get(names, x)
      case Some(n) => Some(n)
      case None => Some(x)
  }

  /** The folder a point's runs write below:
      `<output>/Sample{index}/<branch>/<prefetcher name>`. */
  function PrefetcherFolder(outputRoot: string, index: nat, branch: Option<string>, prefetcherName: string): string
  {
    PathJoin(PathJoin(OldChampSimRunner.SampleFolder(outputRoot, index), Show(branch)), prefetcherName)
  }

  /** `f"{self.simulation_instructions}"`. */
  function ShowInt(n: Option<int>): string
  {
    match n
    case None => "None"
    case Some(v) => IntToString(v)
  }

  /** The fixed inputs of the runs. */
  datatype Env = Env(scarabPath: string, sim: Option<int>, policyNames: Dict<string, string>)

  /** `exec_single_trace`: the command of one trace, whose results go to
      `<folder>/<trace name>/<policy folder>`; a `None` policy makes the
      worker raise before anything runs. */
  function TraceCommand(env: Env, folder: string, traceFile: string, tracePath: string, policy: Option<string>): (r: Option<seq<string>>)
    ensures r.Some? <==> policy.Some?
    ensures r.Some? ==> |r.value| == 9
    ensures r.Some? ==> r.value[8] == "--output_dir=" + Gem5Runner.JoinAll(folder, [NewChampSimRunner.TraceName(traceFile), PolicyFolder(env.policyNames, policy).value])
    ensures r.Some? ==> r.value[5] == "--cbp_trace_r0=" + tracePath && r.value[6] == "--inst_limit=" + ShowInt(env.sim)
  {
    match PolicyFolder(env.policyNames, policy)
    case None => None
    case Some(pname) =>
      Some(MemtraceCommand(env, tracePath, Gem5Runner.JoinAll(folder, [NewChampSimRunner.TraceName(traceFile), pname])))
  }

  /** The Scarab command line that replays trace `tracePath` in memtrace
      mode into the results folder `out`. */
  function MemtraceCommand(env: Env, tracePath: string, out: string): (cmd: seq<string>)
    ensures |cmd| == 9 && cmd[0] == PathJoin(env.scarabPath, "src/scarab")
    ensures cmd[5] == "--cbp_trace_r0=" + tracePath && cmd[6] == "--inst_limit=" + ShowInt(env.sim)
    ensures cmd[8] == "--output_dir=" + out
  {
    [PathJoin(env.scarabPath, "src/scarab"),
     "--frontend", "memtrace",
     "--fetch_off_path_ops", "0",
     "--cbp_trace_r0=" + tracePath,
     "--inst_limit=" + ShowInt(env.sim),
     "--memtrace_modules_log=" + PathJoin(tracePath, "../../bin"),
     "--output_dir=" + out]
  }

  /** The trace files `prepare_execution` submits. */
  predicate IsTraceFile(name: string)
  {
    EndsWith(name, ".trace.gz") || EndsWith(name, ".champsimtrace.xz")
  }

  /** `prepare_execution`'s loop: the trace files of a folder listing, in
      listing order, each with its path. */
  function TraceJobs(folder: string, listing: seq<string>): (r: seq<(string, string)>)
    ensures |r| <= |listing|
    ensures forall x :: (x, PathJoin(folder, x)) in r <==> x in listing && IsTraceFile(x)
    ensures forall job :: job in r ==> job.1 == PathJoin(folder, job.0)
    decreases |listing|
  {
    if |listing| == 0 then []
    else
      var rest := TraceJobs(folder, listing[1..]);
      var x := listing[0];
      assert forall y :: y in listing <==> y == x || y in listing[1..] by {
        assert listing == [x] + listing[1..];
      }
      if IsTraceFile(x) then [(x, PathJoin(folder, x))] + rest else rest
  }

  /** The results of a trace `tool.name.n1.n2.trace.gz` land in a folder
      the Scarab result script reads the name back from, so the two
      scripts agree on that naming. */
  lemma TraceFolderReadBack(tool: string, name: seq<string>, n1: string, n2: string)
    requires |name| > 0
    requires PlainPart(tool) && PlainPart(n1) && PlainPart(n2)
    requires forall i :: 0 <= i < |name| ==> PlainPart(name[i])
    ensures var base := Join([tool] + name + [n1, n2, "trace"], '.');
      NewChampSimRunner.TraceName(base + ".gz") == base &&
      ScarabResults.ParseTraceName(base) == Join(name, '.')
  {
    TraceWord();
    var parts := NameParts(tool, name, n1, n2, "trace");
    PlainBase(parts);
    GzTraceName(Join(parts, '.'));
    ScarabResults.TraceNameOf(tool, name, n1, n2, "trace");
  }

  /** The dot-separated parts of a trace file name. */
  function NameParts(tool: string, name: seq<string>, n1: string, n2: string, ext: string): (r: seq<string>)
    requires PlainPart(tool) && PlainPart(n1) && PlainPart(n2) && PlainPart(ext)
    requires forall i :: 0 <= i < |name| ==> PlainPart(name[i])
    ensures r == [tool] + name + [n1, n2, ext]
    ensures |r| > 0 && forall i :: 0 <= i < |r| ==> PlainPart(r[i])
  {
    var r := [tool] + name + [n1, n2, ext];
    assert forall i :: 0 <= i < |r| ==> PlainPart(r[i]) by {
      forall i | 0 <= i < |r| ensures PlainPart(r[i]) {
        if 1 <= i < |name| + 1 {
          assert r[i] == name[i - 1];
        }
      }
    }
    r
  }

  lemma TraceWord()
    ensures PlainPart("trace")
  {
    assert "trace" == ['t', 'r', 'a', 'c', 'e'];
  }

  /** `os.path.splitext` of `<base>.gz` is `<base>`. */
  lemma GzTraceName(base: string)
    requires '/' !in base && |base| > 0 && base[0] != '.'
    ensures NewChampSimRunner.TraceName(base + ".gz") == base
  {
    assert base + ".gz" == base + "." + "gz";
    assert '/' !in "gz" && '.' !in "gz" by {
      assert "gz" == ['g', 'z'];
    }
    SplitExtOf(base, "gz");
  }

  /** Plain parts joined with dots: no `/`, and no leading dot. */
  lemma PlainBase(parts: seq<string>)
    requires |parts| > 0
    requires forall i :: 0 <= i < |parts| ==> PlainPart(parts[i])
    ensures '/' !in Join(parts, '.')
    ensures |Join(parts, '.')| > 0 && Join(parts, '.')[0] != '.'
  {
    JoinFree(parts, '.', '/');
    JoinHead(parts, '.');
  }

  /** A name part with no `.` or `/` in it. */
  predicate PlainPart(x: string)
  {
    |x| > 0 && x[0] != '.' && '.' !in x && '/' !in x
  }

  lemma {:induction false} JoinFree(parts: seq<string>, sep: char, c: char)
    requires c != sep
    requires forall i :: 0 <= i < |parts| ==> c !in parts[i]
    ensures c !in Join(parts, sep)
    decreases |parts|
  {
    if |parts| > 1 {
      assert forall i :: 0 <= i < |parts[1..]| ==> c !in parts[1..][i] by {
        forall i | 0 <= i < |parts[1..]| ensures c !in parts[1..][i] {
          assert parts[1..][i] == parts[i + 1];
        }
      }
      JoinFree(parts[1..], sep, c);
    }
  }

  lemma JoinHead(parts: seq<string>, sep: char)
    requires |parts| > 0 && |parts[0]| > 0
    ensures |Join(parts, sep)| > 0 && Join(parts, sep)[0] == parts[0][0]
  {
  }

  /** The sweep points in the script's loop order: sample (numbered from
      5), trace sub-directory, cache policy, branch predictor, prefetcher. */
  datatype Point = Point(index: nat, sample: Sample, subdir: string, choice: Choice)

  function ToPoint(x: ((((((nat, Sample), string), Option<string>), Option<string>), Option<string>))): Point
  {
    Point(x.0.0.0.0.0, x.0.0.0.0.1, x.0.0.0.1, Choice(x.0.0.1, x.0.1, x.1))
  }

  function Points(samples: seq<Sample>, subdirs: seq<string>, policies: seq<string>, branches: seq<string>, prefetchers: seq<string>): seq<Point>
  {
    var loops := Product(Product(Product(Product(Enumerate(samples, 5), subdirs), OrNone(policies)), OrNone(branches)), OrNone(prefetchers));
    seq(|loops|, i requires 0 <= i < |loops| => ToPoint(loops[i]))
  }

  function PointIndex(s: nat, d: nat, p: nat, b: nat, f: nat, nd: nat, np: nat, nb: nat, nf: nat): nat
  {
    Lin(Lin(Lin(Lin(s, nd, d), np, p), nb, b), nf, f)
  }

  /** The point of sample `s`, sub-directory `d`, policy `p`, branch
      predictor `b` and prefetcher `f` is visited at position
      `(((s * D + d) * P + p) * B + b) * F + f` and numbered `s + 5`. */
  lemma PointAt(samples: seq<Sample>, subdirs: seq<string>, policies: seq<string>, branches: seq<string>, prefetchers: seq<string>,
                s: nat, d: nat, p: nat, b: nat, f: nat)
    requires s < |samples| && d < |subdirs| && p < |OrNone(policies)| && b < |OrNone(branches)| && f < |OrNone(prefetchers)|
    ensures var k := PointIndex(s, d, p, b, f, |subdirs|, |OrNone(policies)|, |OrNone(branches)|, |OrNone(prefetchers)|);
      k < |Points(samples, subdirs, policies, branches, prefetchers)| &&
      Points(samples, subdirs, policies, branches, prefetchers)[k] ==
        Point(s + 5, samples[s], subdirs[d], Choice(OrNone(policies)[p], OrNone(branches)[b], OrNone(prefetchers)[f]))
  {
    LoopsAt(Enumerate(samples, 5), subdirs, OrNone(policies), OrNone(branches), OrNone(prefetchers), s, d, p, b, f);
  }

  /** The five nested loops over any lists. */
  lemma LoopsAt<A, B, C, D, E>(e: seq<A>, subdirs: seq<B>, P: seq<C>, B: seq<D>, F: seq<E>, s: nat, d: nat, p: nat, b: nat, f: nat)
    requires s < |e| && d < |subdirs| && p < |P| && b < |B| && f < |F|
    ensures var k := PointIndex(s, d, p, b, f, |subdirs|, |P|, |B|, |F|);
      var l4 := Product(Product(Product(Product(e, subdirs), P), B), F);
      k < |l4| && l4[k] == ((((e[s], subdirs[d]), P[p]), B[b]), F[f])
  {
    var l1 := Product(e, subdirs);
    var l2 := Product(l1, P);
    var l3 := Product(l2, B);
    var i1 := ProductIndex(e, subdirs, s, d);
    var i2 := ProductIndex(l1, P, i1, p);
    var i3 := ProductIndex(l2, B, i2, b);
    var i4 := ProductIndex(l3, F, i3, f);
  }

  // ---------------------------------------------------- the worker pool

  /** The folder `execute_all_traces` assigns to `self.output_dir` before
      it queues a point's traces. */
  function PointFolder(outputRoot: string, names: Dict<string, string>, pt: Point): string
  {
    PrefetcherFolder(outputRoot, pt.index, pt.choice.branch, PrefetcherName(names, pt.choice.prefetcher))
  }

  /** Two points of sample 5 that differ only in the prefetcher, each
      queueing one trace: as written, the first point's job, started after
      the loop reached the second point, reads `self.output_dir` as the
      second point's folder and writes its results there. */
  lemma StaleFolderExample()
    ensures var pt := Point(5, Sample(CacheConfig(1, 1, 1), CacheConfig(1, 1, 1), CacheConfig(1, 1, 1), CacheConfig(1, 1, 1)), "x", Choice(None, None, Some("a")));
      var folders := [PointFolder("out", [], pt), PointFolder("out", [], pt.(choice := pt.choice.(prefetcher := Some("b"))))];
      && Schedule([0, 1], [2, 2], 2)
      && ReadAtStart(folders, [0, 1], [2, 2])[0] == folders[1]
      && folders[1] != folders[0]
      && ReadAtQueue(folders, [0, 1])[0] == folders[0]
  {
    var pt := Point(5, Sample(CacheConfig(1, 1, 1), CacheConfig(1, 1, 1), CacheConfig(1, 1, 1), CacheConfig(1, 1, 1)), "x", Choice(None, None, Some("a")));
    var fa := PointFolder("out", [], pt);
    var fb := PointFolder("out", [], pt.(choice := pt.choice.(prefetcher := Some("b"))));
    assert fa[|fa| - 1] == 'a';
    assert fb[|fb| - 1] == 'b';
    StaleRead(fa, fb);
  }

  /** With the folder captured when the job is queued, a job queued by
      the point of sample `s`, sub-directory `d`, policy `p`, branch
      predictor `b` and prefetcher `f` writes below
      `Sample{s + 5}/<b>/<name of f>`, however late it starts. */
  lemma QueuedFolderOfPoint(outputRoot: string, names: Dict<string, string>, samples: seq<Sample>, subdirs: seq<string>,
                            policies: seq<string>, branches: seq<string>, prefetchers: seq<string>, owners: seq<nat>,
                            j: nat, s: nat, d: nat, p: nat, b: nat, f: nat)
    requires s < |samples| && d < |subdirs| && p < |OrNone(policies)| && b < |OrNone(branches)| && f < |OrNone(prefetchers)|
    requires j < |owners| && owners[j] == PointIndex(s, d, p, b, f, |subdirs|, |OrNone(policies)|, |OrNone(branches)|, |OrNone(prefetchers)|)
    requires forall i :: 0 <= i < |owners| ==> owners[i] < |Points(samples, subdirs, policies, branches, prefetchers)|
    ensures var pts := Points(samples, subdirs, policies, branches, prefetchers);
      var folders := seq(|pts|, i requires 0 <= i < |pts| => PointFolder(outputRoot, names, pts[i]));
      ReadAtQueue(folders, owners)[j] ==
        PrefetcherFolder(outputRoot, s + 5, OrNone(branches)[b], PrefetcherName(names, OrNone(prefetchers)[f]))
  {
    PointAt(samples, subdirs, policies, branches, prefetchers, s, d, p, b, f);
  }

  /** The command line `main` accepts. */
  datatype Args = Args(threads: int, scarabPath: string, traceDir: string, outputDir: string, sim: Option<int>, warmup: string, param: string)

  /** `is_number`: whether `int()` accepts the text. */
  predicate IsNumber(v: string)
  {
    PyInt(v).Some?
  }

  /** `main`'s checks: fewer than eight entries or a thread count below 1
      end the program; the instruction count is kept when `int()` accepts
      it, sign included. */
  function ParseArgs(argv: seq<string>): (r: Result<Args, string>)
    ensures |argv| < 8 ==> r.Failure?
    ensures |argv| >= 8 ==> (r.Success? <==> PyInt(argv[1]).Some? && PyInt(argv[1]).value >= 1)
    ensures r.Success? ==> PyInt(argv[1]) == Some(r.value.threads)
    ensures r.Success? ==> (r.value.sim.Some? <==> IsNumber(argv[5])) && (r.value.sim.Some? ==> PyInt(argv[5]) == r.value.sim)
    ensures r.Success? ==> r.value.warmup == argv[6] && r.value.param == argv[7] && r.value.outputDir == argv[4]
  {
    if |argv| < 8 then Failure("usage")
    else
      match PyInt(argv[1])
      case None => Failure("Please provide a valid number of threads.")
      case Some(t) =>
        if t < 1 then Failure("Please provide a valid number of threads.")
        else
          var sim := if IsNumber(argv[5]) then PyInt(argv[5]) else None;
          Success(Args(t, argv[2], argv[3], argv[4], sim, argv[6], argv[7]))
  }

  const MainPolicies: seq<string> := ["0", "1", "3"]
  const MainPolicyNames: Dict<string, string> := [("0", "REPL_TRUE_LRU"), ("1", "REPL_RANDOM"), ("3", "REPL_ROUND_ROBIN")]
  const MainBranches: seq<string> := ["gshare", "tagescl"]
  const MainPrefetchers: seq<string> := ["0", "1"]
  const MainPrefetcherNames: Dict<string, string> := [("0", "stride"), ("1", "stridepc")]

  /** `main`'s options never make the runner exit: both prefetcher options
      are in the map, and every policy has a folder. */
  lemma MainOptionsValid()
    ensures forall i :: 0 <= i < |MainPrefetchers| ==> PrefetcherSetting(Some(MainPrefetchers[i])).Some?
    ensures forall i :: 0 <= i < |MainPolicies| ==> PolicyFolder(MainPolicyNames, Some(MainPolicies[i])).Some?
  {
  }

  /** The policy folders `main` writes are read back by the Scarab result
      script as the policy names it plots. */
  lemma MainPolicyFoldersPlotted()
    ensures PolicyFolder(MainPolicyNames, Some("0")) == Some("REPL_TRUE_LRU")
    ensures PolicyFolder(MainPolicyNames, Some("1")) == Some("REPL_RANDOM")
    ensures PolicyFolder(MainPolicyNames, Some("3")) == Some("REPL_ROUND_ROBIN")
    ensures ScarabResults.ParsePolicyName(PolicyFolder(MainPolicyNames, Some("0")).value) == "LRU"
    ensures ScarabResults.ParsePolicyName(PolicyFolder(MainPolicyNames, Some("1")).value) == "RANDOM"
    ensures ScarabResults.ParsePolicyName(PolicyFolder(MainPolicyNames, Some("3")).value) == "ROUND ROBIN (FIFO)"
  {
    var m := MainPolicyNames;
    assert DistinctKeys(m);
    assert m[0] == ("0", "REPL_TRUE_LRU") && m[1] == ("1", "REPL_RANDOM") && m[2] == ("3", "REPL_ROUND_ROBIN");
    ScarabResults.RunnerPoliciesPlotted();
  }
}
