/** The gem5 runner (testsGem5/gem5.py): for every binary and cache sample
    it rewrites the assignments of a `my_system.py` template (cache sizes,
    then the last-level replacement policy, its prefetcher and the branch
    predictor), rewrites `simulate.py` (binary path and instruction limit),
    and starts `gem5.opt` with one output directory per point.

    A configuration file is modelled by the assignments its patterns find:
    target (`self.l3cache.size`) to right-hand side (`'8MB'`).  Each `re.sub`
    of the script matches one whole right-hand side, so it replaces the
    value of its target when the pattern finds it and leaves the text alone
    when it does not.  A pattern also finds its target inside a comment line,
    and the shipped templates assign two targets only there: the last-level
    prefetcher (`#self.l3cache.prefetcher = TaggedPrefetcher()`) and the
    instruction limit (`#system.cpu.max_insts_any_thread = 6000`).  Those
    rewrites change a comment that gem5 never reads. */
module Gem5Runner {
  import opened Wrappers
  import opened PyStr
  import opened OrderedDict
  import opened Sweep
  import opened RunNames
  import opened OldChampSimConfig
  import OldChampSimRunner

  /** `CacheConfig.block_size`. */
  const BlockSize: int := 64

  /** `CacheConfig.calculate`: the capacity in bytes. */
  function Capacity(c: CacheConfig): int
  {
    BlockSize * c.sets * c.ways
  }

  const KiB: nat := 1024
  const MiB: nat := 1048576

  /** How a reader takes a size text `<n><unit>` back: the number and the
      factor of its unit (`MB`, `kB` or `B`). */
  function ReadSize(r: string): Option<(int, nat)>
  {
    if EndsWith(r, "MB") then Scaled(PyInt(r[..|r| - 2]), MiB)
    else if EndsWith(r, "kB") then Scaled(PyInt(r[..|r| - 2]), KiB)
    else if EndsWith(r, "B") then Scaled(PyInt(r[..|r| - 1]), 1)
    else None
  }

  function Scaled(q: Option<int>, f: nat): Option<(int, nat)>
  {
    match q
    case None => None
    case Some(v) => Some((v, f))
  }

  /** Read back, `rs` is `n` rounded down to a whole number of its unit, in
      the largest unit that leaves at least one (mebibytes at most). */
  predicate RoundedDown(n: int, rs: Option<(int, nat)>)
  {
    rs.Some? && rs.value.1 > 0 &&
    rs.value.0 * rs.value.1 <= n < rs.value.0 * rs.value.1 + rs.value.1 &&
    (rs.value.1 == MiB || n < 1024 * rs.value.1) &&
    (rs.value.1 == 1 || rs.value.0 >= 1)
  }

  /** `get_size_readable`. */
  function SizeReadable(n: int): (r: string)
    ensures RoundedDown(n, ReadSize(r))
  {
    if n >= MiB then
      var q := n / MiB;
      var d := NatToString(q);
      ParseRendered(q);
      ReadsBack(d, 'M', q);
      FloorBounds(n, MiB);
      RoundedAt(n, q, MiB);
      d + "MB"
    else if n >= KiB then
      var q := n / KiB;
      var d := NatToString(q);
      ParseRendered(q);
      ReadsBack(d, 'k', q);
      FloorBounds(n, KiB);
      RoundedAt(n, q, KiB);
      d + "kB"
    else
      var d := IntToString(n);
      ParseRenderedInt(n);
      LastDigit(n);
      ReadsBackBytes(d, n);
      RoundedAt(n, n, 1);
      d + "B"
  }

  lemma RoundedAt(n: int, q: int, f: nat)
    requires f > 0 && q * f <= n < q * f + f
    requires f == MiB || n < 1024 * f
    requires f == 1 || q >= 1
    ensures RoundedDown(n, Some((q, f)))
  {
  }

  /** Integer division rounds a number at least one unit large down to a
      positive whole number of units. */
  lemma FloorBounds(n: int, f: nat)
    requires f > 0 && n >= f
    ensures n / f >= 1 && (n / f) * f <= n < (n / f) * f + f
  {
    var q, m := n / f, n % f;
    assert n == q * f + m && 0 <= m < f;
  }

  lemma ReadsBack(d: string, u: char, q: int)
    requires |d| > 0 && PyInt(d) == Some(q)
    requires u == 'M' || u == 'k'
    ensures ReadSize(d + [u, 'B']) == Some((q, if u == 'M' then MiB else KiB))
  {
    var r := d + [u, 'B'];
    assert r[..|r| - 2] == d;
    assert r[|r| - 2..] == [u, 'B'];
  }

  lemma ReadsBackBytes(d: string, q: int)
    requires |d| > 0 && '0' <= d[|d| - 1] <= '9' && PyInt(d) == Some(q)
    ensures ReadSize(d + "B") == Some((q, 1))
  {
    var r := d + "B";
    assert r[|r| - 2] == d[|d| - 1];
    assert r[..|r| - 1] == d;
  }

  lemma LastDigit(n: int)
    ensures var d := IntToString(n); '0' <= d[|d| - 1] <= '9'
  {
    if n < 0 {
      var m := NatToString(-n);
      var d := IntToString(n);
      assert d == "-" + m;
      assert d[|d| - 1] == m[|m| - 1];
    }
  }

  /** The capacities of the sample `main` runs: 64 sets of 8 ways are
      32 kB, 512 sets of 8 ways 256 kB, 8192 sets of 16 ways 8 MB. */
  lemma ReadableExamples()
    ensures SizeReadable(Capacity(CacheConfig(64, 8, 4))) == "32kB"
    ensures SizeReadable(Capacity(CacheConfig(512, 8, 8))) == "256kB"
    ensures SizeReadable(Capacity(CacheConfig(8192, 16, 22))) == "8MB"
  {
    Readable32k();
    Readable256k();
    Readable8M();
  }

  lemma Readable32k()
    ensures SizeReadable(32768) == "32kB"
  {
    assert 32768 / KiB == 32;
    assert NatToString(32) == "32" by {
      assert NatToString(3) == "3";
    }
  }

  lemma Readable256k()
    ensures SizeReadable(262144) == "256kB"
  {
    assert 262144 / KiB == 256;
    assert NatToString(256) == "256" by {
      assert NatToString(2) == "2";
      assert NatToString(25) == "25";
    }
  }

  lemma Readable8M()
    ensures SizeReadable(8388608) == "8MB"
  {
    assert 8388608 / MiB == 8;
    assert NatToString(8) == "8";
  }

  /** A configuration file as its assignments, target to right-hand side. */
  type Template = Dict<string, string>

  /** One `re.sub` on an assignment: the value changes when the pattern
      finds the target in the file, commented out or not, and nothing else
      changes. */
  function Rewrite(t: Template, target: string, rhs: string): (r: Template)
    ensures Keys(r) == Keys(t)
    ensures forall k :: HasKey(r, k) <==> HasKey(t, k)
    ensures DistinctKeys(t) ==> DistinctKeys(r)
    ensures DistinctKeys(t) && HasKey(t, target) ==> Get(r, target) == Some(rhs)
    ensures !HasKey(t, target) ==> r == t
    ensures forall k :: k != target ==> Get(r, k) == Get(t, k)
  {
    if HasKey(t, target) then
      var r := Put(t, target, rhs);
      assert forall k :: HasKey(r, k) <==> HasKey(t, k) by {
        forall k ensures HasKey(r, k) <==> HasKey(t, k) {
          if HasKey(r, k) {
            var i :| 0 <= i < |r| && r[i].0 == k;
            assert Keys(r)[i] == Keys(t)[i];
          }
          if HasKey(t, k) {
            var i :| 0 <= i < |t| && t[i].0 == k;
            assert Keys(r)[i] == Keys(t)[i];
          }
        }
      }
      r
    else t
  }

  /** The objects of `my_system.py` the four levels configure. */
  const CacheObjects: seq<string> := ["self.cpu.icache", "self.cpu.dcache", "self.l2cache", "self.l3cache"]

  /** The parameters `modify_size_cache` has a pattern for, per level. */
  const Params: seq<string> := ["size", "assoc", "mshrs", "tag_latency", "data_latency", "response_latency"]

  /** The attributes a `CacheConfig` object has; a parameter is rewritten
      only when `hasattr` finds it among them. */
  const ConfigAttributes: seq<string> := ["sets", "ways", "latency", "block_size", "calculate", "size"]

  /** `getattr(cache_config, param)` rendered; the size is quoted. */
  function ParamValue(c: CacheConfig, p: string): string
    requires p in ConfigAttributes
  {
    if p == "size" then "'" + SizeReadable(Capacity(c)) + "'"
    else if p == "sets" then IntToString(c.sets)
    else if p == "ways" then IntToString(c.ways)
    else if p == "latency" then IntToString(c.latency)
    else if p == "block_size" then IntToString(BlockSize)
    else IntToString(Capacity(c))
  }

  /** The inner loop of `modify_size_cache` for one level. */
  function LevelEdits(t: Template, obj: string, c: CacheConfig, ps: seq<string>): Template
    decreases |ps|
  {
    if |ps| == 0 then t
    else
      var t' := if ps[0] in ConfigAttributes then Rewrite(t, obj + "." + ps[0], ParamValue(c, ps[0])) else t;
      LevelEdits(t', obj, c, ps[1..])
  }

  /** Parameters a `CacheConfig` has no attribute for are skipped. */
  lemma {:induction false} SkipsMissing(t: Template, obj: string, c: CacheConfig, ps: seq<string>)
    requires forall i :: 0 <= i < |ps| ==> ps[i] !in ConfigAttributes
    ensures LevelEdits(t, obj, c, ps) == t
    decreases |ps|
  {
    if |ps| > 0 {
      SkipsMissing(t, obj, c, ps[1..]);
    }
  }

  /** Of the six parameters only `size` is an attribute of `CacheConfig`,
      so a level's loop is a single rewrite of its size. */
  lemma LevelEditsSize(t: Template, obj: string, c: CacheConfig)
    ensures LevelEdits(t, obj, c, Params) == Rewrite(t, obj + ".size", QuotedSize(c))
  {
    var rest := Params[1..];
    OnlySizeIsAttribute();
    var t' := Rewrite(t, obj + ".size", QuotedSize(c));
    assert obj + "." + Params[0] == obj + ".size";
    assert ParamValue(c, Params[0]) == QuotedSize(c);
    assert LevelEdits(t, obj, c, Params) == LevelEdits(t', obj, c, rest);
    SkipsMissing(t', obj, c, rest);
  }

  lemma OnlySizeIsAttribute()
    ensures Params[0] == "size" && "size" in ConfigAttributes
    ensures forall i :: 1 <= i < |Params| ==> Params[i] !in ConfigAttributes
  {
    assert ConfigAttributes[5] == "size";
    assert "assoc" !in ConfigAttributes;
    assert "mshrs" !in ConfigAttributes;
    assert "tag_latency" !in ConfigAttributes;
    assert "data_latency" !in ConfigAttributes;
    assert "response_latency" !in ConfigAttributes;
  }

  /** `modify_size_cache`: the levels in the order L1I, L1D, L2, LLC. */
  function ModifySizeCache(t: Template, s: Sample): Template
  {
    var t1 := LevelEdits(t, CacheObjects[0], s.l1i, Params);
    var t2 := LevelEdits(t1, CacheObjects[1], s.l1d, Params);
    var t3 := LevelEdits(t2, CacheObjects[2], s.l2c, Params);
    LevelEdits(t3, CacheObjects[3], s.llc, Params)
  }

  /** The size assignment of level `i`. */
  function SizeTarget(i: nat): string
    requires i < 4
  {
    CacheObjects[i] + ".size"
  }

  function QuotedSize(c: CacheConfig): string
  {
    "'" + SizeReadable(Capacity(c)) + "'"
  }

  /** `modify_size_cache` is four rewrites, one per level's size. */
  lemma SizeCacheRewrites(t: Template, s: Sample)
    ensures ModifySizeCache(t, s) ==
      Rewrite(Rewrite(Rewrite(Rewrite(t, SizeTarget(0), QuotedSize(s.l1i)), SizeTarget(1), QuotedSize(s.l1d)),
                      SizeTarget(2), QuotedSize(s.l2c)), SizeTarget(3), QuotedSize(s.llc))
  {
    LevelEditsSize(t, CacheObjects[0], s.l1i);
    var t1 := Rewrite(t, SizeTarget(0), QuotedSize(s.l1i));
    LevelEditsSize(t1, CacheObjects[1], s.l1d);
    var t2 := Rewrite(t1, SizeTarget(1), QuotedSize(s.l1d));
    LevelEditsSize(t2, CacheObjects[2], s.l2c);
    var t3 := Rewrite(t2, SizeTarget(2), QuotedSize(s.l2c));
    LevelEditsSize(t3, CacheObjects[3], s.llc);
  }

  /** After `modify_size_cache` each level's size assignment, where the
      template has one, holds that level's quoted readable capacity, and
      every other assignment is as in the template. */
  lemma SizeCacheEffect(t: Template, s: Sample)
    requires DistinctKeys(t)
    ensures DistinctKeys(ModifySizeCache(t, s))
    ensures Keys(ModifySizeCache(t, s)) == Keys(t)
    ensures forall i :: 0 <= i < 4 && HasKey(t, SizeTarget(i)) ==> Get(ModifySizeCache(t, s), SizeTarget(i)) == Some(QuotedSize(Level(s, i)))
    ensures forall k :: (forall i :: 0 <= i < 4 ==> k != SizeTarget(i)) ==> Get(ModifySizeCache(t, s), k) == Get(t, k)
  {
    SizeCacheSteps(t, s);
    forall i | 0 <= i < 4 && HasKey(t, SizeTarget(i)) ensures Get(ModifySizeCache(t, s), SizeTarget(i)) == Some(QuotedSize(Level(s, i))) {
      if i == 0 {
      } else if i == 1 {
      } else if i == 2 {
      } else {
      }
    }
  }

  lemma SizeCacheSteps(t: Template, s: Sample)
    requires DistinctKeys(t)
    ensures DistinctKeys(ModifySizeCache(t, s))
    ensures Keys(ModifySizeCache(t, s)) == Keys(t)
    ensures HasKey(t, SizeTarget(0)) ==> Get(ModifySizeCache(t, s), SizeTarget(0)) == Some(QuotedSize(s.l1i))
    ensures HasKey(t, SizeTarget(1)) ==> Get(ModifySizeCache(t, s), SizeTarget(1)) == Some(QuotedSize(s.l1d))
    ensures HasKey(t, SizeTarget(2)) ==> Get(ModifySizeCache(t, s), SizeTarget(2)) == Some(QuotedSize(s.l2c))
    ensures HasKey(t, SizeTarget(3)) ==> Get(ModifySizeCache(t, s), SizeTarget(3)) == Some(QuotedSize(s.llc))
    ensures forall k :: (forall i :: 0 <= i < 4 ==> k != SizeTarget(i)) ==> Get(ModifySizeCache(t, s), k) == Get(t, k)
  {
    SizeCacheRewrites(t, s);
    SizeTargetsDistinct();
    var t1 := Rewrite(t, SizeTarget(0), QuotedSize(s.l1i));
    var t2 := Rewrite(t1, SizeTarget(1), QuotedSize(s.l1d));
    var t3 := Rewrite(t2, SizeTarget(2), QuotedSize(s.l2c));
    var t4 := Rewrite(t3, SizeTarget(3), QuotedSize(s.llc));
    assert HasKey(t, SizeTarget(0)) ==> Get(t4, SizeTarget(0)) == Some(QuotedSize(s.l1i));
    assert HasKey(t, SizeTarget(1)) ==> Get(t4, SizeTarget(1)) == Some(QuotedSize(s.l1d));
    assert HasKey(t, SizeTarget(2)) ==> Get(t4, SizeTarget(2)) == Some(QuotedSize(s.l2c));
    assert HasKey(t, SizeTarget(3)) ==> Get(t4, SizeTarget(3)) == Some(QuotedSize(s.llc));
  }

  lemma SizeTargetsDistinct()
    ensures forall i, j :: 0 <= i < j < 4 ==> SizeTarget(i) != SizeTarget(j)
  {
    assert SizeTarget(0)[5] == 'c' && SizeTarget(1)[5] == 'c';
    assert SizeTarget(2)[5] == 'l' && SizeTarget(3)[5] == 'l';
    assert SizeTarget(0)[9] == 'i' && SizeTarget(1)[9] == 'd';
    assert SizeTarget(2)[6] == '2' && SizeTarget(3)[6] == '3';
  }

  /** Associativity, MSHRs and the three latencies are never rewritten: a
      sample changes only the sizes. */
  lemma SizeCacheOnlySizes(t: Template, s: Sample, obj: string, j: nat)
    requires DistinctKeys(t)
    requires 1 <= j < |Params|
    ensures Get(ModifySizeCache(t, s), obj + "." + Params[j]) == Get(t, obj + "." + Params[j])
  {
    ParamEnding(j);
    NotSizeTarget(t, s, obj + "." + Params[j], Params[j]);
  }

  /** A key ending in a letter other than `e` is no `.size` target, and
      `modify_size_cache` keeps it. */
  lemma NotSizeTarget(t: Template, s: Sample, k: string, p: string)
    requires DistinctKeys(t)
    requires |p| > 0 && p[|p| - 1] != 'e' && exists obj :: k == obj + "." + p
    ensures Get(ModifySizeCache(t, s), k) == Get(t, k)
  {
    var obj :| k == obj + "." + p;
    forall i | 0 <= i < 4 ensures k != SizeTarget(i) {
      LastChar(CacheObjects[i], ".size");
      LastChar(obj, "." + p);
      LastChar(".", p);
    }
    SizeCacheEffect(t, s);
  }

  /** Only `size` ends in `e`. */
  lemma ParamEnding(j: nat)
    requires 1 <= j < |Params|
    ensures |Params[j]| > 0 && Params[j][|Params[j]| - 1] != 'e'
  {
    assert Params[1][4] == 'c' && Params[2][4] == 's';
    assert Params[3][10] == 'y' && Params[4][11] == 'y' && Params[5][15] == 'y';
  }

  lemma LastChar(a: string, b: string)
    requires |b| > 0
    ensures (a + b)[|a + b| - 1] == b[|b| - 1]
  {
  }

  const PolicyTarget: string := "self.l3cache.replacement_policy"
  const PrefetcherTarget: string := "self.l3cache.prefetcher"
  const BranchTarget: string := "self.cpu.branchPred"

  /** `{name}()`: a parameterless SimObject, `None()` when the list was empty. */
  function Constructor(name: Option<string>): string
  {
    Show(name) + "()"
  }

  /** `modify_replacement_policy`'s right-hand side: DRRIP is given the
      last-level capacity as constituency size and its ways as team size,
      every other policy is constructed without arguments. */
  function PolicyValue(policy: Option<string>, llc: CacheConfig): (r: string)
    ensures policy == Some("DRRIP") ==> StartsWith(r, "DRRIPRP(constituency_size=" + IntToString(Capacity(llc)) + ", team_size=")
    ensures policy == Some("DRRIP") ==>
      var n := |"DRRIPRP(constituency_size=" + IntToString(Capacity(llc)) + ", team_size="|;
      n <= |r| && r[n..] == IntToString(llc.ways) + ")"
    ensures policy != Some("DRRIP") ==> r == Constructor(policy)
  {
    if policy == Some("DRRIP") then
      var head := "DRRIPRP(constituency_size=" + IntToString(Capacity(llc)) + ", team_size=";
      TextSplit(head, IntToString(llc.ways), ")");
      head + IntToString(llc.ways) + ")"
    else Constructor(policy)
  }

  lemma TextSplit(head: string, x: string, y: string)
    ensures (head + x + y)[..|head|] == head && (head + x + y)[|head|..] == x + y
  {
  }

  /** One point's policy, prefetcher and branch predictor. */
  datatype Choice = Choice(policy: Option<string>, prefetcher: Option<string>, branch: Option<string>)

  /** The three edits made for every point, in the script's order. */
  function PointEdits(t: Template, llc: CacheConfig, ch: Choice): Template
  {
    var t1 := Rewrite(t, PolicyTarget, PolicyValue(ch.policy, llc));
    var t2 := Rewrite(t1, PrefetcherTarget, Constructor(ch.prefetcher));
    Rewrite(t2, BranchTarget, Constructor(ch.branch))
  }

  /** A point's edits set the three assignments and keep everything else. */
  lemma PointEditsEffect(t: Template, llc: CacheConfig, ch: Choice)
    requires DistinctKeys(t)
    ensures Keys(PointEdits(t, llc, ch)) == Keys(t) && DistinctKeys(PointEdits(t, llc, ch))
    ensures HasKey(t, PolicyTarget) ==> Get(PointEdits(t, llc, ch), PolicyTarget) == Some(PolicyValue(ch.policy, llc))
    ensures HasKey(t, PrefetcherTarget) ==> Get(PointEdits(t, llc, ch), PrefetcherTarget) == Some(Constructor(ch.prefetcher))
    ensures HasKey(t, BranchTarget) ==> Get(PointEdits(t, llc, ch), BranchTarget) == Some(Constructor(ch.branch))
    ensures forall k :: k != PolicyTarget && k != PrefetcherTarget && k != BranchTarget ==> Get(PointEdits(t, llc, ch), k) == Get(t, k)
  {
    assert PolicyTarget[5] == 'l' && PrefetcherTarget[5] == 'l' && BranchTarget[5] == 'c';
    assert PolicyTarget[13] == 'r' && PrefetcherTarget[13] == 'p';
  }

  /** The targets the shipped templates assign only inside a comment line:
      the last-level prefetcher in `my_system.py` and the instruction limit
      in `simulate.py`. */
  const CommentedTargets: set<string> := {PrefetcherTarget, InstLimitTarget}

  /** Two versions of a file that gem5 reads alike: the same targets, and
      the same value for every target outside a comment line. */
  ghost predicate SameLive(a: Template, b: Template, commented: set<string>)
  {
    Keys(a) == Keys(b) && forall k :: k !in commented ==> Get(a, k) == Get(b, k)
  }

  /** With the shipped `my_system.py`, two points that differ only in the
      prefetcher give configurations gem5 reads alike: the prefetcher
      sweep changes nothing gem5 simulates. */
  lemma PrefetcherSweepInert(t: Template, llc: CacheConfig, a: Choice, b: Choice)
    requires DistinctKeys(t) && a.policy == b.policy && a.branch == b.branch
    ensures SameLive(PointEdits(t, llc, a), PointEdits(t, llc, b), CommentedTargets)
  {
    PointEditsEffect(t, llc, a);
    PointEditsEffect(t, llc, b);
  }

  /** On a template that assigns the prefetcher outside a comment, two
      different prefetchers give different prefetcher assignments. */
  lemma PrefetcherTakesEffect(t: Template, llc: CacheConfig, a: Choice, b: Choice)
    requires DistinctKeys(t) && HasKey(t, PrefetcherTarget)
    requires a.prefetcher.Some? && b.prefetcher.Some? && a.prefetcher != b.prefetcher
    ensures Get(PointEdits(t, llc, a), PrefetcherTarget) != Get(PointEdits(t, llc, b), PrefetcherTarget)
  {
    PointEditsEffect(t, llc, a);
    PointEditsEffect(t, llc, b);
    var x, y := a.prefetcher.value, b.prefetcher.value;
    assert (x + "()")[..|x|] == x && (y + "()")[..|y|] == y;
  }

  /** The edits of one point overwrite those of the point before, so the
      configuration carried from point to point equals the fresh one. */
  lemma PointEditsOverride(t: Template, llc: CacheConfig, a: Choice, b: Choice)
    requires DistinctKeys(t)
    ensures PointEdits(PointEdits(t, llc, a), llc, b) == PointEdits(t, llc, b)
  {
    var ta := PointEdits(t, llc, a);
    PointEditsEffect(t, llc, a);
    PointEditsEffect(ta, llc, b);
    PointEditsEffect(t, llc, b);
    var x, y := PointEdits(ta, llc, b), PointEdits(t, llc, b);
    forall k ensures Get(x, k) == Get(y, k) {
      if k == PolicyTarget || k == PrefetcherTarget || k == BranchTarget {
        assert HasKey(ta, k) <==> HasKey(t, k) by {
          HasKeyOfKeys(ta, t, k);
        }
      }
    }
    DictExt(x, y);
  }

  lemma HasKeyOfKeys(a: Template, b: Template, k: string)
    requires Keys(a) == Keys(b)
    ensures HasKey(a, k) <==> HasKey(b, k)
  {
    if HasKey(a, k) {
      var i :| 0 <= i < |a| && a[i].0 == k;
      assert Keys(b)[i] == k;
    }
    if HasKey(b, k) {
      var i :| 0 <= i < |b| && b[i].0 == k;
      assert Keys(a)[i] == k;
    }
  }

  /** The configurations of one sample's points as the script computes
      them: each point edits the configuration the point before left. */
  function CarriedConfigs(c: Template, llc: CacheConfig, chs: seq<Choice>): (r: seq<Template>)
    ensures |r| == |chs|
    decreases |chs|
  {
    if |chs| == 0 then []
    else
      var c' := PointEdits(c, llc, chs[0]);
      [c'] + CarriedConfigs(c', llc, chs[1..])
  }

  /** Every point's `my_system.py` is the sample's sized template with only
      that point's three edits. */
  lemma {:induction false} CarriedIsFresh(c: Template, llc: CacheConfig, chs: seq<Choice>, i: nat)
    requires DistinctKeys(c) && i < |chs|
    ensures CarriedConfigs(c, llc, chs)[i] == PointEdits(c, llc, chs[i])
    decreases i
  {
    if i > 0 {
      var c' := PointEdits(c, llc, chs[0]);
      PointEditsEffect(c, llc, chs[0]);
      CarriedIsFresh(c', llc, chs[1..], i - 1);
      PointEditsOverride(c, llc, chs[0], chs[i]);
    }
  }

  const BinPathTarget: string := "binpath"
  const InstLimitTarget: string := "system.cpu.max_insts_any_thread"

  /** `path_from_gem5_to_binaries`: the binaries as seen from the
      configuration directory gem5 runs in. */
  function BinPath(binDir: string, binary: string): string
  {
    PathJoin("../../../../../../../../testsGem5/" + binDir, binary)
  }

  /** `{self.simulation_instructions}` for an optional count. */
  function ShowCount(n: Option<nat>): string
  {
    match n
    case None => "None"
    case Some(v) => NatToString(v)
  }

  /** `modify_simulate_py`: the binary path and the instruction limit. */
  function SimulateEdits(t: Template, binDir: string, binary: string, sim: Option<nat>): (r: Template)
    requires DistinctKeys(t)
    ensures Keys(r) == Keys(t) && DistinctKeys(r)
    ensures HasKey(t, BinPathTarget) ==> Get(r, BinPathTarget) == Some("os.path.join(thispath, \"" + BinPath(binDir, binary) + "\")")
    ensures HasKey(t, InstLimitTarget) ==> Get(r, InstLimitTarget) == Some(ShowCount(sim))
    ensures forall k :: k != BinPathTarget && k != InstLimitTarget ==> Get(r, k) == Get(t, k)
  {
    var t1 := Rewrite(t, BinPathTarget, "os.path.join(thispath, \"" + BinPath(binDir, binary) + "\")");
    assert BinPathTarget[0] != InstLimitTarget[0];
    Rewrite(t1, InstLimitTarget, ShowCount(sim))
  }

  /** With the shipped `simulate.py`, every instruction limit gives a file
      gem5 reads alike: the limit never reaches the simulation. */
  lemma InstLimitInert(t: Template, binDir: string, binary: string, m: Option<nat>, n: Option<nat>)
    requires DistinctKeys(t)
    ensures SameLive(SimulateEdits(t, binDir, binary, m), SimulateEdits(t, binDir, binary, n), CommentedTargets)
  {
  }

  /** `os.path.join(base, *parts)`. */
  function JoinAll(base: string, parts: seq<string>): string
    decreases |parts|
  {
    if |parts| == 0 then base else JoinAll(PathJoin(base, parts[0]), parts[1..])
  }

  predicate PlainName(x: string)
  {
    |x| > 0 && '/' !in x
  }

  /** With a base that does not end in `/` and plain parts, joining puts one
      `/` between consecutive names. */
  lemma {:induction false} JoinAllPlain(base: string, parts: seq<string>)
    requires |base| > 0 && base[|base| - 1] != '/'
    requires |parts| > 0 && forall i :: 0 <= i < |parts| ==> PlainName(parts[i])
    ensures JoinAll(base, parts) == base + "/" + Join(parts, '/')
    decreases |parts|
  {
    var b := PathJoin(base, parts[0]);
    JoinPlainStep(base, parts[0]);
    if |parts| > 1 {
      var rest := parts[1..];
      assert forall i :: 0 <= i < |rest| ==> PlainName(rest[i]) by {
        forall i | 0 <= i < |rest| ensures PlainName(rest[i]) {
          assert rest[i] == parts[i + 1];
        }
      }
      JoinAllPlain(b, rest);
      SlashRegroup(base, parts[0], Join(rest, '/'));
    }
  }

  /** One plain name joined onto a base without a trailing `/`. */
  lemma JoinPlainStep(base: string, x: string)
    requires |base| > 0 && base[|base| - 1] != '/' && PlainName(x)
    ensures PathJoin(base, x) == base + "/" + x
    ensures |PathJoin(base, x)| > 0 && PathJoin(base, x)[|PathJoin(base, x)| - 1] != '/'
  {
    assert !StartsWith(x, "/") by {
      assert x[0] != '/';
    }
    assert !EndsWith(base, "/");
    var r := base + "/" + x;
    assert r[|r| - 1] == x[|x| - 1];
  }

  lemma SlashRegroup(a: string, x: string, j: string)
    ensures (a + "/" + x) + "/" + j == a + "/" + (x + ['/'] + j)
  {
  }

  /** Plain parts joined onto the same base give the same path only when the
      parts are the same. */
  lemma JoinAllDistinct(base: string, p: seq<string>, q: seq<string>)
    requires |base| > 0 && base[|base| - 1] != '/'
    requires |p| > 0 && forall i :: 0 <= i < |p| ==> PlainName(p[i])
    requires |q| > 0 && forall i :: 0 <= i < |q| ==> PlainName(q[i])
    requires p != q
    ensures JoinAll(base, p) != JoinAll(base, q)
  {
    JoinAllPlain(base, p);
    JoinAllPlain(base, q);
    var n := |base| + 1;
    var x, y := base + "/" + Join(p, '/'), base + "/" + Join(q, '/');
    assert x[n..] == Join(p, '/') && y[n..] == Join(q, '/');
    SplitJoin(p, '/');
    SplitJoin(q, '/');
    assert Split(x[n..], '/') != Split(y[n..], '/');
  }

  function SampleName(index: nat): string
  {
    "Sample" + NatToString(index)
  }

  /** The folders below the base a point writes into:
      `<binary>/Sample{index}/<branch>/<prefetcher>/<policy>`; a `None`
      component makes `os.path.join` raise. */
  function PointParts(binary: string, index: nat, ch: Choice): Option<seq<string>>
  {
    if ch.branch.Some? && ch.prefetcher.Some? && ch.policy.Some? then
      Some([binary, SampleName(index), ch.branch.value, ch.prefetcher.value, ch.policy.value])
    else None
  }

  /** What one point of the sweep produces. */
  datatype Job = Job(configDir: string, outputDir: string, mySystem: Template, simulate: Template, command: seq<string>)

  /** The fixed inputs of a sweep. */
  datatype Env = Env(gem5Path: string, binDir: string, outputRoot: string, mySystem: Template, simulate: Template, sim: Option<nat>)

  /** `exec_bin`'s command line. */
  function Command(gem5Path: string, configDir: string, outputDir: string): seq<string>
  {
    [gem5Path + "/build/X86/gem5.opt", "-d", outputDir, configDir + "/simulate.py"]
  }

  /** One point: the files `write_modified_config` writes, the two folders
      it creates (the output folder sits below the sample folder, which
      repeats the sample name), and the command; a missing name ends the
      script with a `TypeError`. */
  function PointJob(env: Env, binary: string, index: nat, sample: Sample, ch: Choice): (r: Result<Job, string>)
    requires DistinctKeys(env.mySystem) && DistinctKeys(env.simulate)
    ensures r.Success? <==> PointParts(binary, index, ch).Some?
    ensures r.Success? ==>
      var parts := PointParts(binary, index, ch).value;
      r.value.configDir == JoinAll(PathJoin(env.gem5Path, "configs"), parts) &&
      r.value.outputDir == JoinAll(PathJoin(env.outputRoot, SampleName(index)), parts)
    ensures r.Success? ==> |r.value.command| == 4
    ensures r.Success? ==> r.value.command[2] == r.value.outputDir && r.value.command[3] == r.value.configDir + "/simulate.py"
  {
    match PointParts(binary, index, ch)
    case None => Failure("TypeError: expected str, bytes or os.PathLike object, not NoneType")
    case Some(parts) =>
      var configDir := JoinAll(PathJoin(env.gem5Path, "configs"), parts);
      var outputDir := JoinAll(PathJoin(env.outputRoot, SampleName(index)), parts);
      var sized := ModifySizeCache(env.mySystem, sample);
      Success(Job(configDir, outputDir, PointEdits(sized, sample.llc, ch),
                  SimulateEdits(env.simulate, env.binDir, binary, env.sim),
                  Command(env.gem5Path, configDir, outputDir)))
  }

  /** Two points of one sample of one binary with plain names write to
      different output folders when their choices differ. */
  lemma OutputDirsDistinct(env: Env, binary: string, index: nat, sample: Sample, a: Choice, b: Choice)
    requires DistinctKeys(env.mySystem) && DistinctKeys(env.simulate)
    requires PointJob(env, binary, index, sample, a).Success? && PointJob(env, binary, index, sample, b).Success?
    requires PlainName(binary)
    requires PlainName(a.policy.value) && PlainName(a.prefetcher.value) && PlainName(a.branch.value)
    requires PlainName(b.policy.value) && PlainName(b.prefetcher.value) && PlainName(b.branch.value)
    requires PlainName(env.outputRoot)
    requires a != b
    ensures PointJob(env, binary, index, sample, a).value.outputDir != PointJob(env, binary, index, sample, b).value.outputDir
  {
    var base := PathJoin(env.outputRoot, SampleName(index));
    SampleBase(env.outputRoot, index);
    var p, q := PointParts(binary, index, a).value, PointParts(binary, index, b).value;
    PartsPlain(binary, index, a);
    PartsPlain(binary, index, b);
    assert a == Choice(Some(p[4]), Some(p[3]), Some(p[2]));
    assert b == Choice(Some(q[4]), Some(q[3]), Some(q[2]));
    JoinAllDistinct(base, p, q);
  }

  lemma PartsPlain(binary: string, index: nat, ch: Choice)
    requires PointParts(binary, index, ch).Some?
    requires PlainName(binary) && PlainName(SampleName(index))
    requires PlainName(ch.policy.value) && PlainName(ch.prefetcher.value) && PlainName(ch.branch.value)
    ensures var p := PointParts(binary, index, ch).value; |p| == 5 && forall i :: 0 <= i < |p| ==> PlainName(p[i])
  {
  }

  /** The sample folder below a plain output root does not end in `/`, and
      the sample's name is plain. */
  lemma SampleBase(root: string, index: nat)
    requires PlainName(root)
    ensures PlainName(SampleName(index))
    ensures var base := PathJoin(root, SampleName(index)); |base| > 0 && base[|base| - 1] != '/'
  {
    var name := SampleName(index);
    var d := NatToString(index);
    assert name[0] == 'S';
    assert !StartsWith(name, "/");
    assert !EndsWith(root, "/") by {
      assert root[|root| - 1] != '/';
    }
    var base := PathJoin(root, name);
    assert base == root + "/" + name;
    assert base[|base| - 1] == name[|name| - 1] == d[|d| - 1];
    forall i | 0 <= i < |name| ensures name[i] != '/' {
      if i >= 6 {
        assert name[i] == d[i - 6];
      }
    }
  }

  /** The runs in the script's order: binary, sample (numbered from 5), then
      policy, prefetcher and branch predictor. */
  function Runs(binaries: seq<string>, samples: seq<Sample>, policies: seq<string>, prefetchers: seq<string>, branches: seq<string>): seq<(string, OldChampSimRunner.Point)>
  {
    Product(binaries, OldChampSimRunner.Points(samples, 5, policies, prefetchers, branches))
  }

  /** The run of binary `x`, sample `s`, policy `p`, prefetcher `f` and
      branch predictor `b` is visited at position
      `x * N + ((s * P + p) * F + f) * B + b` with `N` the points per binary,
      and its sample is numbered `s + 5`. */
  lemma RunAt(binaries: seq<string>, samples: seq<Sample>, policies: seq<string>, prefetchers: seq<string>, branches: seq<string>,
              x: nat, s: nat, p: nat, f: nat, b: nat)
    requires x < |binaries| && s < |samples| && p < |OrNone(policies)| && f < |OrNone(prefetchers)| && b < |OrNone(branches)|
    ensures var n := |OldChampSimRunner.Points(samples, 5, policies, prefetchers, branches)|;
      var k := x * n + OldChampSimRunner.PointIndex(s, p, f, b, |OrNone(policies)|, |OrNone(prefetchers)|, |OrNone(branches)|);
      k < |Runs(binaries, samples, policies, prefetchers, branches)| &&
      Runs(binaries, samples, policies, prefetchers, branches)[k] ==
        (binaries[x], OldChampSimRunner.Point(s + 5, samples[s], OrNone(policies)[p], OrNone(prefetchers)[f], OrNone(branches)[b]))
  {
    var pts := OldChampSimRunner.Points(samples, 5, policies, prefetchers, branches);
    OldChampSimRunner.PointAt(samples, 5, policies, prefetchers, branches, s, p, f, b);
    ProductAt(binaries, pts, x, OldChampSimRunner.PointIndex(s, p, f, b, |OrNone(policies)|, |OrNone(prefetchers)|, |OrNone(branches)|));
  }

  /** The command line `main` accepts. */
  datatype Args = Args(threads: int, gem5Path: string, binDir: string, systemDir: string, outputDir: string,
                       warmup: Option<nat>, sim: Option<nat>)

  /** `main`'s checks, which are the ChampSim runner's: fewer than six
      entries or a thread count below 1 end the program, and the optional
      counts must pass `isdigit`. */
  function ParseArgs(argv: seq<string>): (r: Result<Args, string>)
    ensures |argv| < 6 ==> r.Failure?
    ensures |argv| >= 6 ==> (r.Success? <==> PyInt(argv[1]).Some? && PyInt(argv[1]).value >= 1)
    ensures r.Success? ==> PyInt(argv[1]) == Some(r.value.threads)
    ensures r.Success? ==> r.value.gem5Path == argv[2] && r.value.binDir == argv[3] && r.value.systemDir == argv[4] && r.value.outputDir == argv[5]
    ensures r.Success? ==> r.value.warmup == OldChampSimRunner.OptionalCount(argv, 6) && r.value.sim == OldChampSimRunner.OptionalCount(argv, 7)
  {
    match OldChampSimRunner.ParseArgs(argv)
    case Failure(e) => Failure(e)
    case Success(a) => Success(Args(a.threads, argv[2], argv[3], argv[4], argv[5], a.warmup, a.sim))
  }

  const MainPolicies: seq<string> := ["LRURP", "RandomRP", "FIFORP", "BIPRP", "DRRIP", "SHiPMemRP"]
  const MainPrefetchers: seq<string> := ["TaggedPrefetcher", "StridePrefetcher"]
  const MainBranches: seq<string> := ["BiModeBP", "GshareBP", "TAGE"]

  /** The one sample `main` runs. */
  const MainSample: Sample := Sample(CacheConfig(64, 8, 4), CacheConfig(64, 8, 4), CacheConfig(512, 8, 8), CacheConfig(8192, 16, 22))

  /** `main`'s sweep: 36 points per binary, all numbered sample 5. */
  lemma MainSweep(binaries: seq<string>)
    ensures |Runs(binaries, [MainSample], MainPolicies, MainPrefetchers, MainBranches)| == 36 * |binaries|
    ensures forall k :: 0 <= k < |Runs(binaries, [MainSample], MainPolicies, MainPrefetchers, MainBranches)| ==>
      Runs(binaries, [MainSample], MainPolicies, MainPrefetchers, MainBranches)[k].1.index == 5
  {
    var pts := OldChampSimRunner.Points([MainSample], 5, MainPolicies, MainPrefetchers, MainBranches);
    OldChampSimRunner.PointAt([MainSample], 5, MainPolicies, MainPrefetchers, MainBranches, 0, 0, 0, 0);
    assert |pts| == 36;
    ProductLength(binaries, pts);
    forall k | 0 <= k < |Runs(binaries, [MainSample], MainPolicies, MainPrefetchers, MainBranches)|
      ensures Runs(binaries, [MainSample], MainPolicies, MainPrefetchers, MainBranches)[k].1.index == 5
    {
      ProductMember(binaries, pts, k);
      var x, j :| 0 <= x < |binaries| && 0 <= j < |pts| && k == x * |pts| + j &&
        Product(binaries, pts)[k] == (binaries[x], pts[j]);
      PointsIndexed([MainSample], 5, MainPolicies, MainPrefetchers, MainBranches, j);
    }
  }

  /** In `main`, DRRIP is given the 8 MB last level's 8388608 bytes and its
      16 ways. */
  lemma MainDrrip()
    ensures PolicyValue(Some("DRRIP"), MainSample.llc) == "DRRIPRP(constituency_size=8388608, team_size=16)"
  {
    MainLlcRendered();
    DrripText(MainSample.llc);
  }

  lemma DrripText(llc: CacheConfig)
    ensures PolicyValue(Some("DRRIP"), llc) ==
      "DRRIPRP(constituency_size=" + IntToString(Capacity(llc)) + ", team_size=" + IntToString(llc.ways) + ")"
  {
  }

  lemma MainLlcRendered()
    ensures IntToString(Capacity(MainSample.llc)) == "8388608"
    ensures IntToString(MainSample.llc.ways) == "16"
  {
    assert Capacity(MainSample.llc) == 8388608;
    assert IntToString(16) == NatToString(16) == "16" by {
      assert NatToString(1) == "1";
    }
    Render8388608();
  }

  lemma Render8388608()
    ensures NatToString(8388608) == "8388608"
  {
    assert NatToString(8) == "8";
    assert NatToString(83) == NatToString(8) + [DigitChar(3)] == "83";
    assert NatToString(838) == NatToString(83) + [DigitChar(8)] == "838";
    assert NatToString(8388) == NatToString(838) + [DigitChar(8)] == "8388";
    assert NatToString(83886) == NatToString(8388) + [DigitChar(6)] == "83886";
    assert NatToString(838860) == NatToString(83886) + [DigitChar(0)] == "838860";
    assert NatToString(8388608) == NatToString(838860) + [DigitChar(8)];
  }

  /** Every point of a one-sample sweep carries that sample's number. */
  lemma PointsIndexed(samples: seq<Sample>, start: nat, policies: seq<string>, prefetchers: seq<string>, branches: seq<string>, j: nat)
    requires |samples| == 1
    requires j < |OldChampSimRunner.Points(samples, start, policies, prefetchers, branches)|
    ensures OldChampSimRunner.Points(samples, start, policies, prefetchers, branches)[j].index == start
  {
    var e := Enumerate(samples, start);
    var l1 := Product(e, OrNone(policies));
    var l2 := Product(l1, OrNone(prefetchers));
    var l3 := Product(l2, OrNone(branches));
    var i2 := ProductLeft(l2, OrNone(branches), j);
    var i1 := ProductLeft(l1, OrNone(prefetchers), i2);
    var i0 := ProductLeft(e, OrNone(policies), i1);
  }
}
