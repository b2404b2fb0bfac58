/** The Mockingjay replacement policy (Polices/mockingjay/mockingjay.cc,
    and the older free-function version in Policies/mockingjay/mockingjay.cc,
    which runs the same algorithm with other constants).

    Every line carries an estimated time of reuse (ETR) in units of
    `GRANULARITY` accesses to its set; the victim is the line whose ETR is
    furthest from zero, and a miss whose predicted reuse is further away
    than every resident line bypasses the cache.  Predictions come from a
    reuse-distance predictor (RDP) keyed by a hashed PC signature, trained
    by a small sampled cache that timestamps accesses to a few sampled sets.

    Both versions are one model here, parameterised by `Config`; the two
    constant sets are `NewVariant` and `OldVariant`.  C `int`s are `int`,
    `uint64_t` values are `nat` (or `bv64` where the code shifts and xors
    them), and `x & (2^k - 1)` on a non-negative `x` is written `x % 2^k`. */
module Mockingjay {
  import opened CacheSets
  import opened Arith
  import opened CrcHash

  // ---------------------------------------------------------- constants

  /** `LLC_WAY`, and its base-2 logarithm. */
  const LlcWay: nat := 32
  const Log2LlcWay: nat := 5
  const History: nat := 8
  const Granularity: nat := 8
  /** `INF_RD`: the largest reuse distance the sampler can measure. */
  const InfRd: int := LlcWay * History - 1
  /** `INF_ETR`: the ETR of a line not expected back. */
  const InfEtr: int := LlcWay * History / Granularity - 1
  /** `MAX_RD`: predictions above it count as "never reused". */
  const MaxRd: int := InfRd - 22
  const SampledWays: nat := 5
  const Log2SampledCacheSets: nat := 4
  const TimestampBits: nat := 8
  /** `1 << TIMESTAMP_BITS`: timestamps count modulo this. */
  const TimestampLimit: int := 256
  /** ChampSim's `LOG2_BLOCK_SIZE` for 64-byte blocks; the simulator, not
      the policy, defines it. */
  const Log2BlockSize: nat := 6

  /** What differs between builds: the `LLC_SET` constant and its
      logarithm, the block size, `NUM_CPUS`, and `FLEXMIN_PENALTY`
      (`2 - log2(NUM_CPUS) / 4`, a `double`; it is given, not computed). */
  datatype Config = Config(llcSets: nat, log2LlcSet: nat, log2Block: nat, numCpus: nat, flexminPenalty: real)

  function Log2LlcSize(c: Config): int
  {
    c.log2LlcSet + Log2LlcWay + c.log2Block
  }

  function Log2SampledSets(c: Config): int
  {
    Log2LlcSize(c) - 16
  }

  function TagBits(c: Config): int
  {
    31 - Log2LlcSize(c)
  }

  function SignatureBits(c: Config): int
  {
    Log2LlcSize(c) - 10
  }

  /** The sampled cache has `2^(LOG2_SAMPLED_CACHE_SETS + LOG2_LLC_SET)`
      sets, addressed by that many low bits of the block address. */
  function IndexBits(c: Config): nat
  {
    Log2SampledCacheSets + c.log2LlcSet
  }

  /** `mask_length` of `is_sampled_set`. */
  function MaskLength(c: Config): int
  {
    c.log2LlcSet - Log2SampledSets(c)
  }

  /** The constants make sense: every shift amount lies in `0 .. 64`, the
      masks are non-empty, and the penalty of a single core is 2. */
  predicate ValidConfig(c: Config)
  {
    && c.numCpus >= 1
    && c.flexminPenalty >= 0.0
    && (c.numCpus == 1 ==> c.flexminPenalty == 2.0)
    && 0 < SignatureBits(c) <= 64
    && 0 < TagBits(c) <= 64
    && 0 < IndexBits(c) <= 64
    && 0 <= MaskLength(c) <= c.log2LlcSet
    && Pow2(c.log2LlcSet) <= c.llcSets
  }

  /** The class-based version: 512 sets. */
  function NewVariant(numCpus: nat, flexminPenalty: real): Config
  {
    Config(512, 9, Log2BlockSize, numCpus, flexminPenalty)
  }

  /** The free-function version: 1376 sets, whose logarithm the
      `constexpr int` conversion truncates to 10. */
  function OldVariant(numCpus: nat, flexminPenalty: real): Config
  {
    Config(1376, 10, Log2BlockSize, numCpus, flexminPenalty)
  }

  /** The build with 512 sets is well formed for any core count whose
      penalty is not negative, and its bit widths are the ones its header
      computes. */
  lemma NewVariantValid(numCpus: nat, flexminPenalty: real)
    requires numCpus >= 1 && flexminPenalty >= 0.0
    requires numCpus == 1 ==> flexminPenalty == 2.0
    ensures var c := NewVariant(numCpus, flexminPenalty);
      ValidConfig(c) && SignatureBits(c) == 10 && TagBits(c) == 11 && IndexBits(c) == 13 && MaskLength(c) == 5
  {
    assert Pow2(9) == 512;
  }

  /** The same for the build with 1376 sets, whose logarithm is 10. */
  lemma OldVariantValid(numCpus: nat, flexminPenalty: real)
    requires numCpus >= 1 && flexminPenalty >= 0.0
    requires numCpus == 1 ==> flexminPenalty == 2.0
    ensures var c := OldVariant(numCpus, flexminPenalty);
      ValidConfig(c) && SignatureBits(c) == 11 && TagBits(c) == 10 && IndexBits(c) == 14 && MaskLength(c) == 5
  {
    assert Pow2(10) == 1024;
  }

  // --------------------------------------------------------------- bits

  /** `is_sampled_set`: the low `mask_length` bits of the set number equal
      the `mask_length` bits at its top. */
  predicate IsSampledSet(c: Config, s: nat)
    requires ValidConfig(c)
  {
    var m := Pow2(MaskLength(c));
    s % m == (s / Pow2(c.log2LlcSet - MaskLength(c))) % m
  }

  function Bit(b: bool): bv64
  {
    if b then 1 else 0
  }

  /** `CRC_HASH`: three CRC rounds. */
  function Crc3(x: bv64): bv64
  {
    CrcRounds(x, 3)
  }

  /** What `get_pc_signature` hashes: on one core the PC followed by the
      hit and prefetch bits; on several, the PC, the prefetch bit, and the
      core number or-ed into the two bits below it. */
  function SignatureInput(c: Config, pc: bv64, hit: bool, prefetch: bool, core: bv64): bv64
  {
    if c.numCpus == 1 then (((pc << 1) | Bit(hit)) << 1) | Bit(prefetch)
    else (((pc << 1) | Bit(prefetch)) << 2) | core
  }

  /** `get_pc_signature`: the low `PC_SIGNATURE_BITS` bits of the hash. */
  function Signature(c: Config, pc: bv64, hit: bool, prefetch: bool, core: bv64): (r: nat)
    requires ValidConfig(c)
    ensures r == (Crc3(SignatureInput(c, pc, hit, prefetch, core)) as int) % Pow2(SignatureBits(c))
    ensures r < Pow2(SignatureBits(c))
  {
    var h := Crc3(SignatureInput(c, pc, hit, prefetch, core)) as int;
    KeepLowBitsIsMod(h, SignatureBits(c));
    KeepLowBits(h, SignatureBits(c))
  }

  /** `get_sampled_cache_index`: the low `LOG2_SAMPLED_CACHE_SETS +
      LOG2_LLC_SET` bits of the block address. */
  function SampledIndex(c: Config, addr: nat): (r: nat)
    requires ValidConfig(c)
    ensures r == (addr / Pow2(c.log2Block)) % Pow2(IndexBits(c))
    ensures r < Pow2(IndexBits(c))
  {
    var block := addr / Pow2(c.log2Block);
    KeepLowBitsIsMod(block, IndexBits(c));
    KeepLowBits(block, IndexBits(c))
  }

  /** `get_sampled_cache_tag`: the `SAMPLED_CACHE_TAG_BITS` bits above
      the set, block-offset and sampled-set bits. */
  function SampledTag(c: Config, addr: nat): (r: nat)
    requires ValidConfig(c)
    ensures r == (addr / Pow2(c.log2LlcSet + c.log2Block + Log2SampledCacheSets)) % Pow2(TagBits(c))
    ensures r < Pow2(TagBits(c))
  {
    var x := addr / Pow2(c.log2LlcSet + c.log2Block + Log2SampledCacheSets);
    KeepLowBitsIsMod(x, TagBits(c));
    KeepLowBits(x, TagBits(c))
  }

  // --------------------------------------------------------- timestamps

  /** C's `%`, which truncates toward zero. */
  function Rem(a: int, b: int): int
    requires b > 0
  {
    if a >= 0 then a % b else -((-a) % b)
  }

  /** `increment_timestamp`. */
  function IncrementTimestamp(t: int): (r: int)
    ensures 0 <= t ==> 0 <= r < TimestampLimit && r == (t + 1) % TimestampLimit
    ensures 0 <= t < TimestampLimit - 1 ==> r == t + 1
    ensures t == TimestampLimit - 1 ==> r == 0
  {
    Rem(t + 1, TimestampLimit)
  }

  /** `time_elapsed`: how far `global` is ahead of `local`, across one
      wrap of the counter. */
  function TimeElapsed(global: int, local: int): (r: int)
    ensures 0 <= global < TimestampLimit && 0 <= local < TimestampLimit ==>
      0 <= r <= InfRd && r == (global - local) % TimestampLimit
  {
    if global >= local then global - local else global + TimestampLimit - local
  }

  /** The counter after `n` increments. */
  function Ticks(t: int, n: nat): int
  {
    if n == 0 then t else IncrementTimestamp(Ticks(t, n - 1))
  }

  lemma {:induction false} TicksWrap(t: int, n: nat)
    requires 0 <= t < TimestampLimit
    ensures Ticks(t, n) == (t + n) % TimestampLimit
  {
    if n > 0 {
      TicksWrap(t, n - 1);
      var prev := (t + n - 1) % TimestampLimit;
      var q := (t + n - 1) / TimestampLimit;
      assert t + n - 1 == q * TimestampLimit + prev;
      if prev < TimestampLimit - 1 {
        DivModUnique(t + n, TimestampLimit, q, prev + 1);
      } else {
        DivModUnique(t + n, TimestampLimit, q + 1, 0);
      }
    }
  }

  /** A line stamped at `t` and looked at `n` sampled accesses later is
      seen as `n` accesses old, modulo the counter's range: reuse
      distances wrap at 256. */
  lemma ElapsedAfterTicks(t: int, n: nat)
    requires 0 <= t < TimestampLimit
    ensures TimeElapsed(Ticks(t, n), t) == n % TimestampLimit
  {
    TicksWrap(t, n);
    var g := (t + n) % TimestampLimit;
    var q := (t + n) / TimestampLimit;
    assert t + n == q * TimestampLimit + g;
    assert g - t == n - q * TimestampLimit;
    var q2 := n / TimestampLimit;
    assert n == q2 * TimestampLimit + n % TimestampLimit;
    DivModUnique(g - t, TimestampLimit, q2 - q, n % TimestampLimit);
  }

  // ------------------------------------------------------ the predictor

  function Min(a: int, b: int): int
  {
    if a <= b then a else b
  }

  function Max(a: int, b: int): int
  {
    if a >= b then a else b
  }

  /** `temporal_difference`: the prediction `init` moves one step toward
      the new sample when they are at least 16 apart (`diff *
      TEMP_DIFFERENCE` truncated, capped at 1), and stays in range. */
  function TemporalDifference(init: int, sample: int): (r: int)
    ensures 0 <= init <= InfRd ==> 0 <= r <= InfRd
    ensures 0 <= init <= InfRd && 0 <= sample <= InfRd ==>
      (r != init <==> (sample - init >= 16 || init - sample >= 16))
    ensures sample - init >= 16 ==> r == Min(init + 1, InfRd)
    ensures init - sample >= 16 ==> r == Max(init - 1, 0)
    ensures 0 <= init <= InfRd ==> Min(init, sample) <= r <= Max(init, sample)
  {
    if sample > init then
      Min(init + Min(1, (sample - init) / 16), InfRd)
    else if sample < init then
      Max(init - Min(1, (init - sample) / 16), 0)
    else
      init
  }

  /** A line of the sampled cache. */
  datatype SampledLine = SampledLine(valid: bool, tag: nat, signature: nat, timestamp: int)

  /** Reuse-distance predictions, keyed by signature. */
  type Rdp = map<int, int>

  /** `detrain`: a valid line that left the sampler unused pushes its
      signature's prediction one step toward `INF_RD` (straight to it for
      an unknown signature) and becomes invalid; an invalid line changes
      nothing. */
  function Detrain(lines: seq<SampledLine>, way: nat, rdp: Rdp): (r: (seq<SampledLine>, Rdp))
    requires way < |lines|
    ensures !lines[way].valid ==> r == (lines, rdp)
    ensures lines[way].valid ==>
      var sig := lines[way].signature;
      && r.0 == lines[way := lines[way].(valid := false)]
      && r.1.Keys == rdp.Keys + {sig}
      && (forall k :: k in rdp && k != sig ==> r.1[k] == rdp[k])
      && (sig in rdp && rdp[sig] < InfRd ==> r.1[sig] == rdp[sig] + 1)
      && (sig !in rdp || rdp[sig] >= InfRd ==> r.1[sig] == InfRd)
  {
    var line := lines[way];
    if !line.valid then (lines, rdp)
    else
      var sig := line.signature;
      var v := if sig in rdp then Min(rdp[sig] + 1, InfRd) else InfRd;
      (lines[way := line.(valid := false)], rdp[sig := v])
  }

  /** Detraining a line twice is detraining it once: the first call
      invalidates it. */
  lemma DetrainIdempotent(lines: seq<SampledLine>, way: nat, rdp: Rdp)
    requires way < |lines|
    ensures var r := Detrain(lines, way, rdp); Detrain(r.0, way, r.1) == r
  {
  }

  // ---------------------------------------------------- sampled cache

  predicate Matches(line: SampledLine, tag: nat)
  {
    line.valid && line.tag == tag
  }

  /** `w` is the first way holding `tag`. */
  predicate IsFirstMatch(lines: seq<SampledLine>, tag: nat, w: nat)
  {
    w < |lines| && Matches(lines[w], tag) && forall j :: 0 <= j < w ==> !Matches(lines[j], tag)
  }

  /** `search_sampled_cache`: the first valid way holding the tag, or -1. */
  method SearchSampledCache(lines: seq<SampledLine>, tag: nat) returns (way: int)
    requires |lines| == SampledWays
    ensures -1 <= way < SampledWays
    ensures way >= 0 ==> IsFirstMatch(lines, tag, way)
    ensures way == -1 <==> forall j :: 0 <= j < |lines| ==> !Matches(lines[j], tag)
  {
    var w := 0;
    while w < SampledWays
      invariant 0 <= w <= SampledWays
      invariant forall j :: 0 <= j < w ==> !Matches(lines[j], tag)
    {
      if lines[w].valid && lines[w].tag == tag {
        return w;
      }
      w := w + 1;
    }
    return -1;
  }

  // ------------------------------------------------------------ training

  /** A `double` converted to `int`: truncation toward zero. */
  function Trunc(x: real): int
  {
    if x >= 0.0 then x.Floor else -((-x).Floor)
  }

  /** How a measured reuse distance is weighed: a prefetch's is scaled by
      `FLEXMIN_PENALTY` and truncated. */
  function Weighed(c: Config, sample: int, prefetch: bool): (r: int)
    requires ValidConfig(c)
    ensures !prefetch ==> r == sample
    ensures 0 <= sample ==> 0 <= r
    ensures c.numCpus == 1 && prefetch ==> r == 2 * sample
  {
    if prefetch then Trunc(sample as real * c.flexminPenalty) else sample
  }

  /** The sampler's hit path: when the line was touched at most `INF_RD`
      sampled accesses ago, that distance trains its signature (recorded as
      is the first time, moved toward by `temporal_difference` after that)
      and the line is consumed. */
  function Train(c: Config, lines: seq<SampledLine>, rdp: Rdp, now: int, way: nat, prefetch: bool): (r: (seq<SampledLine>, Rdp))
    requires ValidConfig(c) && way < |lines|
    ensures TimeElapsed(now, lines[way].timestamp) > InfRd ==> r == (lines, rdp)
    ensures TimeElapsed(now, lines[way].timestamp) <= InfRd ==>
      var sig := lines[way].signature;
      var sample := Weighed(c, TimeElapsed(now, lines[way].timestamp), prefetch);
      && r.0 == lines[way := lines[way].(valid := false)]
      && r.1.Keys == rdp.Keys + {sig}
      && (forall k :: k in rdp && k != sig ==> r.1[k] == rdp[k])
      && (sig !in rdp ==> r.1[sig] == sample)
      && (sig in rdp ==> r.1[sig] == TemporalDifference(rdp[sig], sample))
      && (sig in rdp && 0 <= rdp[sig] <= InfRd && 0 <= sample <= InfRd ==> -1 <= r.1[sig] - rdp[sig] <= 1)
    ensures RdpNonNegative(rdp) && 0 <= now < TimestampLimit && 0 <= lines[way].timestamp < TimestampLimit ==>
      RdpNonNegative(r.1)
  {
    var line := lines[way];
    var elapsed := TimeElapsed(now, line.timestamp);
    if elapsed <= InfRd then
      var sample := Weighed(c, elapsed, prefetch);
      var v := if line.signature in rdp then TemporalDifference(rdp[line.signature], sample) else sample;
      (lines[way := line.(valid := false)], rdp[line.signature := v])
    else
      (lines, rdp)
  }

  predicate RdpNonNegative(rdp: Rdp)
  {
    forall k :: k in rdp ==> rdp[k] >= 0
  }

  /** Detraining keeps every prediction non-negative. */
  lemma DetrainNonNegative(lines: seq<SampledLine>, way: nat, rdp: Rdp)
    requires way < |lines| && RdpNonNegative(rdp)
    ensures RdpNonNegative(Detrain(lines, way, rdp).1)
  {
  }

  // ------------------------------------------------ the sampler's victim

  /** How long ago, in sampled accesses, the line was touched. */
  function Age(lines: seq<SampledLine>, now: int, w: nat): int
    requires w < |lines|
  {
    TimeElapsed(now, lines[w].timestamp)
  }

  /** The sampled set has the right size and its timestamps come from the
      8-bit counter. */
  predicate SaneLines(lines: seq<SampledLine>)
  {
    |lines| == SampledWays && forall j :: 0 <= j < |lines| ==> 0 <= lines[j].timestamp < TimestampLimit
  }

  /** `w` is the last invalid line. */
  predicate IsLastInvalid(lines: seq<SampledLine>, n: nat, w: int)
    requires n <= |lines|
  {
    0 <= w < n && !lines[w].valid && forall j :: w < j < n ==> lines[j].valid
  }

  /** `w` is the first of the oldest lines. */
  predicate IsFirstOldest(lines: seq<SampledLine>, now: int, n: nat, w: int)
    requires n <= |lines|
  {
    0 <= w < n && (forall j :: 0 <= j < n ==> Age(lines, now, j) <= Age(lines, now, w))
    && forall j :: 0 <= j < w ==> Age(lines, now, j) < Age(lines, now, w)
  }

  predicate HasInvalid(lines: seq<SampledLine>, n: nat)
    requires n <= |lines|
  {
    exists j :: 0 <= j < n && !lines[j].valid
  }

  /** The line the sampler replaces: the last invalid line if there is
      one, else the first of the lines touched longest ago. */
  predicate IsLruChoice(lines: seq<SampledLine>, now: int, w: int)
  {
    (HasInvalid(lines, |lines|) ==> IsLastInvalid(lines, |lines|, w))
    && (!HasInvalid(lines, |lines|) ==> IsFirstOldest(lines, now, |lines|, w))
  }

  /** The state of the scan after the first `n` lines. */
  predicate LruScanned(lines: seq<SampledLine>, now: int, n: nat, w: int, rd: int)
    requires n <= |lines|
  {
    && (HasInvalid(lines, n) ==> IsLastInvalid(lines, n, w) && rd == InfRd + 1)
    && (!HasInvalid(lines, n) && n == 0 ==> w == -1 && rd == -1)
    && (!HasInvalid(lines, n) && n > 0 ==> IsFirstOldest(lines, now, n, w) && rd == Age(lines, now, w))
  }

  /** One step of the scan over a sane set: an invalid line takes over, a
      strictly older valid line takes over while no invalid line is known. */
  lemma LruStep(lines: seq<SampledLine>, now: int, n: nat, w: int, rd: int)
    requires SaneLines(lines) && 0 <= now < TimestampLimit && n < |lines|
    requires LruScanned(lines, now, n, w, rd)
    ensures !lines[n].valid ==> LruScanned(lines, now, n + 1, n, InfRd + 1)
    ensures lines[n].valid && Age(lines, now, n) > rd ==> LruScanned(lines, now, n + 1, n, Age(lines, now, n))
    ensures lines[n].valid && Age(lines, now, n) <= rd ==> LruScanned(lines, now, n + 1, w, rd)
  {
    assert 0 <= Age(lines, now, n) <= InfRd;
    if !lines[n].valid {
      assert HasInvalid(lines, n + 1);
    } else if HasInvalid(lines, n) {
      var j :| 0 <= j < n && !lines[j].valid;
      assert HasInvalid(lines, n + 1);
    } else {
      assert !HasInvalid(lines, n + 1) by {
        forall j | 0 <= j < n + 1
          ensures lines[j].valid
        {
          if j < n {
            assert !(0 <= j < n && !lines[j].valid);
          }
        }
      }
    }
  }

  /** The scan that picks the sampler's victim.  A valid line touched more
      than `INF_RD` accesses ago is detrained on the way; with timestamps
      from the 8-bit counter that never happens, and the scan changes
      nothing. */
  method SelectLru(lines: seq<SampledLine>, rdp: Rdp, now: int) returns (lruWay: int, lines': seq<SampledLine>, rdp': Rdp)
    requires |lines| == SampledWays
    ensures |lines'| == SampledWays && -1 <= lruWay < SampledWays
    ensures SaneLines(lines) && 0 <= now < TimestampLimit ==>
      lines' == lines && rdp' == rdp && 0 <= lruWay && IsLruChoice(lines, now, lruWay)
  {
    lruWay, lines', rdp' := -1, lines, rdp;
    var lruRd := -1;
    var w := 0;
    ghost var sane := SaneLines(lines) && 0 <= now < TimestampLimit;
    while w < SampledWays
      invariant 0 <= w <= SampledWays && |lines'| == SampledWays && -1 <= lruWay < SampledWays
      invariant sane ==> lines' == lines && rdp' == rdp && LruScanned(lines, now, w, lruWay, lruRd)
    {
      if sane {
        LruStep(lines, now, w, lruWay, lruRd);
      }
      if !lines'[w].valid {
        lruWay, lruRd := w, InfRd + 1;
      } else {
        var sample := TimeElapsed(now, lines'[w].timestamp);
        if sample > InfRd {
          lruWay, lruRd := w, InfRd + 1;
          lines', rdp' := Detrain(lines', w, rdp').0, Detrain(lines', w, rdp').1;
        } else if sample > lruRd {
          lruWay, lruRd := w, sample;
        }
      }
      w := w + 1;
    }
  }

  // ----------------------------------------------------------- insertion

  function FirstInvalidFrom(lines: seq<SampledLine>, i: nat): (w: nat)
    requires i <= |lines|
    ensures i <= w <= |lines|
    ensures w < |lines| ==> !lines[w].valid
    ensures forall j :: i <= j < w ==> lines[j].valid
    decreases |lines| - i
  {
    if i == |lines| then i
    else if !lines[i].valid then i
    else FirstInvalidFrom(lines, i + 1)
  }

  /** The first invalid line, or `|lines|` when every line is valid. */
  function FirstInvalid(lines: seq<SampledLine>): (w: nat)
    ensures w <= |lines|
    ensures w < |lines| ==> !lines[w].valid
    ensures w == |lines| <==> !HasInvalid(lines, |lines|)
    ensures forall j :: 0 <= j < w ==> lines[j].valid
  {
    FirstInvalidFrom(lines, 0)
  }

  /** Filling the first invalid line with the access. */
  function Insert(lines: seq<SampledLine>, tag: nat, sig: nat, now: int): seq<SampledLine>
  {
    var w := FirstInvalid(lines);
    if w < |lines| then lines[w := SampledLine(true, tag, sig, now)] else lines
  }

  function FirstMatchFrom(lines: seq<SampledLine>, tag: nat, i: nat): (w: nat)
    requires i <= |lines|
    ensures i <= w <= |lines|
    ensures w < |lines| ==> Matches(lines[w], tag)
    ensures forall j :: i <= j < w ==> !Matches(lines[j], tag)
    decreases |lines| - i
  {
    if i == |lines| then i
    else if Matches(lines[i], tag) then i
    else FirstMatchFrom(lines, tag, i + 1)
  }

  /** The first valid line holding `tag`, or `|lines|` when none does. */
  function FirstMatch(lines: seq<SampledLine>, tag: nat): (w: nat)
    ensures w <= |lines|
    ensures w < |lines| ==> IsFirstMatch(lines, tag, w)
    ensures w == |lines| <==> forall j :: 0 <= j < |lines| ==> !Matches(lines[j], tag)
  {
    FirstMatchFrom(lines, tag, 0)
  }

  /** The hit path of the sampled-set step: the first line holding the tag,
      if any, trains its signature and is consumed; otherwise nothing
      changes. */
  function TrainHit(c: Config, lines: seq<SampledLine>, rdp: Rdp, now: int, tag: nat, prefetch: bool): (seq<SampledLine>, Rdp)
    requires ValidConfig(c)
  {
    var m := FirstMatch(lines, tag);
    if m < |lines| then Train(c, lines, rdp, now, m, prefetch) else (lines, rdp)
  }

  /** The replacement path of the sampled-set step from `l1`, `r1`: the
      sampler's choice `victim` is detrained (which changes something only
      when it is still valid, that is when the set is full) and the access
      fills the first free line. */
  predicate Recorded(l1: seq<SampledLine>, r1: Rdp, now: int, tag: nat, sig: nat, victim: nat,
                     lines': seq<SampledLine>, rdp': Rdp, slot: nat)
  {
    && victim < |l1| && IsLruChoice(l1, now, victim)
    && var d := Detrain(l1, victim, r1);
    && lines' == Insert(d.0, tag, sig, now) && rdp' == d.1 && slot == FirstInvalid(d.0)
  }

  /** The sampler's choice is a single line. */
  lemma LruChoiceUnique(lines: seq<SampledLine>, now: int, w1: int, w2: int)
    requires IsLruChoice(lines, now, w1) && IsLruChoice(lines, now, w2)
    ensures w1 == w2
  {
    if HasInvalid(lines, |lines|) {
      assert !lines[w1].valid && !lines[w2].valid;
    } else {
      assert Age(lines, now, w1) == Age(lines, now, w2);
    }
  }

  /** No tag is held by two valid lines. */
  predicate NoDuplicateTags(lines: seq<SampledLine>)
  {
    forall i, j :: 0 <= i < |lines| && 0 <= j < |lines| && Matches(lines[i], lines[j].tag) && lines[j].valid ==> i == j
  }

  /** The sampled-set part of `update_replacement_state`: an earlier
      sighting of the block trains its signature and is consumed, the
      sampler's victim is detrained, and the access is recorded in the
      first free line. */
  method SamplerStep(c: Config, lines: seq<SampledLine>, rdp: Rdp, now: int, tag: nat, sig: nat, prefetch: bool)
    returns (lines': seq<SampledLine>, rdp': Rdp, slot: nat, victim: nat)
    requires ValidConfig(c) && SaneLines(lines) && NoDuplicateTags(lines) && 0 <= now < TimestampLimit
    ensures SaneLines(lines') && NoDuplicateTags(lines')
    ensures IsFirstMatch(lines', tag, slot) && lines'[slot].signature == sig && lines'[slot].timestamp == now
    ensures forall j :: 0 <= j < |lines| && j != slot ==> lines'[j] == lines[j] || lines'[j] == lines[j].(valid := false)
    ensures forall j: nat :: IsFirstMatch(lines, tag, j) ==> lines[j].signature in rdp'
    ensures rdp.Keys <= rdp'.Keys
    ensures RdpNonNegative(rdp) ==> RdpNonNegative(rdp')
    ensures (forall j :: 0 <= j < |lines| ==> !Matches(lines[j], tag)) && HasInvalid(lines, |lines|) ==>
      rdp' == rdp && slot == FirstInvalid(lines) && lines' == lines[slot := SampledLine(true, tag, sig, now)]
    ensures var t := TrainHit(c, lines, rdp, now, tag, prefetch);
      Recorded(t.0, t.1, now, tag, sig, victim, lines', rdp', slot)
  {
    var l1, r1, hit := TrainStep(c, lines, rdp, now, tag, prefetch);
    lines', rdp', slot, victim := RecordStep(l1, r1, now, tag, sig);
    forall j | 0 <= j < |lines| && j != slot
      ensures lines'[j] == lines[j] || lines'[j] == lines[j].(valid := false)
    {
      assert lines'[j] == l1[j] || lines'[j] == l1[j].(valid := false);
    }
  }

  /** The first half of the sampled-set step: a sighting of the tag trains
      its signature and is invalidated, so no line holds the tag any more. */
  method TrainStep(c: Config, lines: seq<SampledLine>, rdp: Rdp, now: int, tag: nat, prefetch: bool)
    returns (l1: seq<SampledLine>, r1: Rdp, hit: bool)
    requires ValidConfig(c) && SaneLines(lines) && NoDuplicateTags(lines) && 0 <= now < TimestampLimit
    ensures SaneLines(l1) && NoDuplicateTags(l1)
    ensures forall j :: 0 <= j < |l1| ==> !Matches(l1[j], tag)
    ensures forall j :: 0 <= j < |lines| ==> l1[j] == lines[j] || l1[j] == lines[j].(valid := false)
    ensures forall j: nat :: IsFirstMatch(lines, tag, j) ==> lines[j].signature in r1
    ensures rdp.Keys <= r1.Keys
    ensures RdpNonNegative(rdp) ==> RdpNonNegative(r1)
    ensures hit <==> !forall j :: 0 <= j < |lines| ==> !Matches(lines[j], tag)
    ensures !hit ==> l1 == lines && r1 == rdp
    ensures (l1, r1) == TrainHit(c, lines, rdp, now, tag, prefetch)
  {
    var m := SearchSampledCache(lines, tag);
    l1, r1, hit := lines, rdp, m > -1;
    if m > -1 {
      var t := Train(c, lines, rdp, now, m, prefetch);
      l1, r1 := t.0, t.1;
      assert FirstMatch(lines, tag) == m;
      assert forall j :: 0 <= j < |l1| ==> !Matches(l1[j], tag);
      forall j: nat | IsFirstMatch(lines, tag, j)
        ensures lines[j].signature in r1
      {
        assert j == m;
      }
    }
  }

  /** The second half: the sampler's victim is detrained and the access is
      recorded in the first free line. */
  method RecordStep(l1: seq<SampledLine>, r1: Rdp, now: int, tag: nat, sig: nat)
    returns (lines': seq<SampledLine>, rdp': Rdp, slot: nat, victim: nat)
    requires SaneLines(l1) && NoDuplicateTags(l1) && 0 <= now < TimestampLimit
    requires forall j :: 0 <= j < |l1| ==> !Matches(l1[j], tag)
    ensures SaneLines(lines') && NoDuplicateTags(lines')
    ensures IsFirstMatch(lines', tag, slot) && lines'[slot].signature == sig && lines'[slot].timestamp == now
    ensures forall j :: 0 <= j < |l1| && j != slot ==> lines'[j] == l1[j] || lines'[j] == l1[j].(valid := false)
    ensures r1.Keys <= rdp'.Keys
    ensures RdpNonNegative(r1) ==> RdpNonNegative(rdp')
    ensures HasInvalid(l1, |l1|) ==> rdp' == r1 && slot == FirstInvalid(l1) && lines' == l1[slot := SampledLine(true, tag, sig, now)]
    ensures Recorded(l1, r1, now, tag, sig, victim, lines', rdp', slot)
  {
    var lru, l2, r2 := SelectLru(l1, r1, now);
    victim := lru;
    var d := Detrain(l2, lru, r2);
    if RdpNonNegative(r1) {
      DetrainNonNegative(l2, lru, r2);
    }
    slot := FirstInvalid(d.0);
    lines' := Insert(d.0, tag, sig, now);
    rdp' := d.1;
    assert HasInvalid(d.0, |d.0|) by {
      assert !d.0[lru].valid;
    }
    InsertFills(d.0, tag, sig, now);
    if HasInvalid(l1, |l1|) {
      assert d == (l1, r1);
    }
  }

  /** With a free line and no line holding the tag, the access fills the
      first free line and is the first (only) line holding the tag. */
  lemma InsertFills(lines: seq<SampledLine>, tag: nat, sig: nat, now: int)
    requires HasInvalid(lines, |lines|)
    requires forall j :: 0 <= j < |lines| ==> !Matches(lines[j], tag)
    ensures var w := FirstInvalid(lines);
      w < |lines| && Insert(lines, tag, sig, now) == lines[w := SampledLine(true, tag, sig, now)]
      && IsFirstMatch(Insert(lines, tag, sig, now), tag, w)
  {
  }

  // --------------------------------------------------------------- state

  /** The policy's globals: `etr`, `etr_clock`, `rdp`, `current_timestamp`
      and `sampled_cache`. */
  datatype Mockingjay = Mockingjay(
    etr: seq<seq<int>>,
    etrClock: seq<int>,
    rdp: Rdp,
    timestamp: seq<int>,
    sampled: map<int, seq<SampledLine>>)

  /** A set's ETRs: one per way, at most `INF_ETR` from zero. */
  predicate EtrRow(row: seq<int>)
  {
    |row| == LlcWay && forall w :: 0 <= w < |row| ==> -InfEtr <= row[w] <= InfEtr
  }

  predicate EtrRows(etr: seq<seq<int>>)
  {
    forall s :: 0 <= s < |etr| ==> EtrRow(etr[s])
  }

  predicate ClocksInRange(clock: seq<int>)
  {
    forall s :: 0 <= s < |clock| ==> 1 <= clock[s] <= Granularity
  }

  predicate TimestampsInRange(ts: seq<int>)
  {
    forall s :: 0 <= s < |ts| ==> 0 <= ts[s] < TimestampLimit
  }

  predicate SamplerSane(sampled: map<int, seq<SampledLine>>)
  {
    forall k :: k in sampled ==> SaneLines(sampled[k]) && NoDuplicateTags(sampled[k])
  }

  /** What every reachable state satisfies. */
  predicate Valid(c: Config, p: Mockingjay)
  {
    && |p.etr| == c.llcSets && |p.etrClock| == c.llcSets && |p.timestamp| == c.llcSets
    && EtrRows(p.etr)
    && ClocksInRange(p.etrClock)
    && TimestampsInRange(p.timestamp)
    && RdpNonNegative(p.rdp)
    && SamplerSane(p.sampled)
  }

  /** The sampled-cache sets `initialize_replacement` allocates: for each
      sampled set, 16 sets spaced `2^LOG2_LLC_SET` apart. */
  function AllocatedKeys(c: Config): set<int>
    requires ValidConfig(c)
  {
    set s: nat, i: nat | s < c.llcSets && i < Pow2(Log2SampledCacheSets) && IsSampledSet(c, s) :: Key(c, s, i)
  }

  /** `set + modifier * i`. */
  function Key(c: Config, s: nat, i: nat): int
  {
    s + Pow2(c.log2LlcSet) * i
  }

  /** A value-initialised `SampledCacheLine`. */
  const BlankLine: SampledLine := SampledLine(false, 0, 0, 0)

  /** `initialize_replacement`, with the sampled lines value-initialised
      as the free-function version does: every clock at `GRANULARITY`,
      every timestamp and ETR 0, no prediction, no valid sampled line. */
  function Init(c: Config): (p: Mockingjay)
    requires ValidConfig(c)
    ensures Valid(c, p)
    ensures p.sampled.Keys == AllocatedKeys(c)
    ensures forall k, j :: k in p.sampled && 0 <= j < |p.sampled[k]| ==> !p.sampled[k][j].valid
    ensures forall s :: 0 <= s < c.llcSets ==> p.etrClock[s] == Granularity
  {
    Mockingjay(
      seq(c.llcSets, _ => seq(LlcWay, _ => 0)),
      seq(c.llcSets, _ => Granularity),
      map[],
      seq(c.llcSets, _ => 0),
      map k | k in AllocatedKeys(c) :: seq(SampledWays, _ => BlankLine))
  }

  /** The class-based version allocates the lines with `new
      SampledCacheLine[SAMPLED_CACHE_WAYS]`, without `()`: their fields are
      left as whatever the memory held, here `junk`. */
  function InitAsWritten(c: Config, junk: seq<SampledLine>): (p: Mockingjay)
    requires ValidConfig(c) && |junk| == SampledWays
    ensures p.sampled.Keys == AllocatedKeys(c)
    ensures forall k :: k in p.sampled ==> p.sampled[k] == junk
  {
    Init(c).(sampled := map k | k in AllocatedKeys(c) :: junk)
  }

  /** Leftover memory that reads as a valid line makes the very first
      access with its tag "hit" a line nobody inserted and train the
      predictor on a made-up reuse distance; a leftover timestamp outside
      the counter's range breaks the state invariant. */
  lemma JunkInitHits(c: Config, k: int)
    requires ValidConfig(c) && k in AllocatedKeys(c)
    ensures var junk := [SampledLine(true, 0, 0, 0), BlankLine, BlankLine, BlankLine, BlankLine];
      IsFirstMatch(InitAsWritten(c, junk).sampled[k], 0, 0)
    ensures !Valid(c, InitAsWritten(c, [SampledLine(false, 0, 0, 1000), BlankLine, BlankLine, BlankLine, BlankLine]))
  {
    var bad := InitAsWritten(c, [SampledLine(false, 0, 0, 1000), BlankLine, BlankLine, BlankLine, BlankLine]);
    assert bad.sampled[k][0].timestamp == 1000;
  }

  /** With value-initialised lines no access hits in the sampler before a
      line has been filled. */
  lemma InitNoHits(c: Config, k: int, tag: nat)
    requires ValidConfig(c) && k in AllocatedKeys(c)
    ensures forall j :: 0 <= j < |Init(c).sampled[k]| ==> !Matches(Init(c).sampled[k][j], tag)
  {
  }

  /** Every sampled-cache set `update_replacement_state` reaches was
      allocated: the access's cache set is the low `LOG2_LLC_SET` bits of
      its block address, so the sampled-cache index is that set plus a
      multiple of `2^LOG2_LLC_SET` below 16 of them. */
  lemma IndexAllocated(c: Config, s: nat, addr: nat)
    requires ValidConfig(c)
    requires s == (addr / Pow2(c.log2Block)) % Pow2(c.log2LlcSet) && IsSampledSet(c, s)
    ensures SampledIndex(c, addr) in AllocatedKeys(c)
  {
    DivNat(addr, Pow2(c.log2Block));
    var y: nat := addr / Pow2(c.log2Block);
    var k := c.log2LlcSet;
    var i := LowDigits(y, k, Log2SampledCacheSets);
    assert SampledIndex(c, addr) == y % Pow2(Log2SampledCacheSets + k);
    assert SampledIndex(c, addr) == Key(c, s, i);
    assert s < c.llcSets;
    KeyAllocated(c, s, i);
  }

  lemma KeyAllocated(c: Config, s: nat, i: nat)
    requires ValidConfig(c) && s < c.llcSets && i < Pow2(Log2SampledCacheSets) && IsSampledSet(c, s)
    ensures Key(c, s, i) in AllocatedKeys(c)
  {
  }

  /** The low `k + m` bits of `y` are its low `k` bits plus the next `m`
      bits shifted up by `k`. */
  lemma LowDigits(y: nat, k: nat, m: nat) returns (i: nat)
    ensures i == (y / Pow2(k)) % Pow2(m) && i < Pow2(m)
    ensures y % Pow2(m + k) == y % Pow2(k) + Pow2(k) * i
    ensures y % Pow2(k) < Pow2(k)
  {
    i := (y / Pow2(k)) % Pow2(m);
    Pow2Add(k, m);
    assert Pow2(m + k) == Pow2(k) * Pow2(m);
    ModProduct(y, Pow2(k), Pow2(m));
  }

  // --------------------------------------------------------- find_victim

  function Abs(x: int): nat
  {
    if x < 0 then -x else x
  }

  /** The largest `|etr|` of the row (0 for no row). */
  function MaxAbs(row: seq<int>): (m: nat)
    ensures forall j :: 0 <= j < |row| ==> Abs(row[j]) <= m
    ensures m == 0 || exists j :: 0 <= j < |row| && Abs(row[j]) == m
  {
    if |row| == 0 then 0 else Max(MaxAbs(row[..|row| - 1]), Abs(row[|row| - 1]))
  }

  /** Some way at the largest `|etr|` has a negative ETR, i.e. is overdue. */
  predicate HasOverdueMax(row: seq<int>, n: nat, m: int)
    requires n <= |row|
  {
    exists j :: 0 <= j < n && row[j] < 0 && Abs(row[j]) == m
  }

  /** The scan's choice among the first `n` ways, whose largest `|etr|` is
      `m`: the last overdue way at `m` if there is one, else the first way
      at `m`. */
  predicate IsEtrVictimBelow(row: seq<int>, n: nat, m: int, v: nat)
    requires n <= |row|
  {
    && v < n && Abs(row[v]) == m
    && (HasOverdueMax(row, n, m) ==> row[v] < 0 && forall j :: v < j < n ==> !(row[j] < 0 && Abs(row[j]) == m))
    && (!HasOverdueMax(row, n, m) ==> forall j :: 0 <= j < v ==> Abs(row[j]) < m)
  }

  predicate IsEtrVictim(row: seq<int>, v: nat)
  {
    IsEtrVictimBelow(row, |row|, MaxAbs(row), v)
  }

  lemma MaxAbsPrefix(row: seq<int>, i: nat)
    requires i < |row|
    ensures MaxAbs(row[..i + 1]) == Max(MaxAbs(row[..i]), Abs(row[i]))
  {
    assert row[..i + 1][..i] == row[..i];
  }

  /** `find_victim`'s bypass test: a non-write whose signature predicts a
      reuse further away than `MAX_RD`, or further than every resident
      line's ETR. */
  predicate Bypasses(rdp: Rdp, sig: nat, t: AccessType, maxEtr: int)
  {
    t != Write && sig in rdp && (rdp[sig] > MaxRd || Quot(rdp[sig], Granularity) > maxEtr)
  }

  /** C's `/`, which truncates toward zero. */
  function Quot(a: int, b: int): int
    requires b > 0
  {
    if a >= 0 then a / b else -((-a) / b)
  }

  /** One step of the scan: a way further out, or an overdue way as far
      out, takes over. */
  /** One step of the scan: way `w` takes over when it is further out, or
      as far out and overdue. */
  function ScanNext(row: seq<int>, w: nat, m: int, v: nat): (int, nat)
    requires w < |row|
  {
    if Abs(row[w]) > m || (Abs(row[w]) == m && row[w] < 0) then (Abs(row[w]), w) else (m, v)
  }

  lemma EtrScanStep(row: seq<int>, w: nat, m: int, v: nat)
    requires w < |row| && m == MaxAbs(row[..w])
    requires w == 0 ==> v == 0
    requires w > 0 ==> IsEtrVictimBelow(row, w, m, v)
    ensures IsEtrVictimBelow(row, w + 1, ScanNext(row, w, m, v).0, ScanNext(row, w, m, v).1)
    ensures MaxAbs(row[..w + 1]) == ScanNext(row, w, m, v).0
    ensures ScanState(row, w + 1, ScanNext(row, w, m, v).0, ScanNext(row, w, m, v).1)
  {
    MaxAbsPrefix(row, w);
    if Abs(row[w]) > m {
      MaxAbsBounds(row, w);
      EtrFurther(row, w, m);
    } else if Abs(row[w]) == m && row[w] < 0 {
      EtrOverdue(row, w, m);
    } else if w == 0 {
      assert m == 0;
      assert !HasOverdueMax(row, 1, 0);
    } else {
      EtrKeeps(row, w, m, v);
    }
  }

  lemma MaxAbsBounds(row: seq<int>, w: nat)
    requires w <= |row|
    ensures forall j :: 0 <= j < w ==> Abs(row[j]) <= MaxAbs(row[..w])
  {
    assert forall j :: 0 <= j < w ==> row[..w][j] == row[j];
  }

  /** A way further out than all before it takes over. */
  lemma EtrFurther(row: seq<int>, w: nat, m: int)
    requires w < |row| && Abs(row[w]) > m
    requires forall j :: 0 <= j < w ==> Abs(row[j]) <= m
    ensures IsEtrVictimBelow(row, w + 1, Abs(row[w]), w)
  {
    var m' := Abs(row[w]);
    assert !HasOverdueMax(row, w, m') by {
      forall j | 0 <= j < w
        ensures !(row[j] < 0 && Abs(row[j]) == m')
      {
        assert Abs(row[j]) <= m;
      }
    }
  }

  /** An overdue way as far out as the furthest so far takes over. */
  lemma EtrOverdue(row: seq<int>, w: nat, m: int)
    requires w < |row| && Abs(row[w]) == m && row[w] < 0
    ensures IsEtrVictimBelow(row, w + 1, m, w)
  {
    assert HasOverdueMax(row, w + 1, m);
  }

  /** Any other way leaves the choice where it was. */
  lemma EtrKeeps(row: seq<int>, w: nat, m: int, v: nat)
    requires 0 < w < |row| && IsEtrVictimBelow(row, w, m, v)
    requires Abs(row[w]) <= m && !(Abs(row[w]) == m && row[w] < 0)
    ensures IsEtrVictimBelow(row, w + 1, m, v)
  {
    if HasOverdueMax(row, w + 1, m) {
      var j :| 0 <= j < w + 1 && row[j] < 0 && Abs(row[j]) == m;
      assert HasOverdueMax(row, w, m);
    }
  }

  /** The scan for the largest `|etr|`. */
  method MaxEtrScan(row: seq<int>) returns (victim: nat, maxEtr: int)
    requires |row| > 0
    ensures maxEtr == MaxAbs(row) && IsEtrVictim(row, victim)
  {
    victim, maxEtr := 0, 0;
    var w := 0;
    while w < |row|
      invariant w <= |row| && ScanState(row, w, maxEtr, victim)
    {
      EtrScanStep(row, w, maxEtr, victim);
      maxEtr, victim := ScanNext(row, w, maxEtr, victim).0, ScanNext(row, w, maxEtr, victim).1;
      w := w + 1;
    }
    ScanDone(row, maxEtr, victim);
  }

  /** What the scan knows after the first `w` ways: the largest `|etr|`
      among them and its choice among them. */
  predicate ScanState(row: seq<int>, w: nat, m: int, v: nat)
    requires w <= |row|
  {
    && m == MaxAbs(row[..w])
    && (w == 0 ==> v == 0)
    && (w > 0 ==> IsEtrVictimBelow(row, w, m, v))
  }

  lemma ScanDone(row: seq<int>, m: int, v: nat)
    requires |row| > 0 && ScanState(row, |row|, m, v)
    ensures m == MaxAbs(row) && IsEtrVictim(row, v)
  {
    assert row[..|row|] == row;
  }

  /** `find_victim`: the first invalid way; otherwise `LLC_WAY` (bypass) or
      the way the ETR scan picks. */
  method FindVictim(c: Config, p: Mockingjay, s: nat, blockValid: seq<bool>, pc: bv64, core: bv64, t: AccessType)
    returns (victim: nat)
    requires ValidConfig(c) && s < |p.etr| && |p.etr[s]| == LlcWay && |blockValid| == LlcWay
    ensures victim <= LlcWay
    ensures (exists w :: 0 <= w < LlcWay && !blockValid[w]) ==>
      victim < LlcWay && !blockValid[victim] && forall j :: 0 <= j < victim ==> blockValid[j]
    ensures (forall w :: 0 <= w < LlcWay ==> blockValid[w]) ==>
      var sig := Signature(c, pc, false, t == Prefetch, core);
      && (victim == LlcWay <==> Bypasses(p.rdp, sig, t, MaxAbs(p.etr[s])))
      && (victim < LlcWay ==> IsEtrVictim(p.etr[s], victim))
  {
    var w := 0;
    while w < LlcWay
      invariant 0 <= w <= LlcWay
      invariant forall j :: 0 <= j < w ==> blockValid[j]
    {
      if !blockValid[w] {
        return w;
      }
      w := w + 1;
    }
    var maxEtr;
    victim, maxEtr := MaxEtrScan(p.etr[s]);
    var sig := Signature(c, pc, false, t == Prefetch, core);
    if t != Write && sig in p.rdp && (p.rdp[sig] > MaxRd || Quot(p.rdp[sig], Granularity) > maxEtr) {
      victim := LlcWay;
    }
  }

  // -------------------------------------------------------------- update

  /** The ETR an inserted or reused line gets from its signature's
      prediction: the predicted reuse distance in units of `GRANULARITY`,
      `INF_ETR` when it exceeds `MAX_RD`, and for an unknown signature 0
      on one core and `INF_ETR` on several. */
  function EtrFor(c: Config, rdp: Rdp, sig: nat): (r: int)
    ensures RdpNonNegative(rdp) ==> 0 <= r <= InfEtr
    ensures sig in rdp && 0 <= rdp[sig] <= MaxRd ==> r * Granularity <= rdp[sig] < (r + 1) * Granularity
    ensures sig in rdp && rdp[sig] > MaxRd ==> r == InfEtr
    ensures sig !in rdp ==> (r == 0 <==> c.numCpus == 1) && (r != 0 ==> r == InfEtr)
  {
    if sig !in rdp then (if c.numCpus == 1 then 0 else InfEtr)
    else if rdp[sig] > MaxRd then InfEtr
    else Quot(rdp[sig], Granularity)
  }

  /** A bypass happens only when the incoming block's ETR, as an insertion
      would set it, is at least every resident line's `|etr|`, and a
      known non-write signature that is not bypassed gets an ETR no larger
      than that: the block that would be evicted first is the one kept out. */
  lemma BypassMatchesEtr(c: Config, p: Mockingjay, s: nat, sig: nat, t: AccessType)
    requires Valid(c, p) && s < |p.etr|
    ensures Bypasses(p.rdp, sig, t, MaxAbs(p.etr[s])) ==> EtrFor(c, p.rdp, sig) >= MaxAbs(p.etr[s])
    ensures t != Write && sig in p.rdp && !Bypasses(p.rdp, sig, t, MaxAbs(p.etr[s])) ==>
      EtrFor(c, p.rdp, sig) <= MaxAbs(p.etr[s])
  {
    var row := p.etr[s];
    assert EtrRow(row);
    if MaxAbs(row) != 0 {
      var j :| 0 <= j < |row| && Abs(row[j]) == MaxAbs(row);
    }
  }

  /** `etr_clock` after an access: `GRANULARITY` wraps to 0 before the
      increment. */
  function NextClock(clock: int): (r: int)
    ensures 1 <= clock <= Granularity ==> 1 <= r <= Granularity && r == clock % Granularity + 1
  {
    (if clock == Granularity then 0 else clock) + 1
  }

  /** The clock after `n` accesses. */
  function Clocks(clock: int, n: nat): int
  {
    if n == 0 then clock else NextClock(Clocks(clock, n - 1))
  }

  /** Starting from `initialize_replacement`'s `GRANULARITY`, the set ages
      on its `n`-th non-write access (counting from 0) exactly when `n` is
      a multiple of `GRANULARITY`. */
  lemma AgingCadence(n: nat)
    ensures Clocks(Granularity, n) == Granularity <==> n % Granularity == 0
    ensures Clocks(Granularity, n) == (n + Granularity - 1) % Granularity + 1
  {
    AgingClock(n);
    var q, r := n / Granularity, n % Granularity;
    if r == 0 {
      DivModUnique(n + Granularity - 1, Granularity, q, Granularity - 1);
    } else {
      DivModUnique(n + Granularity - 1, Granularity, q + 1, r - 1);
    }
  }

  /** The clock after `n` accesses from `GRANULARITY`, in closed form. */
  lemma {:induction false} AgingClock(n: nat)
    ensures Clocks(Granularity, n) == (n + Granularity - 1) % Granularity + 1
  {
    if n > 0 {
      AgingClock(n - 1);
      ModSucc(n + Granularity - 2, Granularity);
    }
  }

  /** The remainder of a successor wraps to 0 after `m - 1`. */
  lemma ModSucc(a: nat, m: nat)
    requires m > 0
    ensures (a + 1) % m == if a % m == m - 1 then 0 else a % m + 1
  {
    var q, r := a / m, a % m;
    assert a == q * m + r;
    if r == m - 1 {
      DivModUnique(a + 1, m, q + 1, 0);
    } else {
      DivModUnique(a + 1, m, q, r + 1);
    }
  }

  /** The aging step: every `GRANULARITY`-th access lowers by one the ETR
      of each other way not yet at `INF_ETR` in size. */
  function AgeRow(row: seq<int>, way: int, tick: bool): (r: seq<int>)
    ensures |r| == |row|
    ensures !tick ==> r == row
    ensures forall w :: 0 <= w < |row| ==> r[w] == row[w] || (tick && w != way && Abs(row[w]) < InfEtr && r[w] == row[w] - 1)
    ensures tick ==> forall w :: 0 <= w < |row| && w != way && Abs(row[w]) < InfEtr ==> r[w] == row[w] - 1
    ensures EtrRow(row) ==> EtrRow(r)
  {
    if tick then seq(|row|, w requires 0 <= w < |row| => if w != way && Abs(row[w]) < InfEtr then row[w] - 1 else row[w])
    else row
  }

  /** What a non-write access does to the ETRs: only its set changes, the
      clock advances, the other ways age on every `GRANULARITY`-th access,
      and the accessed way (unless bypassed) takes its signature's ETR. */
  predicate EtrUpdated(c: Config, p: Mockingjay, r: Mockingjay, s: nat, way: nat, sig: nat)
    requires s < |p.etr| && s < |p.etrClock|
  {
    && |r.etr| == |p.etr| && s < |r.etr| && |r.etr[s]| == |p.etr[s]|
    && (forall s' :: 0 <= s' < |p.etr| && s' != s ==> r.etr[s'] == p.etr[s'])
    && r.etrClock == p.etrClock[s := NextClock(p.etrClock[s])]
    && (forall w :: 0 <= w < |p.etr[s]| && w != way ==>
          r.etr[s][w] == AgeRow(p.etr[s], way, p.etrClock[s] == Granularity)[w])
    && (way < |p.etr[s]| ==> r.etr[s][way] == EtrFor(c, r.rdp, sig))
  }

  /** What a non-write access to a sampled set does to the sampler: the
      set's timestamp ticks, only the access's sampled-cache set changes,
      and that set and the predictor are exactly what training on an
      earlier sighting (`TrainHit`), then detraining the sampler's choice
      and filling the first free line (`Recorded`), make of them. */
  predicate SamplerUpdated(c: Config, p: Mockingjay, r: Mockingjay, s: nat, idx: int, tag: nat, sig: nat, prefetch: bool)
    requires ValidConfig(c) && s < |p.timestamp| && idx in p.sampled
  {
    && r.timestamp == p.timestamp[s := IncrementTimestamp(p.timestamp[s])]
    && r.sampled.Keys == p.sampled.Keys
    && (forall k :: k in p.sampled && k != idx ==> r.sampled[k] == p.sampled[k])
    && (exists slot: nat :: slot < |r.sampled[idx]| && IsFirstMatch(r.sampled[idx], tag, slot)
          && r.sampled[idx][slot].signature == sig && r.sampled[idx][slot].timestamp == p.timestamp[s])
    && p.rdp.Keys <= r.rdp.Keys
    && (exists victim: nat, slot: nat :: victim < |p.sampled[idx]| && slot < |r.sampled[idx]| &&
          var t := TrainHit(c, p.sampled[idx], p.rdp, p.timestamp[s], tag, prefetch);
          Recorded(t.0, t.1, p.timestamp[s], tag, sig, victim, r.sampled[idx], r.rdp, slot))
  }

  lemma RowReplaced(etr: seq<seq<int>>, s: nat, row: seq<int>)
    requires EtrRows(etr) && s < |etr| && EtrRow(row)
    ensures EtrRows(etr[s := row])
  {
  }

  /** `update_replacement_state`.  A write only marks a missed line as
      due at once (`-INF_ETR`); `find_victim` never bypasses a write, so a
      write miss always names a way of the set. */
  method Update(c: Config, p: Mockingjay, s: nat, way: nat, addr: nat, pc: bv64, core: bv64, t: AccessType, hit: bool)
    returns (r: Mockingjay)
    requires ValidConfig(c) && Valid(c, p) && s < c.llcSets && way <= LlcWay
    requires t == Write && !hit ==> way < LlcWay
    requires t != Write && IsSampledSet(c, s) ==> SampledIndex(c, addr) in p.sampled
    ensures Valid(c, r)
    ensures t == Write && hit ==> r == p
    ensures t == Write && !hit ==> r == p.(etr := p.etr[s := p.etr[s][way := -InfEtr]])
    ensures t != Write ==> EtrUpdated(c, p, r, s, way, Signature(c, pc, hit, t == Prefetch, core))
    ensures t != Write && !IsSampledSet(c, s) ==> r.rdp == p.rdp && r.sampled == p.sampled && r.timestamp == p.timestamp
    ensures t != Write && IsSampledSet(c, s) ==>
      SamplerUpdated(c, p, r, s, SampledIndex(c, addr), SampledTag(c, addr), Signature(c, pc, hit, t == Prefetch, core), t == Prefetch)
  {
    if t == Write {
      r := WriteUpdate(c, p, s, way, hit);
    } else {
      r := AccessUpdate(c, p, s, way, addr, pc, core, t, hit);
    }
  }

  /** A write hit changes nothing; a write miss makes the way due at once. */
  method WriteUpdate(c: Config, p: Mockingjay, s: nat, way: nat, hit: bool) returns (r: Mockingjay)
    requires ValidConfig(c) && Valid(c, p) && s < c.llcSets && way <= LlcWay
    requires !hit ==> way < LlcWay
    ensures Valid(c, r)
    ensures hit ==> r == p
    ensures !hit ==> r == p.(etr := p.etr[s := p.etr[s][way := -InfEtr]])
  {
    assert EtrRow(p.etr[s]);
    if hit {
      r := p;
    } else {
      RowReplaced(p.etr, s, p.etr[s][way := -InfEtr]);
      r := p.(etr := p.etr[s := p.etr[s][way := -InfEtr]]);
    }
  }

  /** Any access but a write (a load, RFO, prefetch or translation): the
      sampler of a sampled set learns from it, the set's other ways age,
      and the accessed way takes the ETR its signature predicts. */
  /** The sampler half of `AccessUpdate`: a sampled set's access goes
      through the sampler step; the ETR fields are left as they were. */
  method SamplerPart(c: Config, p: Mockingjay, s: nat, addr: nat, sig: nat, prefetch: bool) returns (q: Mockingjay)
    requires ValidConfig(c) && Valid(c, p) && s < c.llcSets
    requires IsSampledSet(c, s) ==> SampledIndex(c, addr) in p.sampled
    ensures Valid(c, q) && q.etr == p.etr && q.etrClock == p.etrClock
    ensures !IsSampledSet(c, s) ==> q == p
    ensures IsSampledSet(c, s) ==> SamplerUpdated(c, p, q, s, SampledIndex(c, addr), SampledTag(c, addr), sig, prefetch)
  {
    q := p;
    if IsSampledSet(c, s) {
      var idx := SampledIndex(c, addr);
      var lines', rdp', slot, victim := SamplerStep(c, p.sampled[idx], p.rdp, p.timestamp[s], SampledTag(c, addr), sig, prefetch);
      q := p.(rdp := rdp', sampled := p.sampled[idx := lines'], timestamp := p.timestamp[s := IncrementTimestamp(p.timestamp[s])]);
    }
  }

  method AccessUpdate(c: Config, p: Mockingjay, s: nat, way: nat, addr: nat, pc: bv64, core: bv64, t: AccessType, hit: bool)
    returns (r: Mockingjay)
    requires ValidConfig(c) && Valid(c, p) && s < c.llcSets && way <= LlcWay && t != Write
    requires IsSampledSet(c, s) ==> SampledIndex(c, addr) in p.sampled
    ensures Valid(c, r)
    ensures EtrUpdated(c, p, r, s, way, Signature(c, pc, hit, t == Prefetch, core))
    ensures !IsSampledSet(c, s) ==> r.rdp == p.rdp && r.sampled == p.sampled && r.timestamp == p.timestamp
    ensures IsSampledSet(c, s) ==>
      SamplerUpdated(c, p, r, s, SampledIndex(c, addr), SampledTag(c, addr), Signature(c, pc, hit, t == Prefetch, core), t == Prefetch)
  {
    var sig := Signature(c, pc, hit, t == Prefetch, core);
    var q := SamplerPart(c, p, s, addr, sig, t == Prefetch);
    r := EtrPart(c, p, q, s, way, sig);
    if IsSampledSet(c, s) {
      SamplerCarried(c, p, q, r, s, SampledIndex(c, addr), SampledTag(c, addr), sig, t == Prefetch);
    }
  }

  /** The ETR half of `AccessUpdate`, applied after the sampler half `q`
      (which left the ETR fields alone): the set ages and the accessed way
      takes the ETR the updated predictor gives its signature. */
  method EtrPart(c: Config, p: Mockingjay, q: Mockingjay, s: nat, way: nat, sig: nat) returns (r: Mockingjay)
    requires ValidConfig(c) && Valid(c, q) && s < c.llcSets && way <= LlcWay
    requires q.etr == p.etr && q.etrClock == p.etrClock
    ensures Valid(c, r) && r.rdp == q.rdp && r.sampled == q.sampled && r.timestamp == q.timestamp
    ensures EtrUpdated(c, p, r, s, way, sig)
  {
    assert EtrRow(p.etr[s]);
    var row := AgeRow(p.etr[s], way, p.etrClock[s] == Granularity);
    if way < LlcWay {
      row := row[way := EtrFor(c, q.rdp, sig)];
    }
    RowReplaced(p.etr, s, row);
    r := q.(etr := p.etr[s := row], etrClock := p.etrClock[s := NextClock(p.etrClock[s])]);
  }

  /** `SamplerUpdated` leaves no freedom: two results that both meet it
      agree on the predictor, the sampled cache and the timestamps. */
  lemma SamplerUpdatedUnique(c: Config, p: Mockingjay, r1: Mockingjay, r2: Mockingjay, s: nat, idx: int, tag: nat, sig: nat, prefetch: bool)
    requires ValidConfig(c) && s < |p.timestamp| && idx in p.sampled
    requires SamplerUpdated(c, p, r1, s, idx, tag, sig, prefetch)
    requires SamplerUpdated(c, p, r2, s, idx, tag, sig, prefetch)
    ensures r1.rdp == r2.rdp && r1.sampled == r2.sampled && r1.timestamp == r2.timestamp
  {
    var t := TrainHit(c, p.sampled[idx], p.rdp, p.timestamp[s], tag, prefetch);
    var v1: nat, s1: nat :| v1 < |p.sampled[idx]| && s1 < |r1.sampled[idx]| &&
      Recorded(t.0, t.1, p.timestamp[s], tag, sig, v1, r1.sampled[idx], r1.rdp, s1);
    var v2: nat, s2: nat :| v2 < |p.sampled[idx]| && s2 < |r2.sampled[idx]| &&
      Recorded(t.0, t.1, p.timestamp[s], tag, sig, v2, r2.sampled[idx], r2.rdp, s2);
    LruChoiceUnique(t.0, p.timestamp[s], v1, v2);
    SetsAgree(p.sampled, r1.sampled, r2.sampled, idx);
  }

  /** Two updates of one entry of a sampled cache that agree on that entry
      agree everywhere. */
  lemma SetsAgree(m: map<int, seq<SampledLine>>, m1: map<int, seq<SampledLine>>, m2: map<int, seq<SampledLine>>, idx: int)
    requires idx in m && m1.Keys == m.Keys && m2.Keys == m.Keys
    requires forall k :: k in m && k != idx ==> m1[k] == m[k]
    requires forall k :: k in m && k != idx ==> m2[k] == m[k]
    requires m1[idx] == m2[idx]
    ensures m1 == m2
  {
    assert forall k :: k in m1 ==> m1[k] == m2[k];
  }

  /** `SamplerUpdated` looks only at the sampler fields of its result. */
  lemma SamplerCarried(c: Config, p: Mockingjay, q: Mockingjay, r: Mockingjay, s: nat, idx: int, tag: nat, sig: nat, prefetch: bool)
    requires ValidConfig(c) && s < |p.timestamp| && idx in p.sampled
    requires SamplerUpdated(c, p, q, s, idx, tag, sig, prefetch)
    requires r.rdp == q.rdp && r.sampled == q.sampled && r.timestamp == q.timestamp
    ensures SamplerUpdated(c, p, r, s, idx, tag, sig, prefetch)
  {
  }
}
