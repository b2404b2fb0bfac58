/** The Hawkeye replacement policy
    (Polices/hawkeye/Hawkeye_Predictor/Hawkeye_Predictor.cc): 3-bit RRIP
    counters per line, set by a PC-indexed predictor of whether OPT would
    have cached the line.  The predictor is a map of 5-bit saturating
    counters indexed by a CRC hash of the PC; sampled sets feed the
    cache-history sampler, whose verdicts train the predictor.  There are
    two predictors, one for prefetches and one for demand accesses. */
module Hawkeye {
  import opened CacheSets
  import S = HawkeyeSampler
  import opened CrcHash

  /** `MAX_PCMAP` and `PCMAP_SIZE`. */
  const MaxPcMap: int := 31
  const PcMapSize: int := 2048
  /** `(MAX_PCMAP + 1) / 2`: an unseen PC's counter, and the friendly bound. */
  const PcMapMiddle: int := (MaxPcMap + 1) / 2
  /** `MAXRRIP`. */
  const MaxRrip: int := 7
  /** `SAMPLER_ENTRIES`. */
  const SamplerEntries: int := 2800
  /** `SAMPLER_SETS`: `SAMPLER_ENTRIES / SAMPLER_HIST`, the number of sampler sets. */
  const SamplerSets: int := SamplerEntries / S.SamplerHist

  // ---------------------------------------------------------------- CRC

  /** `CRC`: 32 rounds over the 64-bit address. */
  function Crc(address: bv64): bv64
  {
    CrcRounds(address, 32)
  }

  lemma CrcOfZero()
    ensures Crc(0) == 0
  {
    RoundsOfZero(32);
  }

  // ---------------------------------------------------------- predictor

  /** `PC_Map`: saturating counters keyed by the PC's hash. */
  type PcMap = map<int, int>

  predicate CountersInRange(m: PcMap)
  {
    forall k :: k in m ==> 0 <= m[k] <= MaxPcMap
  }

  /** `CRC(PC) % PCMAP_SIZE`. */
  function SlotOf(pc: bv64): (k: int)
    ensures 0 <= k < PcMapSize
  {
    (Crc(pc) as int) % PcMapSize
  }

  /** The counter `increase` and `decrease` start from. */
  function Counter(m: PcMap, pc: bv64): int
  {
    if SlotOf(pc) in m then m[SlotOf(pc)] else PcMapMiddle
  }

  /** `get_prediction`: cache-averse (false) exactly when the PC's counter
      exists and is below the middle; an unseen PC is predicted friendly. */
  function GetPrediction(m: PcMap, pc: bv64): (friendly: bool)
    ensures friendly <==> Counter(m, pc) >= PcMapMiddle
  {
    !(SlotOf(pc) in m && m[SlotOf(pc)] < PcMapMiddle)
  }

  /** `increase`: an absent counter starts at the middle, then the counter
      goes up, saturating at `MAX_PCMAP`. */
  function Increase(m: PcMap, pc: bv64): (r: PcMap)
    ensures r.Keys == m.Keys + {SlotOf(pc)}
    ensures forall k :: k in m && k != SlotOf(pc) ==> r[k] == m[k]
    ensures Counter(m, pc) < MaxPcMap ==> r[SlotOf(pc)] == Counter(m, pc) + 1
    ensures Counter(m, pc) >= MaxPcMap ==> r[SlotOf(pc)] == MaxPcMap
    ensures CountersInRange(m) ==> CountersInRange(r)
  {
    var k := SlotOf(pc);
    var c := Counter(m, pc);
    m[k := if c < MaxPcMap then c + 1 else MaxPcMap]
  }

  /** `decrease`: an absent counter starts at the middle, then the counter
      goes down unless it is 0. */
  function Decrease(m: PcMap, pc: bv64): (r: PcMap)
    ensures r.Keys == m.Keys + {SlotOf(pc)}
    ensures forall k :: k in m && k != SlotOf(pc) ==> r[k] == m[k]
    ensures Counter(m, pc) != 0 ==> r[SlotOf(pc)] == Counter(m, pc) - 1
    ensures Counter(m, pc) == 0 ==> r[SlotOf(pc)] == 0
    ensures CountersInRange(m) ==> CountersInRange(r)
  {
    var k := SlotOf(pc);
    var c := Counter(m, pc);
    m[k := if c != 0 then c - 1 else c]
  }

  /** An unseen PC is friendly; one `increase` keeps it friendly and one
      `decrease` makes it averse. */
  lemma FirstTraining(m: PcMap, pc: bv64)
    requires SlotOf(pc) !in m
    ensures GetPrediction(m, pc)
    ensures GetPrediction(Increase(m, pc), pc)
    ensures !GetPrediction(Decrease(m, pc), pc)
  {
  }

  /** Training moves the prediction only in its own direction, and a step
      away from the bounds is undone by the opposite step. */
  lemma TrainingMonotone(m: PcMap, pc: bv64)
    requires CountersInRange(m)
    ensures GetPrediction(m, pc) ==> GetPrediction(Increase(m, pc), pc)
    ensures !GetPrediction(m, pc) ==> !GetPrediction(Decrease(m, pc), pc)
    ensures SlotOf(pc) in m && 0 < m[SlotOf(pc)] ==> Increase(Decrease(m, pc), pc) == m
    ensures SlotOf(pc) in m && m[SlotOf(pc)] < MaxPcMap ==> Decrease(Increase(m, pc), pc) == m
  {
  }

  /** The two predictors, `predictor_demand` and `predictor_prefetch`. */
  datatype Predictors = Predictors(demand: PcMap, prefetch: PcMap)

  predicate PredictorsInRange(pr: Predictors)
  {
    CountersInRange(pr.demand) && CountersInRange(pr.prefetch)
  }

  /** Applies a sampler verdict to the predictor it names. */
  function ApplyTraining(pr: Predictors, t: S.Training): (r: Predictors)
    ensures PredictorsInRange(pr) ==> PredictorsInRange(r)
    ensures t.NoTraining? ==> r == pr
    ensures !t.NoTraining? && t.prefetch ==> r.demand == pr.demand
    ensures !t.NoTraining? && !t.prefetch ==> r.prefetch == pr.prefetch
  {
    match t
    case NoTraining => pr
    case Increase(prefetch, pc) =>
      if prefetch then pr.(prefetch := Increase(pr.prefetch, pc)) else pr.(demand := Increase(pr.demand, pc))
    case Decrease(prefetch, pc) =>
      if prefetch then pr.(prefetch := Decrease(pr.prefetch, pc)) else pr.(demand := Decrease(pr.demand, pc))
  }

  // ------------------------------------------------------ bits, sampling

  /** `bitmask(l)`: the low `l` bits set, all 64 for `l == 64`. */
  function Bitmask(l: nat): (r: bv64)
    requires l <= 64
    ensures l < 64 ==> r >> l == 0 && r == (1 << l) - 1
    ensures l == 64 ==> r == 0xFFFF_FFFF_FFFF_FFFF
  {
    if l == 64 then 0xFFFF_FFFF_FFFF_FFFF else (1 << l) - 1
  }

  /** `bits(x, i, l)`: the `l` bits of `x` from position `i` up. */
  function Bits(x: bv64, i: nat, l: nat): (r: bv64)
    requires i < 64 && l <= 64
    ensures l < 64 ==> r >> l == 0
    ensures l == 64 ==> r == x >> i
  {
    (x >> i) & Bitmask(l)
  }

  /** Extracting the low bits twice is extracting them once. */
  lemma BitsIdempotent(x: bv64, l: nat)
    requires l <= 64
    ensures Bits(Bits(x, 0, l), 0, l) == Bits(x, 0, l)
  {
  }

  /** `is_sampled_set`: the set's low six index bits equal the six bits
      that end at its top index bit (`logSets` is `log2(NUM_SET)`). */
  predicate IsSampledSet(s: nat, logSets: nat)
    requires 6 <= logSets < 70 && s < 0x1_0000_0000
  {
    Bits(s as bv64, 0, 6) == Bits(s as bv64, logSets - 6, 6)
  }

  // -------------------------------------------------------------- state

  /** The per-line `rrip`, `prefetching` and `sample_signature` arrays, the
      per-set `set_timer`, the sampler and the two predictors. */
  datatype Hawkeye = Hawkeye(
    ways: nat, logSets: nat,
    rrip: seq<int>, prefetching: seq<bool>, signature: seq<bv64>,
    timer: seq<int>, sampler: seq<S.Sampler>, predictors: Predictors)

  predicate Valid(p: Hawkeye)
  {
    6 <= p.logSets < 70
    && |p.prefetching| == |p.rrip| && |p.signature| == |p.rrip|
    && (forall i :: 0 <= i < |p.rrip| ==> 0 <= p.rrip[i] <= MaxRrip)
    && (forall s :: 0 <= s < |p.timer| ==> 0 <= p.timer[s] < S.TimerSize)
    && |p.sampler| == SamplerSets
    && (forall i :: 0 <= i < |p.sampler| ==> S.Ordered(p.sampler[i]))
    && PredictorsInRange(p.predictors)
  }

  /** `initialize_replacement`: every line at `MAXRRIP` with signature 0
      and no prefetch mark, every timer at 0, empty samplers and fresh
      predictors. */
  function New(sets: nat, ways: nat, logSets: nat): (p: Hawkeye)
    requires 6 <= logSets < 70
    ensures Valid(p) && p.ways == ways && |p.rrip| == sets * ways && |p.timer| == sets
    ensures forall i :: 0 <= i < sets * ways ==> p.rrip[i] == MaxRrip && p.signature[i] == 0 && !p.prefetching[i]
    ensures forall s :: 0 <= s < sets ==> p.timer[s] == 0
  {
    Hawkeye(ways, logSets,
      seq(sets * ways, _ => MaxRrip), seq(sets * ways, _ => false), seq(sets * ways, _ => 0),
      seq(sets, _ => 0), seq(SamplerSets, _ => map[]), Predictors(map[], map[]))
  }

  // --------------------------------------------------------- find_victim

  /** The last position holding the largest value: the scan with `>=`. */
  predicate IsLastMax(xs: seq<int>, v: nat)
  {
    v < |xs| && (forall j :: 0 <= j < |xs| ==> xs[j] <= xs[v]) && (forall j :: v < j < |xs| ==> xs[j] < xs[v])
  }

  /** The second loop of `find_victim`, from `max_rrpv = 0`. */
  method LastMax(xs: seq<int>) returns (v: nat)
    requires |xs| > 0 && forall j :: 0 <= j < |xs| ==> xs[j] >= 0
    ensures IsLastMax(xs, v)
  {
    var maxRrpv := 0;
    v := 0;
    var i := 0;
    while i < |xs|
      invariant 0 <= i <= |xs| && v < |xs|
      invariant i == 0 ==> v == 0 && maxRrpv == 0
      invariant i > 0 ==> v < i && maxRrpv == xs[v]
      invariant forall j :: 0 <= j < i ==> xs[j] <= maxRrpv
      invariant forall j :: v < j < i ==> xs[j] < maxRrpv
    {
      if xs[i] >= maxRrpv {
        maxRrpv := xs[i];
        v := i;
      }
      i := i + 1;
    }
  }

  /** `find_victim`: the first line at `MAXRRIP`; failing that, the last
      line holding the largest RRPV, and in a sampled set the predictor the
      victim was filled under is trained down on the victim's PC. */
  method FindVictim(p: Hawkeye, s: nat) returns (victim: nat, r: Hawkeye)
    requires Valid(p) && p.ways > 0 && HasSet(p.rrip, s, p.ways) && s < 0x1_0000_0000
    ensures victim < p.ways
    ensures MaxRrip in SetOf(p.rrip, s, p.ways) ==> IsFirstOf(SetOf(p.rrip, s, p.ways), MaxRrip, victim) && r == p
    ensures MaxRrip !in SetOf(p.rrip, s, p.ways) ==> IsLastMax(SetOf(p.rrip, s, p.ways), victim)
    ensures Valid(r) && r.rrip == p.rrip && r.signature == p.signature && r.sampler == p.sampler
    ensures MaxRrip !in SetOf(p.rrip, s, p.ways) && IsSampledSet(s, p.logSets) ==>
      var i := Slot(s, p.ways, victim);
      r.predictors == ApplyTraining(p.predictors, S.Decrease(p.prefetching[i], p.signature[i]))
    ensures !IsSampledSet(s, p.logSets) ==> r == p
  {
    var lines := SetOf(p.rrip, s, p.ways);
    var first := FirstOf(lines, MaxRrip);
    if first < p.ways {
      return first, p;
    }
    victim := LastMax(lines);
    r := p;
    if IsSampledSet(s, p.logSets) {
      var i := Slot(s, p.ways, victim);
      r := p.(predictors := ApplyTraining(p.predictors, S.Decrease(p.prefetching[i], p.signature[i])));
    }
  }

  // ------------------------------------------------------------- update

  /** Ageing on a friendly miss: unless some line of the set is already at
      `MAXRRIP - 1`, every line below it goes up by one. */
  function Age(rrip: seq<int>, s: nat, ways: nat): (r: seq<int>)
    requires HasSet(rrip, s, ways)
    ensures OnlyInSet(rrip, r, s, ways)
    ensures (exists w :: 0 <= w < ways && rrip[Slot(s, ways, w)] == MaxRrip - 1) ==> r == rrip
    ensures (forall w :: 0 <= w < ways ==> rrip[Slot(s, ways, w)] != MaxRrip - 1) ==>
      forall w :: 0 <= w < ways ==> r[Slot(s, ways, w)] == if rrip[Slot(s, ways, w)] < MaxRrip - 1 then rrip[Slot(s, ways, w)] + 1 else rrip[Slot(s, ways, w)]
  {
    if exists w :: 0 <= w < ways && rrip[Slot(s, ways, w)] == MaxRrip - 1 then
      rrip
    else
      seq(|rrip|, i requires 0 <= i < |rrip| =>
        if s * ways <= i < s * ways + ways && rrip[i] < MaxRrip - 1 then rrip[i] + 1 else rrip[i])
  }

  /** Ageing never pushes a counter past `MAXRRIP`, and never creates a
      line at `MAXRRIP`: averse lines stay the only eviction-ready ones. */
  lemma AgeKeepsBounds(rrip: seq<int>, s: nat, ways: nat)
    requires HasSet(rrip, s, ways) && forall i :: 0 <= i < |rrip| ==> 0 <= rrip[i] <= MaxRrip
    ensures var r := Age(rrip, s, ways);
      (forall i :: 0 <= i < |r| ==> 0 <= r[i] <= MaxRrip)
      && (forall i :: 0 <= i < |r| ==> (r[i] == MaxRrip <==> rrip[i] == MaxRrip))
  {
  }

  /** The predictor `update_replacement_state` consults. */
  function Predicted(pr: Predictors, pc: bv64, t: AccessType): bool
  {
    if t == Prefetch then GetPrediction(pr.prefetch, pc) else GetPrediction(pr.demand, pc)
  }

  /** The sampler tag of an address: the CRC of its page number, cut to a byte. */
  function SamplerTag(paddr: bv64): int
  {
    (Crc(paddr >> 12) as int) % 256
  }

  /** The sampler set an address falls in. `SAMPLER_SETS` expands without
      parentheses, so `% SAMPLER_SETS` reads `% SAMPLER_ENTRIES /
      SAMPLER_HIST`: the block number modulo 2800, divided by 8. Eight
      consecutive blocks share a set, and every set is still in range. */
  function SamplerSet(paddr: bv64): (r: nat)
    ensures r < SamplerSets
    ensures S.SamplerHist * r <= ((paddr >> 6) as int) % SamplerEntries < S.SamplerHist * r + S.SamplerHist
  {
    (((paddr >> 6) as int) % SamplerEntries) / S.SamplerHist
  }

  /** Two addresses where the set differs from the block number modulo 350:
      block 350 lands in set 43 rather than 0, block 8 in set 1 rather than 8;
      and blocks 0 and 7 share set 0. */
  lemma SamplerSetExamples()
    ensures SamplerSet(350 * 64) == 43 && 350 % SamplerSets == 0
    ensures SamplerSet(8 * 64) == 1 && 8 % SamplerSets == 8
    ensures SamplerSet(0) == 0 && SamplerSet(7 * 64) == 0
  {
    assert (350 * 64 as bv64) >> 6 == 350;
    assert (8 * 64 as bv64) >> 6 == 8;
    assert (7 * 64 as bv64) >> 6 == 7;
  }

  /** The access the sampler sees: the address's sampler set takes the
      address's tag at time `now`. */
  function SamplerAccess(samplers: seq<S.Sampler>, now: int, paddr: bv64, pc: bv64, t: AccessType, optgenSize: int, optCached: bool): (S.Sampler, S.Training)
    requires |samplers| == SamplerSets && S.Ordered(samplers[SamplerSet(paddr)]) && 0 <= now < S.TimerSize
  {
    S.Access(samplers[SamplerSet(paddr)], SamplerTag(paddr), t == Prefetch, now, pc, optgenSize, optCached)
  }

  /** What the sampler step does to the sampler, the predictors and the
      timers: sampler set `k` becomes the sampler after access `a`, the
      access's verdict trains a predictor, and the timer of set `s` ticks;
      nothing else of the sampler changes. */
  predicate Sampled(p: Hawkeye, s: nat, k: nat, a: (S.Sampler, S.Training), r: Hawkeye)
    requires k < |p.sampler| && s < |p.timer|
  {
    && r.sampler == p.sampler[k := a.0]
    && r.predictors == ApplyTraining(p.predictors, a.1)
    && r.timer == p.timer[s := (p.timer[s] + 1) % S.TimerSize]
  }

  /** `Sampled` for the access at `paddr` on set `s`: the sampler set the
      address selects takes the access at the set's timer. */
  predicate SampledStep(p: Hawkeye, s: nat, paddr: bv64, pc: bv64, t: AccessType, optgenSize: int, optCached: bool, r: Hawkeye)
    requires Valid(p) && s < |p.timer|
  {
    Sampled(p, s, SamplerSet(paddr), SamplerAccess(p.sampler, p.timer[s], paddr, pc, t, optgenSize, optCached), r)
  }

  /** The sampled-set step of `update_replacement_state`: the sampler set
      chosen by the address takes the access, its verdict trains a
      predictor, and the set's timer ticks. */
  function SampleAccess(p: Hawkeye, s: nat, paddr: bv64, pc: bv64, t: AccessType, optgenSize: int, optCached: bool): (r: Hawkeye)
    requires Valid(p) && s < |p.timer|
    ensures Valid(r) && r.rrip == p.rrip && r.prefetching == p.prefetching && r.signature == p.signature
    ensures r.ways == p.ways && r.logSets == p.logSets
    ensures SampledStep(p, s, paddr, pc, t, optgenSize, optCached, r)
  {
    var tag := SamplerTag(paddr);
    var sampleSet := SamplerSet(paddr);
    var (h, training) := S.Access(p.sampler[sampleSet], tag, t == Prefetch, p.timer[s], pc, optgenSize, optCached);
    var pr := ApplyTraining(p.predictors, training);
    SampledValid(p, s, sampleSet, h, pr);
    p.(sampler := p.sampler[sampleSet := h], predictors := pr, timer := p.timer[s := (p.timer[s] + 1) % S.TimerSize])
  }

  lemma SampledValid(p: Hawkeye, s: nat, sampleSet: nat, h: S.Sampler, pr: Predictors)
    requires Valid(p) && s < |p.timer| && sampleSet < SamplerSets
    requires S.Ordered(h) && PredictorsInRange(pr)
    ensures Valid(p.(sampler := p.sampler[sampleSet := h], predictors := pr, timer := p.timer[s := (p.timer[s] + 1) % S.TimerSize]))
  {
  }

  /** The RRIP step of `update_replacement_state` for line `way`: an
      averse line goes to `MAXRRIP`; a friendly one goes to 0, after the set
      ages when it missed. */
  function Place(rrip: seq<int>, s: nat, ways: nat, way: nat, friendly: bool, hit: bool): (r: seq<int>)
    requires HasSet(rrip, s, ways) && way < ways
    ensures OnlyInSet(rrip, r, s, ways)
    ensures (forall i :: 0 <= i < |rrip| ==> 0 <= rrip[i] <= MaxRrip) ==> forall i :: 0 <= i < |r| ==> 0 <= r[i] <= MaxRrip
    ensures r[Slot(s, ways, way)] == if friendly then 0 else MaxRrip
    ensures forall w :: 0 <= w < ways && w != way ==>
      r[Slot(s, ways, w)] == if friendly && !hit then Age(rrip[Slot(s, ways, way) := 0], s, ways)[Slot(s, ways, w)] else rrip[Slot(s, ways, w)]
  {
    var i := Slot(s, ways, way);
    if !friendly then rrip[i := MaxRrip]
    else if hit then rrip[i := 0]
    else
      var reset := rrip[i := 0];
      assert (forall i :: 0 <= i < |rrip| ==> 0 <= rrip[i] <= MaxRrip) ==> forall i :: 0 <= i < |reset| ==> 0 <= reset[i] <= MaxRrip;
      if forall i :: 0 <= i < |reset| ==> 0 <= reset[i] <= MaxRrip then
        AgeKeepsBounds(reset, s, ways);
        Age(reset, s, ways)[i := 0]
      else
        Age(reset, s, ways)[i := 0]
  }

  /** The prefetch mark `update_replacement_state` leaves on the line: a
      prefetch miss sets it, a prefetch hit keeps it, a demand access
      clears it. */
  function Mark(p: Hawkeye, i: nat, t: AccessType, hit: bool): (r: Hawkeye)
    requires Valid(p) && i < |p.rrip|
    ensures Valid(r) && r.rrip == p.rrip && r.signature == p.signature && r.timer == p.timer
    ensures r.predictors == p.predictors && r.sampler == p.sampler && r.ways == p.ways && r.logSets == p.logSets
    ensures OnlyAt(p.prefetching, r.prefetching, i)
    ensures r.prefetching[i] == if t == Prefetch then !hit || p.prefetching[i] else false
  {
    p.(prefetching := p.prefetching[i := if t == Prefetch then !hit || p.prefetching[i] else false])
  }

  /** The last step: the line's signature and RRPV. */
  function Finish(p: Hawkeye, s: nat, way: nat, pc: bv64, t: AccessType, hit: bool): (r: Hawkeye)
    requires Valid(p) && HasSet(p.rrip, s, p.ways) && way < p.ways
    ensures Valid(r) && r.ways == p.ways && r.prefetching == p.prefetching && r.predictors == p.predictors && r.timer == p.timer
    ensures r.sampler == p.sampler && r.logSets == p.logSets
    ensures r.rrip == Place(p.rrip, s, p.ways, way, Predicted(p.predictors, pc, t), hit)
    ensures r.signature == p.signature[Slot(s, p.ways, way) := pc]
  {
    p.(signature := p.signature[Slot(s, p.ways, way) := pc], rrip := Place(p.rrip, s, p.ways, way, Predicted(p.predictors, pc, t), hit))
  }

  /** `update_replacement_state`.  A writeback changes nothing.  Otherwise
      the line's prefetch mark and signature are recorded, a sampled set
      trains the predictors, and the line's RRPV becomes `MAXRRIP` when the
      (trained) predictor calls its PC averse and 0 when friendly; a
      friendly miss also ages the other lines of the set. */
  function Update(p: Hawkeye, s: nat, way: nat, paddr: bv64, pc: bv64, t: AccessType, hit: bool, optgenSize: int, optCached: bool): (r: Hawkeye)
    requires Valid(p) && HasSet(p.rrip, s, p.ways) && way < p.ways && s < |p.timer| && s < 0x1_0000_0000
    ensures Valid(r) && r.ways == p.ways
    ensures t == Write ==> r == p
    ensures t != Write ==>
      var i := Slot(s, p.ways, way);
      r.rrip == Place(p.rrip, s, p.ways, way, Predicted(r.predictors, pc, t), hit)
      && r.signature == p.signature[i := pc]
      && r.prefetching == p.prefetching[i := if t == Prefetch then !hit || p.prefetching[i] else false]
    ensures t != Write && !IsSampledSet(s, p.logSets) ==>
      r.predictors == p.predictors && r.timer == p.timer && r.sampler == p.sampler
    ensures t != Write && IsSampledSet(s, p.logSets) ==> SampledStep(p, s, paddr, pc, t, optgenSize, optCached, r)
  {
    if t == Write then p
    else if IsSampledSet(s, p.logSets) then SampledAccess(p, s, way, paddr, pc, t, hit, optgenSize, optCached)
    else PlainAccess(p, s, way, pc, t, hit)
  }

  /** `Update` for an access other than a writeback to a set outside the
      sampled sets: only the line's mark, signature and RRPV change. */
  function PlainAccess(p: Hawkeye, s: nat, way: nat, pc: bv64, t: AccessType, hit: bool): (r: Hawkeye)
    requires Valid(p) && HasSet(p.rrip, s, p.ways) && way < p.ways && t != Write
    ensures Valid(r) && r.ways == p.ways
    ensures var i := Slot(s, p.ways, way);
      r.rrip == Place(p.rrip, s, p.ways, way, Predicted(r.predictors, pc, t), hit)
      && r.signature == p.signature[i := pc]
      && r.prefetching == p.prefetching[i := if t == Prefetch then !hit || p.prefetching[i] else false]
    ensures r.predictors == p.predictors && r.timer == p.timer && r.sampler == p.sampler
  {
    Finish(Mark(p, Slot(s, p.ways, way), t, hit), s, way, pc, t, hit)
  }

  /** `Update` for an access other than a writeback to a sampled set: the
      sampler step runs between the mark and the RRPV, so the RRPV comes
      from the predictors as this access trained them. */
  function SampledAccess(p: Hawkeye, s: nat, way: nat, paddr: bv64, pc: bv64, t: AccessType, hit: bool, optgenSize: int, optCached: bool): (r: Hawkeye)
    requires Valid(p) && HasSet(p.rrip, s, p.ways) && way < p.ways && s < |p.timer| && t != Write
    ensures Valid(r) && r.ways == p.ways
    ensures var i := Slot(s, p.ways, way);
      r.rrip == Place(p.rrip, s, p.ways, way, Predicted(r.predictors, pc, t), hit)
      && r.signature == p.signature[i := pc]
      && r.prefetching == p.prefetching[i := if t == Prefetch then !hit || p.prefetching[i] else false]
    ensures SampledStep(p, s, paddr, pc, t, optgenSize, optCached, r)
  {
    var marked := Mark(p, Slot(s, p.ways, way), t, hit);
    var sampled := SampleAccess(marked, s, paddr, pc, t, optgenSize, optCached);
    var r := Finish(sampled, s, way, pc, t, hit);
    SampledThrough(p, marked, sampled, r, s, SamplerSet(paddr),
      SamplerAccess(p.sampler, p.timer[s], paddr, pc, t, optgenSize, optCached));
    r
  }

  /** The sampler step's effect is carried over steps that leave the
      sampler, the predictors and the timers alone. */
  lemma SampledThrough(p: Hawkeye, m: Hawkeye, q: Hawkeye, r: Hawkeye, s: nat, k: nat, a: (S.Sampler, S.Training))
    requires k < |p.sampler| && s < |p.timer|
    requires m.sampler == p.sampler && m.predictors == p.predictors && m.timer == p.timer
    requires Sampled(m, s, k, a, q)
    requires r.sampler == q.sampler && r.predictors == q.predictors && r.timer == q.timer
    ensures Sampled(p, s, k, a, r)
  {
  }
}
