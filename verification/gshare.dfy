/** The gshare branch predictor for gem5 (Branch/gshare-gem5/gshare.cc):
    one table of saturating counters indexed by the branch address xor-ed
    with a per-thread global history register (GHR).  A lookup saves the
    GHR in a `BPHistory` handle before shifting its prediction in, so a
    squash can put the register back and a squashed update can replace
    the wrong guess with the real outcome.

    `unsigned` values are `nat`s below `2^32` and the C bit operations are
    `BitAnd`, `BitOr` and `BitXor`; gem5's `SatCounter8` is a `nat` that
    saturates at `2^bits - 1` and at 0; `instShiftAmt`, inherited from
    `BPredUnit`, is a parameter. */
module Gshare {
  import opened Arith
  import opened Wrappers

  /** `2^32`: `unsigned` values lie below it. */
  const UnsignedLimit: nat := Pow2(32)

  /** `2^64`: `uint64_t` values lie below it. */
  const Uint64Limit: nat := Pow2(64)

  /** gem5's `mask(nbits)`: `nbits` low ones in a `uint64_t`. */
  function Mask64(n: nat): nat
  {
    if n >= 64 then Uint64Limit - 1 else Pow2(n) - 1
  }

  function Min(a: nat, b: nat): nat
  {
    if a <= b then a else b
  }

  /** How many history bits survive storing the mask in an `unsigned`. */
  function HistoryBits(n: nat): nat
  {
    Min(n, 32)
  }

  /** The stored `historyRegisterMask` is `HistoryBits` low ones. */
  lemma HistoryMaskShape(n: nat)
    ensures Mask64(n) % UnsignedLimit == Pow2(HistoryBits(n)) - 1
  {
    var m := Min(n, 64);
    Mask64Ones(n);
    OnesMod(m, 32);
    assert (if m <= 32 then m else 32) == HistoryBits(n);
  }

  lemma Mask64Ones(n: nat)
    ensures Mask64(n) == Pow2(Min(n, 64)) - 1
  {
  }

  /** The constructor's parameters: `numThreads`, `globalPredictorSize`
      (used as the number of history bits), `PHTPredictorSize`,
      `PHTCtrBits`, and the inherited `instShiftAmt`. */
  datatype Params = Params(numThreads: nat, globalPredictorSize: nat, phtPredictorSize: nat, phtCtrBits: nat, instShiftAmt: nat)

  datatype Gshare = Gshare(
    globalHistory: seq<nat>,
    globalHistoryBits: nat,
    historyRegisterMask: nat,
    choiceHistoryMask: nat,
    choiceThreshold: nat,
    choiceCtrBits: nat,
    choiceCtrs: seq<nat>,
    instShiftAmt: nat)

  /** A `BPHistory` handle: null, or the global history it saved. */
  type Handle = Option<nat>

  /** gem5's `isPowerOf2`: 0 is not one. */
  predicate IsPowerOf2(n: nat)
    decreases n
  {
    n == 1 || (n >= 2 && n % 2 == 0 && IsPowerOf2(n / 2))
  }

  /** The exponent of a power of two. */
  function Log2(n: nat): (k: nat)
    requires IsPowerOf2(n)
    ensures Pow2(k) == n
    decreases n
  {
    if n == 1 then 0 else Log2(n / 2) + 1
  }

  /** The largest value of a `bits`-bit saturating counter. */
  function CtrMax(bits: nat): nat
  {
    Pow2(bits) - 1
  }

  predicate CountersInRange(ctrs: seq<nat>, bits: nat)
  {
    forall i :: 0 <= i < |ctrs| ==> ctrs[i] <= CtrMax(bits)
  }

  predicate HistoriesMasked(ghr: seq<nat>, mask: nat)
  {
    forall t :: 0 <= t < |ghr| ==> ghr[t] <= mask
  }

  /** What the constructor establishes and every operation keeps. */
  predicate Valid(g: Gshare)
  {
    && IsPowerOf2(|g.choiceCtrs|)
    && g.choiceHistoryMask == |g.choiceCtrs| - 1
    && g.historyRegisterMask == Pow2(HistoryBits(g.globalHistoryBits)) - 1
    && 1 <= g.choiceCtrBits <= 8
    && g.choiceThreshold == Pow2(g.choiceCtrBits - 1) - 1
    && CountersInRange(g.choiceCtrs, g.choiceCtrBits)
    && HistoriesMasked(g.globalHistory, g.historyRegisterMask)
  }

  /** The constructor: fatal (`None`) unless the table size is a power of
      two; otherwise zeroed histories and counters, the index mask, and
      the threshold half way up the counters' range.  The counters hold at
      most 8 bits and the threshold shift needs at least one. */
  function New(params: Params): (r: Option<Gshare>)
    requires 1 <= params.phtCtrBits <= 8
    ensures r.None? <==> !IsPowerOf2(params.phtPredictorSize)
    ensures r.Some? ==> var g := r.value;
      && Valid(g)
      && |g.globalHistory| == params.numThreads && (forall t :: 0 <= t < |g.globalHistory| ==> g.globalHistory[t] == 0)
      && |g.choiceCtrs| == params.phtPredictorSize && (forall i :: 0 <= i < |g.choiceCtrs| ==> g.choiceCtrs[i] == 0)
      && 2 * (g.choiceThreshold + 1) == CtrMax(g.choiceCtrBits) + 1
  {
    if !IsPowerOf2(params.phtPredictorSize) then None
    else
      var g := Gshare(
        Zeros(params.numThreads),
        params.globalPredictorSize,
        Mask64(params.globalPredictorSize) % UnsignedLimit,
        params.phtPredictorSize - 1,
        Pow2(params.phtCtrBits - 1) - 1,
        params.phtCtrBits,
        Zeros(params.phtPredictorSize),
        params.instShiftAmt);
      NewValid(params, g);
      Some(g)
  }

  function Zeros(n: nat): (r: seq<nat>)
    ensures |r| == n && forall i :: 0 <= i < n ==> r[i] == 0
  {
    seq(n, _ => 0)
  }

  /** The constructed predictor is valid, its threshold the middle of
      the counters' range. */
  lemma NewValid(params: Params, g: Gshare)
    requires 1 <= params.phtCtrBits <= 8 && IsPowerOf2(params.phtPredictorSize)
    requires g.globalHistory == Zeros(params.numThreads)
    requires g.globalHistoryBits == params.globalPredictorSize
    requires g.historyRegisterMask == Mask64(params.globalPredictorSize) % UnsignedLimit
    requires g.choiceHistoryMask == params.phtPredictorSize - 1
    requires g.choiceThreshold == Pow2(params.phtCtrBits - 1) - 1
    requires g.choiceCtrBits == params.phtCtrBits
    requires g.choiceCtrs == Zeros(params.phtPredictorSize)
    ensures Valid(g)
    ensures 2 * (g.choiceThreshold + 1) == CtrMax(g.choiceCtrBits) + 1
  {
    HistoryMaskShape(params.globalPredictorSize);
    MaskHalf(params.phtCtrBits);
  }

  function BitOf(b: bool): nat
  {
    if b then 1 else 0
  }

  /** `((h << 1) | taken) & historyRegisterMask` on an `unsigned` `h`. */
  function ShiftIn(h: nat, taken: bool, mask: nat): nat
  {
    BitAnd(BitOr((h * 2) % UnsignedLimit, BitOf(taken)), mask)
  }

  /** Dropping the top bit of `2h` and or-ing in the outcome is `2h + t`
      modulo `2^32`. */
  lemma ShiftWraps(h: nat, t: nat)
    requires t <= 1
    ensures BitOr((h * 2) % UnsignedLimit, t) == (2 * h + t) % UnsignedLimit
  {
    ShiftOrBit(h, t, 32);
  }

  /** Shifting in keeps the last `k` outcomes, the newest in bit 0. */
  lemma ShiftInKeepsLast(h: nat, taken: bool, k: nat)
    requires k <= 32
    ensures ShiftIn(h, taken, Pow2(k) - 1) == (2 * h + BitOf(taken)) % Pow2(k)
    ensures ShiftIn(h, taken, Pow2(k) - 1) <= Pow2(k) - 1
  {
    ShiftWraps(h, BitOf(taken));
    MaskAfterMod(2 * h + BitOf(taken), k, 32);
  }

  /** `updateGlobalHist`. */
  function UpdateGlobalHist(g: Gshare, tid: nat, taken: bool): (r: Gshare)
    requires Valid(g) && tid < |g.globalHistory|
    ensures Valid(r)
    ensures r == g.(globalHistory := r.globalHistory) && |r.globalHistory| == |g.globalHistory|
    ensures r.globalHistory[tid] == (2 * g.globalHistory[tid] + BitOf(taken)) % Pow2(HistoryBits(g.globalHistoryBits))
    ensures forall t :: 0 <= t < |g.globalHistory| && t != tid ==> r.globalHistory[t] == g.globalHistory[t]
  {
    ShiftInKeepsLast(g.globalHistory[tid], taken, HistoryBits(g.globalHistoryBits));
    HistorySetValid(g, tid, ShiftIn(g.globalHistory[tid], taken, g.historyRegisterMask));
    g.(globalHistory := g.globalHistory[tid := ShiftIn(g.globalHistory[tid], taken, g.historyRegisterMask)])
  }

  /** `btbUpdate`: `globalHistory &= historyRegisterMask & ~1ULL`. */
  function BtbUpdate(g: Gshare, tid: nat): (r: Gshare)
    requires Valid(g) && tid < |g.globalHistory|
    ensures Valid(r)
    ensures r == g.(globalHistory := r.globalHistory) && |r.globalHistory| == |g.globalHistory|
    ensures r.globalHistory[tid] == g.globalHistory[tid] - g.globalHistory[tid] % 2
    ensures forall t :: 0 <= t < |g.globalHistory| && t != tid ==> r.globalHistory[t] == g.globalHistory[t]
  {
    var h := g.globalHistory[tid];
    var cleared := BitAnd(g.historyRegisterMask, Uint64Limit - 2);
    ClearedHistory(h, g.historyRegisterMask, HistoryBits(g.globalHistoryBits));
    HistorySetValid(g, tid, BitAnd(h, cleared));
    g.(globalHistory := g.globalHistory[tid := BitAnd(h, cleared)])
  }

  /** Replacing one thread's history by a masked value keeps the predictor
      valid. */
  lemma HistorySetValid(g: Gshare, tid: nat, v: nat)
    requires Valid(g) && tid < |g.globalHistory| && v <= g.historyRegisterMask
    ensures Valid(g.(globalHistory := g.globalHistory[tid := v]))
  {
  }

  /** Masking a history `h <= 2^k - 1` with `(2^k - 1) & ~1` clears its
      bit 0 and keeps the rest. */
  lemma ClearedHistory(h: nat, mask: nat, k: nat)
    requires k <= 32 && mask == Pow2(k) - 1 && h <= mask
    ensures BitAnd(h, BitAnd(mask, Uint64Limit - 2)) == h - h % 2
  {
    ClearedWithin(h, mask, k, 64);
  }

  lemma ClearedWithin(h: nat, mask: nat, k: nat, n: nat)
    requires 0 < n && k <= n && mask == Pow2(k) - 1 && h <= mask
    ensures BitAnd(h, BitAnd(mask, Pow2(n) - 2)) == h - h % 2
  {
    if k == 0 {
      assert mask == 0 && h == 0;
    } else {
      ClearedMask(k, n);
      ClearLowBit(h, k);
    }
  }

  /** `(2^k - 1) & ~1` on `n` bits is `2^k - 2`. */
  lemma ClearedMask(k: nat, n: nat)
    requires 0 < k <= n
    ensures BitAnd(Pow2(k) - 1, Pow2(n) - 2) == Pow2(k) - 2
  {
    Pow2Monotone(k, n);
    MaskHalf(k);
    ClearLowBit(Pow2(k) - 1, n);
  }

  /** `calcLocHistIdx`: the branch address without its instruction offset,
      masked like the history. */
  function LocalIndex(g: Gshare, pc: nat): nat
  {
    DivNat(pc, Pow2(g.instShiftAmt));
    BitAnd(pc / Pow2(g.instShiftAmt), g.historyRegisterMask)
  }

  /** `& choiceHistoryMask`: a position in the counter table. */
  function ChoiceIndex(g: Gshare, x: nat): (i: nat)
    requires Valid(g)
    ensures i < |g.choiceCtrs| && i == x % |g.choiceCtrs|
  {
    AndLowMask(x, Log2(|g.choiceCtrs|));
    BitAnd(x, g.choiceHistoryMask)
  }

  /** The counter a lookup reads for `pc` with the thread's history. */
  function PredictIndex(g: Gshare, tid: nat, pc: nat): nat
    requires Valid(g) && tid < |g.globalHistory|
  {
    ChoiceIndex(g, BitXor(BitAnd(g.globalHistory[tid], g.historyRegisterMask), LocalIndex(g, pc)))
  }

  /** A masked history is its own snapshot. */
  lemma SnapshotIsHistory(g: Gshare, tid: nat)
    requires Valid(g) && tid < |g.globalHistory|
    ensures BitAnd(g.globalHistory[tid], g.historyRegisterMask) == g.globalHistory[tid]
  {
    var k := HistoryBits(g.globalHistoryBits);
    AndLowMask(g.globalHistory[tid], k);
    DivModUnique(g.globalHistory[tid], Pow2(k), 0, g.globalHistory[tid]);
  }

  /** `lookup`: predicts taken iff the counter is above the threshold,
      that is in the upper half of its range; hands back a snapshot of the
      history and shifts the prediction into it. */
  function Lookup(g: Gshare, tid: nat, pc: nat): (r: (bool, Gshare, Handle))
    requires Valid(g) && tid < |g.globalHistory|
    ensures r.0 <==> 2 * g.choiceCtrs[PredictIndex(g, tid, pc)] >= CtrMax(g.choiceCtrBits) + 1
    ensures r.2 == Some(g.globalHistory[tid])
    ensures r.1 == UpdateGlobalHist(g, tid, r.0)
  {
    SnapshotIsHistory(g, tid);
    assert Pow2(g.choiceCtrBits) == 2 * Pow2(g.choiceCtrBits - 1);
    var taken := g.choiceThreshold < g.choiceCtrs[PredictIndex(g, tid, pc)];
    (taken, UpdateGlobalHist(g, tid, taken), Some(BitAnd(g.globalHistory[tid], g.historyRegisterMask)))
  }

  /** `uncondBranch`: snapshot the history unless the handle already holds
      one, then shift in "taken". */
  function UncondBranch(g: Gshare, tid: nat, pc: nat, h: Handle): (r: (Gshare, Handle))
    requires Valid(g) && tid < |g.globalHistory|
    ensures h.Some? ==> r.1 == h
    ensures h.None? ==> r.1 == Some(g.globalHistory[tid])
    ensures r.0 == UpdateGlobalHist(g, tid, true)
  {
    SnapshotIsHistory(g, tid);
    var h' := if h.None? then Some(BitAnd(g.globalHistory[tid], g.historyRegisterMask)) else h;
    (UpdateGlobalHist(g, tid, true), h')
  }

  /** `updateHistories`: snapshot the history unless the handle already
      holds one.  The local history table is never sized, so it stays
      empty and nothing else happens. */
  function UpdateHistories(g: Gshare, tid: nat, pc: nat, uncond: bool, taken: bool, h: Handle): (r: (Gshare, Handle))
    requires Valid(g) && tid < |g.globalHistory|
    ensures r.0 == g
    ensures h.Some? ==> r.1 == h
    ensures h.None? ==> r.1 == Some(g.globalHistory[tid])
  {
    SnapshotIsHistory(g, tid);
    (g, if h.None? then Some(BitAnd(g.globalHistory[tid], g.historyRegisterMask)) else h)
  }

  /** `SatCounter8::operator++` and `operator--`. */
  function Saturate(c: nat, up: bool, bits: nat): (r: nat)
    requires c <= CtrMax(bits)
    ensures r <= CtrMax(bits)
    ensures up ==> r == if c < CtrMax(bits) then c + 1 else c
    ensures !up ==> r == if c > 0 then c - 1 else c
  {
    if up then (if c < CtrMax(bits) then c + 1 else c)
    else (if c > 0 then c - 1 else c)
  }

  /** The handle's snapshot is a history the register could hold. */
  predicate HandleValid(g: Gshare, h: Handle)
  {
    h.None? || h.value <= g.historyRegisterMask
  }

  /** `update`.  A squashed branch rebuilds the history from the snapshot
      with the real outcome and keeps the handle; otherwise the counter the
      snapshot and address select moves toward the outcome and the handle
      is released. */
  function Update(g: Gshare, tid: nat, pc: nat, taken: bool, h: Handle, squashed: bool): (r: (Gshare, Handle))
    requires Valid(g) && tid < |g.globalHistory| && h.Some?
    ensures HandleValid(g, h) ==> Valid(r.0)
    ensures squashed ==> r.1 == h && r.0.choiceCtrs == g.choiceCtrs
    ensures squashed && HandleValid(g, h) ==>
      r.0 == g.(globalHistory := g.globalHistory[tid := (2 * h.value + BitOf(taken)) % Pow2(HistoryBits(g.globalHistoryBits))])
    ensures !squashed ==> r.1.None? && r.0.globalHistory == g.globalHistory
    ensures !squashed ==>
      var i := ChoiceIndex(g, BitXor(LocalIndex(g, pc), h.value));
      r.0 == g.(choiceCtrs := g.choiceCtrs[i := Saturate(g.choiceCtrs[i], taken, g.choiceCtrBits)])
  {
    if squashed then (Rebuild(g, tid, taken, h.value), h)
    else (Train(g, pc, taken, h.value), None)
  }

  /** The squashed branch of `update`: the history rebuilt from the
      snapshot and the real outcome. */
  function Rebuild(g: Gshare, tid: nat, taken: bool, snap: nat): (r: Gshare)
    requires Valid(g) && tid < |g.globalHistory|
    ensures Valid(r) && r.choiceCtrs == g.choiceCtrs
    ensures snap <= g.historyRegisterMask ==>
      r == g.(globalHistory := g.globalHistory[tid := (2 * snap + BitOf(taken)) % Pow2(HistoryBits(g.globalHistoryBits))])
  {
    ShiftInKeepsLast(snap, taken, HistoryBits(g.globalHistoryBits));
    HistorySetValid(g, tid, ShiftIn(snap, taken, g.historyRegisterMask));
    g.(globalHistory := g.globalHistory[tid := ShiftIn(snap, taken, g.historyRegisterMask)])
  }

  /** The resolved branch of `update`: the selected counter saturates
      toward the outcome. */
  function Train(g: Gshare, pc: nat, taken: bool, snap: nat): (r: Gshare)
    requires Valid(g)
    ensures Valid(r) && r.globalHistory == g.globalHistory
    ensures var i := ChoiceIndex(g, BitXor(LocalIndex(g, pc), snap));
      r == g.(choiceCtrs := g.choiceCtrs[i := Saturate(g.choiceCtrs[i], taken, g.choiceCtrBits)])
  {
    var i := ChoiceIndex(g, BitXor(LocalIndex(g, pc), snap));
    CounterSetValid(g, i, Saturate(g.choiceCtrs[i], taken, g.choiceCtrBits));
    g.(choiceCtrs := g.choiceCtrs[i := Saturate(g.choiceCtrs[i], taken, g.choiceCtrBits)])
  }

  /** Replacing one counter by a value in range keeps the predictor valid. */
  lemma CounterSetValid(g: Gshare, i: nat, v: nat)
    requires Valid(g) && i < |g.choiceCtrs| && v <= CtrMax(g.choiceCtrBits)
    ensures Valid(g.(choiceCtrs := g.choiceCtrs[i := v]))
  {
  }

  /** `squash`: put the snapshot back and release the handle. */
  function Squash(g: Gshare, tid: nat, h: Handle): (r: (Gshare, Handle))
    requires tid < |g.globalHistory|
    ensures r.1.None?
    ensures h.None? ==> r.0 == g
    ensures h.Some? ==> r.0 == g.(globalHistory := g.globalHistory[tid := h.value])
    ensures Valid(g) && HandleValid(g, h) ==> Valid(r.0)
  {
    if h.Some? then (g.(globalHistory := g.globalHistory[tid := h.value]), None) else (g, None)
  }

  /** `getGHR`: the history a handle saved; a null handle is fatal. */
  function GetGhr(h: Handle): (r: Option<nat>)
    ensures r.None? <==> h.None?
    ensures r.Some? ==> r.value == h.value
  {
    if h.None? then None else Some(h.value)
  }

  // -------------------------------------------------------------- lemmas

  /** A lookup followed by a squash leaves the predictor as it was. */
  lemma LookupThenSquash(g: Gshare, tid: nat, pc: nat)
    requires Valid(g) && tid < |g.globalHistory|
    ensures var l := Lookup(g, tid, pc); Squash(l.1, tid, l.2) == (g, None)
  {
    var l := Lookup(g, tid, pc);
    assert Squash(l.1, tid, l.2).0.globalHistory == g.globalHistory;
  }

  /** So does an unconditional branch that made the snapshot. */
  lemma UncondThenSquash(g: Gshare, tid: nat, pc: nat)
    requires Valid(g) && tid < |g.globalHistory|
    ensures var u := UncondBranch(g, tid, pc, None); Squash(u.0, tid, u.1) == (g, None)
  {
    var u := UncondBranch(g, tid, pc, None);
    assert Squash(u.0, tid, u.1).0.globalHistory == g.globalHistory;
  }

  /** A mispredicted lookup repaired by a squashed update ends with the
      history the correct prediction would have produced. */
  lemma SquashedUpdateRepairs(g: Gshare, tid: nat, pc: nat, taken: bool)
    requires Valid(g) && tid < |g.globalHistory|
    ensures var l := Lookup(g, tid, pc);
      Update(l.1, tid, pc, taken, l.2, true).0 == UpdateGlobalHist(g, tid, taken)
  {
    var l := Lookup(g, tid, pc);
    var v := UpdateGlobalHist(g, tid, taken);
    var x := (2 * g.globalHistory[tid] + BitOf(taken)) % Pow2(HistoryBits(g.globalHistoryBits));
    SameOffOne(l.1.globalHistory, v.globalHistory, g.globalHistory, tid, x);
  }

  /** Two histories that each agree with a third away from `tid` agree
      once the first takes the second's value at `tid`. */
  lemma SameOffOne(a: seq<nat>, b: seq<nat>, c: seq<nat>, tid: nat, x: nat)
    requires |a| == |c| && |b| == |c| && tid < |c| && b[tid] == x
    requires forall t :: 0 <= t < |c| && t != tid ==> a[t] == c[t]
    requires forall t :: 0 <= t < |c| && t != tid ==> b[t] == c[t]
    ensures a[tid := x] == b
  {
  }

  /** A resolved update trains exactly the counter its lookup read. */
  lemma UpdateTrainsLookedUpCounter(g: Gshare, tid: nat, pc: nat, taken: bool)
    requires Valid(g) && tid < |g.globalHistory|
    ensures var l := Lookup(g, tid, pc); var i := PredictIndex(g, tid, pc);
      Update(l.1, tid, pc, taken, l.2, false).0
        == l.1.(choiceCtrs := g.choiceCtrs[i := Saturate(g.choiceCtrs[i], taken, g.choiceCtrBits)])
  {
    SnapshotIsHistory(g, tid);
    XorCommutes(LocalIndex(g, pc), g.globalHistory[tid]);
    var l := Lookup(g, tid, pc);
    assert LocalIndex(l.1, pc) == LocalIndex(g, pc);
  }
}
