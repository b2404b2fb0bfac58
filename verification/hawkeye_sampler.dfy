/** Hawkeye's cache-history sampler: per sampled set, a map from an
    address tag to its `HISTORY` (Policies/hawkeye/lib_hawkeye/helper_function.h),
    kept in LRU order by `update_cache_history`
    (Polices/hawkeye/Hawkeye_Predictor/Hawkeye_Predictor.cc).  An access to
    a sampled set looks its tag up, decides how OPT's answer trains the
    predictor, and moves the tag to the front.  OPTgen is not part of this
    model: its `is_cache` answer is a parameter. */
module HawkeyeSampler {
  /** `SAMPLER_HIST`: the entries one sampler set holds. */
  const SamplerHist: int := 8
  /** `TIMER_SIZE`: the per-set timer counts modulo this. */
  const TimerSize: int := 1024
  /** `5*NUM_CORE` with `NUM_CORE` 1: the window of a timely prefetch. */
  const PrefetchWindow: int := 5

  /** `HISTORY`. */
  datatype History = History(address: bv64, pcVal: bv64, previousVal: int, lru: int, prefetching: bool)

  /** A value-initialised `HISTORY`, as `operator[]` creates it. */
  const Blank: History := History(0, 0, 0, 0, false)

  /** `init`: everything but the address starts over. */
  function Init(h: History): (r: History)
    ensures r.address == h.address
    ensures r.pcVal == 0 && r.previousVal == 0 && r.lru == 0 && !r.prefetching
  {
    h.(pcVal := 0, previousVal := 0, lru := 0, prefetching := false)
  }

  /** `update`: records the time and the PC of the access. */
  function Update(h: History, currentVal: int, pc: bv64): (r: History)
    ensures r.previousVal == currentVal && r.pcVal == pc
    ensures r.address == h.address && r.lru == h.lru && r.prefetching == h.prefetching
  {
    h.(previousVal := currentVal, pcVal := pc)
  }

  /** `set_prefetch`. */
  function SetPrefetch(h: History): (r: History)
    ensures r.prefetching
    ensures r.address == h.address && r.pcVal == h.pcVal && r.previousVal == h.previousVal && r.lru == h.lru
  {
    h.(prefetching := true)
  }

  /** `update` and `set_prefetch` touch different fields, so their order
      does not matter; `set_prefetch` is idempotent. */
  lemma UpdatePrefetchCommute(h: History, currentVal: int, pc: bv64)
    ensures Update(SetPrefetch(h), currentVal, pc) == SetPrefetch(Update(h, currentVal, pc))
    ensures SetPrefetch(SetPrefetch(h)) == SetPrefetch(h)
  {
  }

  type Sampler = map<int, History>

  /** The sampler's order: at most `SAMPLER_HIST` entries whose `lru`
      values are distinct and below the entry count, i.e. a permutation of
      `0 .. |h| - 1` (0 is the most recent), and whose recorded times are
      timer values. */
  predicate Ordered(h: Sampler)
  {
    |h| <= SamplerHist
    && (forall k :: k in h ==> 0 <= h[k].lru < |h| && 0 <= h[k].previousVal < TimerSize)
    && (forall a, b :: a in h && b in h && a != b ==> h[a].lru != h[b].lru)
  }

  /** `update_cache_history`: every entry more recent than `currentVal`
      ages by one. */
  function AgeBelow(h: Sampler, currentVal: int): (r: Sampler)
    ensures r.Keys == h.Keys
    ensures forall k :: k in h ==> r[k] == if h[k].lru < currentVal then h[k].(lru := h[k].lru + 1) else h[k]
  {
    map k | k in h :: if h[k].lru < currentVal then h[k].(lru := h[k].lru + 1) else h[k]
  }

  /** How an access trains the predictor: `increase` or `decrease` of the
      recorded PC in the prefetch or the demand predictor, or nothing. */
  datatype Training = NoTraining | Increase(prefetch: bool, pc: bv64) | Decrease(prefetch: bool, pc: bv64)

  /** The values `0 .. n - 1`. */
  function Below(n: nat): (r: set<int>)
    ensures forall i :: i in r <==> 0 <= i < n
    ensures |r| == n
  {
    if n == 0 then {} else Below(n - 1) + {n - 1}
  }

  /** The `lru` values of the entries with the given keys. */
  function Lrus(h: Sampler, keys: set<int>): set<int>
    requires keys <= h.Keys
  {
    set k | k in keys :: h[k].lru
  }

  /** Distinct values on `keys` give as many values as keys. */
  lemma {:induction false} LrusCard(h: Sampler, keys: set<int>)
    requires keys <= h.Keys
    requires forall a, b :: a in h && b in h && a != b ==> h[a].lru != h[b].lru
    ensures |Lrus(h, keys)| == |keys|
    decreases keys
  {
    if keys != {} {
      var x :| x in keys;
      var rest := keys - {x};
      LrusCard(h, rest);
      assert Lrus(h, keys) == Lrus(h, rest) + {h[x].lru};
      assert h[x].lru !in Lrus(h, rest);
    }
  }

  lemma SubsetCard(a: set<int>, b: set<int>)
    requires a <= b
    ensures |a| <= |b|
  {
    assert b == a + (b - a);
    assert a * (b - a) == {};
  }

  /** A full ordered sampler has exactly one entry with `lru` 7, the least
      recent one. */
  lemma {:induction false} FullHasOldest(h: Sampler)
    requires Ordered(h) && |h| == SamplerHist
    ensures exists k :: k in h && h[k].lru == SamplerHist - 1
  {
    if forall k :: k in h ==> h[k].lru != SamplerHist - 1 {
      LrusCard(h, h.Keys);
      assert Lrus(h, h.Keys) <= Below(SamplerHist - 1);
      SubsetCard(Lrus(h, h.Keys), Below(SamplerHist - 1));
      assert false;
    }
  }

  /** The entry a full sampler set gives up: the one with `lru`
      `SAMPLER_HIST - 1`. */
  function Oldest(h: Sampler): (e: int)
    requires Ordered(h) && |h| == SamplerHist
    ensures e in h && h[e].lru == SamplerHist - 1
  {
    FullHasOldest(h);
    var e :| e in h && h[e].lru == SamplerHist - 1;
    e
  }

  /** Drops one entry and keeps the others as they are. */
  function Drop(h: Sampler, e: int): (r: Sampler)
    requires e in h
    ensures r.Keys == h.Keys - {e} && |r| == |h| - 1
    ensures forall k :: k in r ==> r[k] == h[k]
  {
    var kept := map k | k in h && k != e :: h[k];
    assert kept.Keys == h.Keys - {e};
    assert |kept.Keys| == |h.Keys| - 1;
    kept
  }

  /** The state an access leaves the other entries in before the accessed
      one moves to the front: the accessed entry is present, and every
      other entry is one of `h`, with the time and PC it had, and an `lru`
      value of its own between 1 and the entry count. */
  predicate Moved(h: Sampler, tag: int, moved: Sampler)
  {
    tag in moved
    && |moved| <= SamplerHist
    && (forall k :: k in moved && k != tag ==> k in h && 1 <= moved[k].lru < |moved|)
    && (forall k :: k in moved ==> 0 <= moved[k].previousVal < TimerSize)
    && (forall a, b :: a in moved && b in moved && a != b && a != tag && b != tag ==> moved[a].lru != moved[b].lru)
    && (forall k :: k in moved && k != tag ==> moved[k].pcVal == h[k].pcVal && moved[k].previousVal == h[k].previousVal)
  }

  /** Every entry other than the accessed one was in `h` and keeps its
      address, recorded PC and time and prefetch mark, and the entries
      other than the accessed one stay in the same relative LRU order. */
  predicate KeepsOthers(h: Sampler, tag: int, moved: Sampler)
  {
    && (forall k :: k in moved && k != tag ==>
          && k in h
          && moved[k].address == h[k].address && moved[k].pcVal == h[k].pcVal
          && moved[k].previousVal == h[k].previousVal && moved[k].prefetching == h[k].prefetching)
    && (forall a, b :: a in moved && b in moved && a in h && b in h && a != tag && b != tag ==>
          (h[a].lru < h[b].lru <==> moved[a].lru < moved[b].lru))
  }

  /** Ageing the entries more recent than `c` keeps the order of two
      entries neither of which sits at `c`. */
  lemma AgeKeepsOrder(x: int, y: int, c: int)
    requires x != c && y != c
    ensures x < y <==> (if x < c then x + 1 else x) < (if y < c then y + 1 else y)
  {
  }

  /** Ageing around the accessed entry keeps the others. */
  lemma AgedKeepsOthers(h: Sampler, tag: int, moved: Sampler)
    requires Ordered(h) && tag in h
    requires moved.Keys == h.Keys
    requires forall k :: k in h && k != tag ==> moved[k] == AgeBelow(h, h[tag].lru)[k]
    ensures KeepsOthers(h, tag, moved)
  {
    forall a, b | a in moved && b in moved && a in h && b in h && a != tag && b != tag
      ensures h[a].lru < h[b].lru <==> moved[a].lru < moved[b].lru
    {
      assert h[a].lru != h[tag].lru && h[b].lru != h[tag].lru;
      AgeKeepsOrder(h[a].lru, h[b].lru, h[tag].lru);
    }
  }

  /** Replacing the accessed entry keeps the others. */
  lemma FrontKeepsOthers(h: Sampler, tag: int, moved: Sampler, e: History)
    requires KeepsOthers(h, tag, moved)
    ensures KeepsOthers(h, tag, moved[tag := e])
  {
    var r := moved[tag := e];
    assert forall k :: k in r && k != tag ==> k in moved && r[k] == moved[k];
  }

  /** Moving the accessed entry to the front (`lru = 0`) after recording the
      access keeps the sampler ordered. */
  lemma MovedToFront(h: Sampler, tag: int, moved: Sampler, timer: int, pc: bv64)
    requires Moved(h, tag, moved) && 0 <= timer < TimerSize
    ensures Ordered(moved[tag := Update(moved[tag], timer, pc).(lru := 0)])
  {
    var r := moved[tag := Update(moved[tag], timer, pc).(lru := 0)];
    assert r.Keys == moved.Keys;
    assert |r| == |moved| by {
      assert |r.Keys| == |moved.Keys|;
    }
    assert |moved| >= 1 by {
      assert {tag} <= moved.Keys;
      assert |{tag}| <= |moved.Keys| by {
        SubsetCard({tag}, moved.Keys);
      }
    }
    forall k | k in r
      ensures 0 <= r[k].lru < |r| && 0 <= r[k].previousVal < TimerSize
    {
    }
    forall a, b | a in r && b in r && a != b
      ensures r[a].lru != r[b].lru
    {
      if a != tag && b != tag {
        assert r[a] == moved[a] && r[b] == moved[b];
      }
    }
  }

  /** A demand access to a sampled tag: OPT's verdict trains the PC that
      last touched the line (up when OPT would have cached it and the
      reuse falls inside OPTgen's window, down otherwise), more recent
      entries age, and the entry stops counting as a prefetch. */
  function DemandHit(h: Sampler, tag: int, timer: int, optgenSize: int, optCached: bool): (r: (Sampler, Training))
    requires tag in h
    ensures r.0.Keys == h.Keys && !r.0[tag].prefetching
    ensures var e := h[tag]; var elapsed := timer - e.previousVal + (if timer < e.previousVal then TimerSize else 0);
      r.1 == if elapsed <= optgenSize && optCached then Increase(e.prefetching, e.pcVal) else Decrease(e.prefetching, e.pcVal)
  {
    var e := h[tag];
    var currentTime := if timer < e.previousVal then timer + TimerSize else timer;
    var isWrap := currentTime - e.previousVal > optgenSize;
    var training := if !isWrap && optCached then Increase(e.prefetching, e.pcVal) else Decrease(e.prefetching, e.pcVal);
    var aged := AgeBelow(h, e.lru);
    (aged[tag := aged[tag].(prefetching := false)], training)
  }

  /** Ageing the entries more recent than the accessed one leaves every
      other entry with its own place between 1 and the entry count. */
  lemma AgedAroundTag(h: Sampler, tag: int, moved: Sampler)
    requires Ordered(h) && tag in h
    requires moved.Keys == h.Keys
    requires forall k :: k in h && k != tag ==> moved[k] == AgeBelow(h, h[tag].lru)[k]
    requires 0 <= moved[tag].previousVal < TimerSize
    ensures Moved(h, tag, moved)
  {
    assert |moved| == |h| by {
      assert |moved.Keys| == |h.Keys|;
    }
    forall k | k in moved && k != tag
      ensures 1 <= moved[k].lru < |moved|
      ensures moved[k].pcVal == h[k].pcVal && moved[k].previousVal == h[k].previousVal
    {
      AgedOne(h, tag, moved, k);
    }
    forall a, b | a in moved && b in moved && a != b && a != tag && b != tag
      ensures moved[a].lru != moved[b].lru
    {
      AgedTwo(h, tag, moved, a, b);
    }
  }

  lemma AgedOne(h: Sampler, tag: int, moved: Sampler, k: int)
    requires Ordered(h) && tag in h && k in h && k != tag && moved.Keys == h.Keys
    requires moved[k] == AgeBelow(h, h[tag].lru)[k]
    ensures 1 <= moved[k].lru < |h|
    ensures moved[k].pcVal == h[k].pcVal && moved[k].previousVal == h[k].previousVal
  {
    assert h[k].lru != h[tag].lru;
  }

  lemma AgedTwo(h: Sampler, tag: int, moved: Sampler, a: int, b: int)
    requires Ordered(h) && tag in h && a in h && b in h && a != b && a != tag && b != tag
    requires moved.Keys == h.Keys
    requires moved[a] == AgeBelow(h, h[tag].lru)[a] && moved[b] == AgeBelow(h, h[tag].lru)[b]
    ensures moved[a].lru != moved[b].lru
  {
    assert h[a].lru != h[tag].lru && h[b].lru != h[tag].lru && h[a].lru != h[b].lru;
  }

  lemma DemandHitMoved(h: Sampler, tag: int, timer: int, optgenSize: int, optCached: bool)
    requires Ordered(h) && tag in h
    ensures Moved(h, tag, DemandHit(h, tag, timer, optgenSize, optCached).0)
  {
    AgedAroundTag(h, tag, DemandHit(h, tag, timer, optgenSize, optCached).0);
  }

  /** A demand hit keeps the other entries. */
  lemma DemandHitKeepsOthers(h: Sampler, tag: int, timer: int, optgenSize: int, optCached: bool)
    requires Ordered(h) && tag in h
    ensures KeepsOthers(h, tag, DemandHit(h, tag, timer, optgenSize, optCached).0)
  {
    AgedKeepsOthers(h, tag, DemandHit(h, tag, timer, optgenSize, optCached).0);
  }

  /** A prefetch to a sampled tag: the recorded PC is trained up when the
      prefetch came within five ticks of the last access and OPT would have
      cached it; the entry becomes a prefetch and more recent entries age. */
  function PrefetchHit(h: Sampler, tag: int, timer: int, optCached: bool): (r: (Sampler, Training))
    requires tag in h
    ensures r.0.Keys == h.Keys && r.0[tag].prefetching
    ensures r.1 == if h[tag].previousVal <= timer < h[tag].previousVal + PrefetchWindow && optCached
      then Increase(h[tag].prefetching, h[tag].pcVal) else NoTraining
  {
    var e := h[tag];
    var training := if timer >= e.previousVal && timer - e.previousVal < PrefetchWindow && optCached
      then Increase(e.prefetching, e.pcVal) else NoTraining;
    (AgeBelow(h[tag := SetPrefetch(e)], e.lru), training)
  }

  /** Apart from the accessed entry, a prefetch hit only ages the entries
      more recent than it. */
  lemma PrefetchHitAged(h: Sampler, tag: int, timer: int, optCached: bool)
    requires tag in h
    ensures forall k :: k in h && k != tag ==> PrefetchHit(h, tag, timer, optCached).0[k] == AgeBelow(h, h[tag].lru)[k]
  {
    var e := h[tag];
    var marked := h[tag := SetPrefetch(e)];
    assert forall k :: k in h && k != tag ==> marked[k] == h[k];
  }

  lemma PrefetchHitMoved(h: Sampler, tag: int, timer: int, optCached: bool)
    requires Ordered(h) && tag in h
    ensures Moved(h, tag, PrefetchHit(h, tag, timer, optCached).0)
  {
    var moved := PrefetchHit(h, tag, timer, optCached).0;
    PrefetchHitAged(h, tag, timer, optCached);
    AgedAroundTag(h, tag, moved);
  }

  /** A prefetch hit keeps the other entries. */
  lemma PrefetchHitKeepsOthers(h: Sampler, tag: int, timer: int, optCached: bool)
    requires Ordered(h) && tag in h
    ensures KeepsOthers(h, tag, PrefetchHit(h, tag, timer, optCached).0)
  {
    var moved := PrefetchHit(h, tag, timer, optCached).0;
    PrefetchHitAged(h, tag, timer, optCached);
    AgedKeepsOthers(h, tag, moved);
  }

  /** The entries a full set keeps when it takes a new tag. */
  function Kept(h: Sampler): (kept: Sampler)
    requires Ordered(h)
    ensures kept.Keys <= h.Keys && |kept| < SamplerHist
    ensures forall k :: k in kept ==> kept[k] == h[k] && kept[k].lru < SamplerHist - 1 && kept[k].lru < |kept|
    ensures kept.Keys == if |h| < SamplerHist then h.Keys else h.Keys - {Oldest(h)}
  {
    if |h| == SamplerHist then Drop(h, Oldest(h)) else h
  }

  /** A tag the sampler has not seen: a full set first drops its least
      recent entry; the new entry starts from `init` (marked as a prefetch
      for a prefetch) and every entry ages. */
  function Insert(h: Sampler, tag: int, isPrefetch: bool): (r: (Sampler, Training))
    requires Ordered(h) && tag !in h
    ensures r.1 == NoTraining && tag in r.0 && r.0[tag].prefetching == isPrefetch
    ensures r.0.Keys == Kept(h).Keys + {tag}
  {
    var started := Init(Blank);
    var entry := if isPrefetch then SetPrefetch(started) else started;
    (AgeBelow(Kept(h)[tag := entry], SamplerHist - 1), NoTraining)
  }

  lemma InsertMoved(h: Sampler, tag: int, isPrefetch: bool)
    requires Ordered(h) && tag !in h
    ensures Moved(h, tag, Insert(h, tag, isPrefetch).0)
  {
    InsertedOthers(h, tag, isPrefetch);
    ShiftedMoved(h, tag, Kept(h), Insert(h, tag, isPrefetch).0);
  }

  /** An insertion keeps the surviving entries. */
  lemma InsertKeepsOthers(h: Sampler, tag: int, isPrefetch: bool)
    requires Ordered(h) && tag !in h
    ensures KeepsOthers(h, tag, Insert(h, tag, isPrefetch).0)
  {
    var moved := Insert(h, tag, isPrefetch).0;
    InsertedOthers(h, tag, isPrefetch);
    ShiftedKeepsOthers(h, tag, Kept(h), moved);
  }

  /** Entries that all age by one keep their order and their fields. */
  lemma ShiftedKeepsOthers(h: Sampler, tag: int, kept: Sampler, moved: Sampler)
    requires kept.Keys <= h.Keys && forall k :: k in kept ==> kept[k] == h[k]
    requires moved.Keys == kept.Keys + {tag}
    requires forall k :: k in moved && k != tag ==> k in kept && moved[k] == kept[k].(lru := kept[k].lru + 1)
    ensures KeepsOthers(h, tag, moved)
  {
  }

  /** An entry added in front of entries that all age by one. */
  lemma ShiftedMoved(h: Sampler, tag: int, kept: Sampler, moved: Sampler)
    requires Ordered(h) && tag !in kept && kept.Keys <= h.Keys && |kept| < SamplerHist
    requires forall k :: k in kept ==> kept[k] == h[k] && kept[k].lru < |kept|
    requires moved.Keys == kept.Keys + {tag} && 0 <= moved[tag].previousVal < TimerSize
    requires forall k :: k in moved && k != tag ==> moved[k] == kept[k].(lru := kept[k].lru + 1)
    ensures Moved(h, tag, moved)
  {
    assert |moved| == |kept| + 1 by {
      assert |moved.Keys| == |kept.Keys| + 1;
    }
    forall k | k in moved && k != tag
      ensures k in h && 1 <= moved[k].lru < |moved|
      ensures moved[k].pcVal == h[k].pcVal && moved[k].previousVal == h[k].previousVal
    {
      assert moved[k].lru == h[k].lru + 1;
    }
    forall a, b | a in moved && b in moved && a != b && a != tag && b != tag
      ensures moved[a].lru != moved[b].lru
    {
      assert moved[a].lru == h[a].lru + 1 && moved[b].lru == h[b].lru + 1;
    }
    forall k | k in moved
      ensures 0 <= moved[k].previousVal < TimerSize
    {
      if k != tag {
        assert moved[k].previousVal == h[k].previousVal;
      }
    }
  }

  /** Every entry kept by an insertion ages by one. */
  lemma InsertedOthers(h: Sampler, tag: int, isPrefetch: bool)
    requires Ordered(h) && tag !in h
    ensures var kept := Kept(h); var moved := Insert(h, tag, isPrefetch).0;
      && moved.Keys == kept.Keys + {tag} && moved[tag].previousVal == 0
      && forall k :: k in moved && k != tag ==> k in kept && moved[k] == kept[k].(lru := kept[k].lru + 1)
  {
    var started := Init(Blank);
    var entry := if isPrefetch then SetPrefetch(started) else started;
    AgedAdded(Kept(h), tag, entry);
  }

  /** A new entry of age 0 added to entries below the oldest age: after
      aging, everyone is one older. */
  lemma AgedAdded(kept: Sampler, tag: int, entry: History)
    requires tag !in kept && entry.lru == 0
    requires forall k :: k in kept ==> kept[k].lru < SamplerHist - 1
    ensures var moved := AgeBelow(kept[tag := entry], SamplerHist - 1);
      && moved.Keys == kept.Keys + {tag} && moved[tag] == entry.(lru := 1)
      && forall k :: k in moved && k != tag ==> k in kept && moved[k] == kept[k].(lru := kept[k].lru + 1)
  {
    var added := kept[tag := entry];
    var moved := AgeBelow(added, SamplerHist - 1);
    forall k | k in moved && k != tag
      ensures k in kept && moved[k] == kept[k].(lru := kept[k].lru + 1)
    {
      assert added[k] == kept[k];
    }
  }

  /** The part of an access to a sampled set that `update_cache_history`
      and the `HISTORY` entries see, with `timer` the set's `set_timer`,
      `optgenSize` OPTgen's window and `optCached` OPTgen's `is_cache`
      answer for the entry's previous access: the accessed tag ends at the
      front holding this access's time and PC, and the sampler stays
      ordered. */
  function Access(h: Sampler, tag: int, isPrefetch: bool, timer: int, pc: bv64, optgenSize: int, optCached: bool): (r: (Sampler, Training))
    requires Ordered(h) && 0 <= timer < TimerSize
    ensures Accessed(h, tag, isPrefetch, timer, pc, optgenSize, optCached, r)
  {
    var step := Touch(h, tag, isPrefetch, timer, optgenSize, optCached);
    MovedToFront(h, tag, step.0, timer, pc);
    FrontKeepsOthers(h, tag, step.0, Update(step.0[tag], timer, pc).(lru := 0));
    (step.0[tag := Update(step.0[tag], timer, pc).(lru := 0)], step.1)
  }

  /** What an access leaves behind: an ordered sampler with the tag at the
      front holding this access's time, PC and kind; the same tags as
      before, or a full set's kept ones plus the new tag; every other entry
      as it was, apart from its place, in the same relative order; and the
      training of the branch taken. */
  predicate Accessed(h: Sampler, tag: int, isPrefetch: bool, timer: int, pc: bv64, optgenSize: int, optCached: bool, r: (Sampler, Training))
    requires Ordered(h)
  {
    && Ordered(r.0)
    && tag in r.0 && r.0[tag].lru == 0 && r.0[tag].previousVal == timer && r.0[tag].pcVal == pc
    && r.0[tag].prefetching == isPrefetch
    && r.0.Keys == (if tag in h then h.Keys else Kept(h).Keys + {tag})
    && (tag !in h ==> r.1 == NoTraining)
    && (tag in h && !isPrefetch ==> r.1 == DemandHit(h, tag, timer, optgenSize, optCached).1)
    && (tag in h && isPrefetch ==> r.1 == PrefetchHit(h, tag, timer, optCached).1)
    && KeepsOthers(h, tag, r.0)
  }

  /** The branch of the access before the entry moves to the front: a
      demand hit, a prefetch hit or an insertion. */
  function Touch(h: Sampler, tag: int, isPrefetch: bool, timer: int, optgenSize: int, optCached: bool): (r: (Sampler, Training))
    requires Ordered(h)
    ensures Moved(h, tag, r.0) && r.0[tag].prefetching == isPrefetch
    ensures KeepsOthers(h, tag, r.0)
    ensures r.0.Keys == if tag in h then h.Keys else Kept(h).Keys + {tag}
    ensures tag !in h ==> r.1 == NoTraining
    ensures tag in h && !isPrefetch ==> r.1 == DemandHit(h, tag, timer, optgenSize, optCached).1
    ensures tag in h && isPrefetch ==> r.1 == PrefetchHit(h, tag, timer, optCached).1
  {
    if tag in h && !isPrefetch then
      DemandHitMoved(h, tag, timer, optgenSize, optCached);
      DemandHitKeepsOthers(h, tag, timer, optgenSize, optCached);
      DemandHit(h, tag, timer, optgenSize, optCached)
    else if tag !in h then
      InsertMoved(h, tag, isPrefetch);
      InsertKeepsOthers(h, tag, isPrefetch);
      Insert(h, tag, isPrefetch)
    else
      PrefetchHitMoved(h, tag, timer, optCached);
      PrefetchHitKeepsOthers(h, tag, timer, optCached);
      PrefetchHit(h, tag, timer, optCached)
  }
}
