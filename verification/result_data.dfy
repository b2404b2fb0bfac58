/** The table the result scripts fill while parsing output files:
    `data[trace][policy][key] = ipc`, three levels of insertion-ordered
    dictionaries, and the flat list of bars `(policy, key, ipc)` that the
    per-trace plots build from one trace's entries in dictionary order. */
module ResultData {
  import opened Wrappers
  import opened OrderedDict

  type BpMap = Dict<string, real>
  type PolicyMap = Dict<string, BpMap>
  type Data = Dict<string, PolicyMap>

  /** One bar of a plot: policy, branch/prefetcher key and IPC. */
  datatype Bar = Bar(policy: string, bp: string, ipc: real)

  function Ipc(b: Bar): real
  {
    b.ipc
  }

  predicate WellFormedPolicies(pm: PolicyMap)
  {
    DistinctKeys(pm) && forall i :: 0 <= i < |pm| ==> DistinctKeys(pm[i].1)
  }

  predicate WellFormed(d: Data)
  {
    DistinctKeys(d) && forall i :: 0 <= i < |d| ==> WellFormedPolicies(d[i].1)
  }

  /** `data[trace][policy][key]`, or `None` where the script would find no entry. */
  function Lookup(d: Data, trace: string, policy: string, key: string): Option<real>
  {
    match Get(d, trace)
    case None => None
    case Some(pm) =>
      match Get(pm, policy)
      case None => None
      case Some(bm) => Get(bm, key)
  }

  /** `data[trace][policy][key] = ipc` on nested default dictionaries:
      missing levels are created at the end, existing ones keep their place. */
  function Store(d: Data, trace: string, policy: string, key: string, ipc: real): (r: Data)
    requires WellFormed(d)
    ensures WellFormed(r)
    ensures HasKey(d, trace) ==> Keys(r) == Keys(d)
    ensures !HasKey(d, trace) ==> Keys(r) == Keys(d) + [trace]
  {
    var pm := Get(d, trace).GetOr([]);
    var bm := Get(pm, policy).GetOr([]);
    InnerWellFormed(d, trace);
    InnerDistinct(pm, policy);
    var pm' := Put(pm, policy, Put(bm, key, ipc));
    PutKeepsWellFormedPolicies(pm, policy, Put(bm, key, ipc));
    PutKeepsWellFormed(d, trace, pm');
    Put(d, trace, pm')
  }

  lemma InnerWellFormed(d: Data, trace: string)
    requires WellFormed(d)
    ensures WellFormedPolicies(Get(d, trace).GetOr([]))
  {
    if HasKey(d, trace) {
      var pm := Get(d, trace).value;
      var i :| 0 <= i < |d| && d[i] == (trace, pm);
    }
  }

  lemma InnerDistinct(pm: PolicyMap, policy: string)
    requires WellFormedPolicies(pm)
    ensures DistinctKeys(Get(pm, policy).GetOr([]))
  {
    if HasKey(pm, policy) {
      var bm := Get(pm, policy).value;
      var i :| 0 <= i < |pm| && pm[i] == (policy, bm);
    }
  }

  lemma PutKeepsWellFormedPolicies(pm: PolicyMap, policy: string, bm: BpMap)
    requires WellFormedPolicies(pm) && DistinctKeys(bm)
    ensures WellFormedPolicies(Put(pm, policy, bm))
  {
    var r := Put(pm, policy, bm);
    forall i | 0 <= i < |r| ensures DistinctKeys(r[i].1) {
      if r[i] != (policy, bm) {
        var j :| 0 <= j < |pm| && pm[j] == r[i];
      }
    }
  }

  lemma PutKeepsWellFormed(d: Data, trace: string, pm: PolicyMap)
    requires WellFormed(d) && WellFormedPolicies(pm)
    ensures WellFormed(Put(d, trace, pm))
  {
    var r := Put(d, trace, pm);
    forall i | 0 <= i < |r| ensures WellFormedPolicies(r[i].1) {
      if r[i] != (trace, pm) {
        var j :| 0 <= j < |d| && d[j] == r[i];
      }
    }
  }

  /** The stored value is read back, and every other entry reads as before:
      a later file with the same key overwrites an earlier one. */
  lemma StoreLookup(d: Data, trace: string, policy: string, key: string, ipc: real, t: string, p: string, k: string)
    requires WellFormed(d)
    ensures Lookup(Store(d, trace, policy, key, ipc), t, p, k) ==
      if (t, p, k) == (trace, policy, key) then Some(ipc) else Lookup(d, t, p, k)
  {
    var pm := Get(d, trace).GetOr([]);
    var bm := Get(pm, policy).GetOr([]);
    InnerWellFormed(d, trace);
    InnerDistinct(pm, policy);
    var bm' := Put(bm, key, ipc);
    var pm' := Put(pm, policy, bm');
    assert Get(pm', policy) == Some(bm');
    assert Store(d, trace, policy, key, ipc) == Put(d, trace, pm');
    if t == trace {
      assert Get(Put(d, trace, pm'), t) == Some(pm');
      if p == policy {
        assert Get(pm', p) == Some(bm');
      } else {
        assert Get(pm', p) == Get(pm, p);
      }
    }
  }

  /** The bars of one policy, in the dictionary's order. */
  function PolicyBars(policy: string, bm: BpMap): (r: seq<Bar>)
    ensures |r| == |bm|
    ensures forall i :: 0 <= i < |r| ==> r[i] == Bar(policy, bm[i].0, bm[i].1)
  {
    seq(|bm|, i requires 0 <= i < |bm| => Bar(policy, bm[i].0, bm[i].1))
  }

  /** All `(policy, key, ipc)` entries of one trace, policy by policy, as the
      per-trace plots collect them. */
  function TraceBars(pm: PolicyMap): (r: seq<Bar>)
    ensures WellFormedPolicies(pm) ==>
      forall b :: b in r ==> exists bm :: Get(pm, b.policy) == Some(bm) && Get(bm, b.bp) == Some(b.ipc)
  {
    if |pm| == 0 then []
    else
      var head := PolicyBars(pm[0].0, pm[0].1);
      var tail := TraceBars(pm[1..]);
      assert WellFormedPolicies(pm) ==> WellFormedPolicies(pm[1..]);
      assert WellFormedPolicies(pm) ==>
        forall b :: b in head + tail ==> exists bm :: Get(pm, b.policy) == Some(bm) && Get(bm, b.bp) == Some(b.ipc) by {
        if WellFormedPolicies(pm) {
          forall b | b in head + tail
            ensures exists bm :: Get(pm, b.policy) == Some(bm) && Get(bm, b.bp) == Some(b.ipc)
          {
            if b in head {
              var i :| 0 <= i < |head| && head[i] == b;
              assert Get(pm, b.policy) == Some(pm[0].1);
              assert Get(pm[0].1, b.bp) == Some(b.ipc);
            } else {
              assert b in tail;
              var bm :| Get(pm[1..], b.policy) == Some(bm) && Get(bm, b.bp) == Some(b.ipc);
              var j :| 0 <= j < |pm[1..]| && pm[1..][j] == (b.policy, bm);
              assert pm[j + 1] == (b.policy, bm);
              assert Get(pm, b.policy) == Some(bm);
            }
          }
        }
      }
      head + tail
  }

  /** Every entry of a policy's dictionary is one of its bars. */
  lemma PolicyBarsComplete(policy: string, bm: BpMap, key: string)
    requires HasKey(bm, key)
    ensures Bar(policy, key, Get(bm, key).value) in PolicyBars(policy, bm)
  {
    var i :| 0 <= i < |bm| && bm[i] == (key, Get(bm, key).value);
    assert PolicyBars(policy, bm)[i] == Bar(policy, key, Get(bm, key).value);
  }

  /** Every entry stored for a trace is one of its bars: the per-trace
      plots see all of `data[trace]`. */
  lemma {:induction false} TraceBarsComplete(pm: PolicyMap, policy: string, key: string)
    requires WellFormedPolicies(pm)
    requires HasKey(pm, policy) && HasKey(Get(pm, policy).value, key)
    ensures Bar(policy, key, Get(Get(pm, policy).value, key).value) in TraceBars(pm)
  {
    var bm := Get(pm, policy).value;
    var i :| 0 <= i < |pm| && pm[i] == (policy, bm);
    assert TraceBars(pm) == PolicyBars(pm[0].0, pm[0].1) + TraceBars(pm[1..]);
    if i == 0 {
      PolicyBarsComplete(policy, bm, key);
    } else {
      var tail := pm[1..];
      assert tail[i - 1] == (policy, bm);
      assert WellFormedPolicies(tail);
      assert Get(tail, policy) == Some(bm);
      TraceBarsComplete(tail, policy, key);
    }
  }

  /** Number of entries a trace contributes to the per-trace plots. */
  function EntryCount(pm: PolicyMap): nat
  {
    if |pm| == 0 then 0 else |pm[0].1| + EntryCount(pm[1..])
  }

  lemma {:induction false} TraceBarsCount(pm: PolicyMap)
    ensures |TraceBars(pm)| == EntryCount(pm)
  {
    if |pm| > 0 {
      TraceBarsCount(pm[1..]);
    }
  }

  /** What a parsing loop does with one file: skip it, store one IPC under
      `data[trace][policy][key]`, or stop with the `ValueError` that
      Python's `float` raises on a malformed figure. */
  datatype Outcome = Skip | Entry(trace: string, policy: string, key: string, ipc: real) | Crash

  /** The table a parsing loop builds from its files' outcomes, in listing
      order, or `Failure` if some `float` call raises. */
  function Collect(outs: seq<Outcome>): (r: Result<Data, string>)
    ensures r.Success? ==> WellFormed(r.value)
    decreases |outs|
  {
    if |outs| == 0 then Success([])
    else
      match Collect(outs[..|outs| - 1])
      case Failure(e) => Failure(e)
      case Success(d) =>
        match outs[|outs| - 1]
        case Skip => Success(d)
        case Crash => Failure("ValueError: could not convert string to float")
        case Entry(t, p, k, v) => Success(Store(d, t, p, k, v))
  }

  /** Reference reading of a table: the IPC of the last outcome that wrote
      `(trace, policy, key)`. */
  function LastWrite(outs: seq<Outcome>, trace: string, policy: string, key: string): Option<real>
    decreases |outs|
  {
    if |outs| == 0 then None
    else
      var o := outs[|outs| - 1];
      if o.Entry? && (o.trace, o.policy, o.key) == (trace, policy, key) then Some(o.ipc)
      else LastWrite(outs[..|outs| - 1], trace, policy, key)
  }

  /** Every cell of the table holds the value of the last file that wrote
      it: later files overwrite earlier ones, and cells nobody wrote are
      absent. */
  lemma {:induction false} CollectLookup(outs: seq<Outcome>, trace: string, policy: string, key: string)
    requires Collect(outs).Success?
    ensures Lookup(Collect(outs).value, trace, policy, key) == LastWrite(outs, trace, policy, key)
    decreases |outs|
  {
    if |outs| > 0 {
      var init := outs[..|outs| - 1];
      CollectLookup(init, trace, policy, key);
      var d := Collect(init).value;
      match outs[|outs| - 1]
      case Skip =>
      case Entry(t, p, k, v) =>
        StoreLookup(d, t, p, k, v, trace, policy, key);
    }
  }

  /** The loop fails exactly when some file's figure is rejected. */
  lemma {:induction false} CollectFails(outs: seq<Outcome>)
    ensures Collect(outs).Failure? <==> exists i :: 0 <= i < |outs| && outs[i].Crash?
    decreases |outs|
  {
    if |outs| > 0 {
      var init := outs[..|outs| - 1];
      CollectFails(init);
      assert forall i :: 0 <= i < |init| ==> init[i] == outs[i];
    }
  }
}
