/** The parsing loop of the ChampSim result scripts
    (testsOldChampSim/results/graphic.py and testsChampSim/results/graphic.py):
    every `.txt` file of the output folder whose name carries the four
    markers, and whose content reports `CPU 0 cumulative IPC: <number>`,
    contributes `data[trace][policy]["{branch}_{prefetcher}"] = ipc`.  The
    two scripts differ only in the pattern that ends the prefetcher field:
    `_output_DONE.txt` in the older one, `_output.txt` in the newer one. */
module ChampSimResults {
  import opened Wrappers
  import opened OrderedDict
  import opened PyStr
  import opened ResultData
  import opened RunNames
  import opened NumberText

  /** The regex tails that end the prefetcher field; `.` is a wildcard. */
  const OldEnd: string := "_output_DONE.txt"
  const NewEnd: string := "_output.txt"

  /** The four fields read out of a file name, or `None` where the loop
      skips the file with `continue`. */
  function ParseName(name: string, endPat: string): (r: Option<RunKey>)
    ensures !EndsWith(name, ".txt") ==> r.None?
    ensures r.Some? ==> LazyGroup(name, "pre:", endPat) == Some(r.value.prefetcher)
  {
    if !EndsWith(name, ".txt") then None
    else
      match LazyGroup(name, "", "_pol:")
      case None => None
      case Some(trace) =>
        match LazyGroup(name, "pol:", "_bra:")
        case None => None
        case Some(policy) =>
          match LazyGroup(name, "bra:", "_pre:")
          case None => None
          case Some(branch) =>
            match LazyGroup(name, "pre:", endPat)
            case None => None
            case Some(prefetcher) => Some(RunKey(trace, policy, branch, prefetcher))
  }

  /** The end pattern is first found right after the prefetcher field. */
  predicate EndOnlyAfter(prefetcher: string, suf: string, endPat: string)
  {
    forall q :: 0 <= q < |prefetcher| ==> !MatchesAt(prefetcher + suf, q, endPat)
  }

  /** Reading the fields back out of a runner name gives the fields it was
      built from, provided no field contains `:` and the end pattern does
      not already match inside the prefetcher. */
  lemma RoundTrip(k: RunKey, suf: string)
    requires ColonFree(k) && ':' !in suf && EndsWith(suf, ".txt")
    requires EndOnlyAfter(k.prefetcher, suf, suf)
    ensures ParseName(Stem(k) + suf, suf) == Some(k)
  {
    Layout(k, suf);
    ParseLaidOut(Stem(k) + suf, k, suf);
  }

  lemma ParseLaidOut(s: string, k: RunKey, suf: string)
    requires LaidOut(s, k, suf)
    requires ColonFree(k) && ':' !in suf && EndsWith(suf, ".txt")
    requires EndOnlyAfter(k.prefetcher, suf, suf)
    ensures ParseName(s, suf) == Some(k)
  {
    var a, b, c, d := PolAt(k), BraAt(k), PreAt(k), EndAt(k);
    StemMarked(s, k, suf);
    assert EndsWith(s, ".txt") by {
      assert s[|s| - 4..] == suf[|suf| - 4..];
    }
    assert RunKey(s[..a], s[a + 5..b], s[b + 5..c], s[c + 5..d]) == k;
    ParseMarked(s, a, b, c, d, suf);
  }

  /** A name with the three markers in place and the suffix at `d` parses
      to the stretches between them. */
  lemma ParseMarked(s: string, a: nat, b: nat, c: nat, d: nat, suf: string)
    requires Marked(s, a, b, c) && EndsWith(s, ".txt")
    requires c + 5 <= d <= |s| && s[d..] == suf
    requires EndOnlyAfter(s[c + 5..d], suf, suf)
    ensures ParseName(s, suf) == Some(RunKey(s[..a], s[a + 5..b], s[b + 5..c], s[c + 5..d]))
  {
    GroupsFound(s, a, b, c);
    PrefetcherFound(s, a, b, c, d, suf);
    ParseNameOf(s, suf, RunKey(s[..a], s[a + 5..b], s[b + 5..c], s[c + 5..d]));
  }

  /** The trace, policy and branch fields are the stretches between the
      markers. */
  lemma GroupsFound(s: string, a: nat, b: nat, c: nat)
    requires Marked(s, a, b, c)
    ensures LazyGroup(s, "", "_pol:") == Some(s[..a])
    ensures LazyGroup(s, "pol:", "_bra:") == Some(s[a + 5..b])
    ensures LazyGroup(s, "bra:", "_pre:") == Some(s[b + 5..c])
  {
    TraceGroup(s, a, b, c);
    PolicyGroup(s, a, b, c);
    BranchGroup(s, a, b, c);
  }

  lemma TraceGroup(s: string, a: nat, b: nat, c: nat)
    requires Marked(s, a, b, c)
    ensures LazyGroup(s, "", "_pol:") == Some(s[..a])
  {
    PolMarker(s, a, b, c);
    assert FindFrom(s, "", 0) == Some(0) by {
      assert MatchesAt(s, 0, "");
    }
    LazyGroupAt(s, "", "_pol:", 0, a);
  }

  lemma PolicyGroup(s: string, a: nat, b: nat, c: nat)
    requires Marked(s, a, b, c)
    ensures LazyGroup(s, "pol:", "_bra:") == Some(s[a + 5..b])
  {
    PolMarker(s, a, b, c);
    BraMarker(s, a, b, c);
    LazyGroupAt(s, "pol:", "_bra:", a + 1, b);
  }

  lemma BranchGroup(s: string, a: nat, b: nat, c: nat)
    requires Marked(s, a, b, c)
    ensures LazyGroup(s, "bra:", "_pre:") == Some(s[b + 5..c])
  {
    BraMarker(s, a, b, c);
    PreMarker(s, a, b, c);
    LazyGroupAt(s, "bra:", "_pre:", b + 1, c);
  }

  /** The prefetcher field runs from the `pre:` marker to the first match
      of the end pattern, which is the suffix. */
  lemma PrefetcherFound(s: string, a: nat, b: nat, c: nat, d: nat, suf: string)
    requires Marked(s, a, b, c)
    requires c + 5 <= d <= |s| && s[d..] == suf
    requires EndOnlyAfter(s[c + 5..d], suf, suf)
    ensures LazyGroup(s, "pre:", suf) == Some(s[c + 5..d])
  {
    PreMarker(s, a, b, c);
    FirstEnd(s, c + 5, d, suf);
    LazyGroupAt(s, "pre:", suf, c + 1, d);
  }

  /** A suffix that matches nowhere inside the field before it is first
      found where the field ends. */
  lemma FirstEnd(s: string, off: nat, d: nat, suf: string)
    requires off <= d <= |s| && s[d..] == suf
    requires EndOnlyAfter(s[off..d], suf, suf)
    ensures FindFrom(s, suf, off) == Some(d)
  {
    assert s[off..] == s[off..d] + suf;
    forall j | off <= j < d ensures !MatchesAt(s, j, suf) {
      MatchesShift(s, off, j - off, suf);
    }
    OccursMatches(s, d, suf);
    FindFromAt(s, suf, off, d);
  }

  /** The four groups found make the parsed key. */
  lemma ParseNameOf(name: string, endPat: string, k: RunKey)
    requires EndsWith(name, ".txt")
    requires LazyGroup(name, "", "_pol:") == Some(k.trace)
    requires LazyGroup(name, "pol:", "_bra:") == Some(k.policy)
    requires LazyGroup(name, "bra:", "_pre:") == Some(k.branch)
    requires LazyGroup(name, "pre:", endPat) == Some(k.prefetcher)
    ensures ParseName(name, endPat) == Some(k)
  {
  }

  /** The older script reads every completed name back. */
  lemma DoneRoundTrip(k: RunKey)
    requires ColonFree(k) && EndOnlyAfter(k.prefetcher, DoneSuffix, OldEnd)
    ensures ParseName(DoneName(k), OldEnd) == Some(k)
  {
    RoundTrip(k, DoneSuffix);
  }

  /** The newer script reads every temporary name back. */
  lemma TempRoundTrip(k: RunKey)
    requires ColonFree(k) && EndOnlyAfter(k.prefetcher, TempSuffix, NewEnd)
    ensures ParseName(TempName(k), NewEnd) == Some(k)
  {
    RoundTrip(k, TempSuffix);
  }

  /** Two runs whose fields differ never share a completed name. */
  lemma DoneNameInjective(k1: RunKey, k2: RunKey)
    requires ColonFree(k1) && EndOnlyAfter(k1.prefetcher, DoneSuffix, OldEnd)
    requires ColonFree(k2) && EndOnlyAfter(k2.prefetcher, DoneSuffix, OldEnd)
    requires DoneName(k1) == DoneName(k2)
    ensures k1 == k2
  {
    DoneRoundTrip(k1);
    DoneRoundTrip(k2);
  }

  /** The older script skips the log of a run that has not finished: its
      end pattern needs a `D` after the prefetcher field. */
  lemma OldSkipsTemp(k: RunKey)
    requires ColonFree(k) && 'D' !in k.prefetcher
    ensures ParseName(TempName(k), OldEnd) == None
  {
    Layout(k, TempSuffix);
    OldSkipsLaidOut(TempName(k), k);
  }

  lemma OldSkipsLaidOut(s: string, k: RunKey)
    requires LaidOut(s, k, TempSuffix)
    requires ColonFree(k) && 'D' !in k.prefetcher
    ensures ParseName(s, OldEnd) == None
  {
    var a, b, c, d := PolAt(k), BraAt(k), PreAt(k), EndAt(k);
    StemMarked(s, k, TempSuffix);
    PreMarker(s, a, b, c);
    forall j | c + 5 <= j ensures !MatchesAt(s, j, OldEnd) {
      if j + |OldEnd| <= |s| {
        assert OldEnd[8] == 'D';
        if j + 8 < d {
          assert s[c + 5..d][j + 8 - (c + 5)] == s[j + 8];
        } else {
          assert s[d..][j + 8 - d] == s[j + 8];
        }
      }
    }
    assert FindFrom(s, OldEnd, c + 5) == None;
    LazyGroupNone(s, "pre:", OldEnd, c + 1);
    ParseNameNone(s, OldEnd);
  }

  /** A name whose prefetcher field is not found is skipped. */
  lemma ParseNameNone(name: string, endPat: string)
    requires LazyGroup(name, "pre:", endPat) == None
    ensures ParseName(name, endPat) == None
  {
  }

  /** The newer script skips completed names: after the prefetcher field,
      `_output_DONE.txt` never matches `_output.txt`. */
  lemma NewSkipsDone(k: RunKey)
    requires ColonFree(k)
    requires forall q :: 0 <= q < |k.prefetcher| ==> !MatchesAt(k.prefetcher + DoneSuffix, q, NewEnd)
    ensures ParseName(DoneName(k), NewEnd) == None
  {
    Layout(k, DoneSuffix);
    NewSkipsLaidOut(DoneName(k), k);
  }

  lemma NewSkipsLaidOut(s: string, k: RunKey)
    requires LaidOut(s, k, DoneSuffix)
    requires ColonFree(k)
    requires forall q :: 0 <= q < |k.prefetcher| ==> !MatchesAt(k.prefetcher + DoneSuffix, q, NewEnd)
    ensures ParseName(s, NewEnd) == None
  {
    var a, b, c, d := PolAt(k), BraAt(k), PreAt(k), EndAt(k);
    StemMarked(s, k, DoneSuffix);
    assert s[c + 5..] == k.prefetcher + DoneSuffix;
    forall j | c + 5 <= j < d ensures !MatchesAt(s, j, NewEnd) {
      MatchesShift(s, c + 5, j - (c + 5), NewEnd);
    }
    NewSkipsMarked(s, a, b, c, d);
  }

  /** Past the prefetcher field only `_output_DONE.txt` is left, where
      `_output.txt` cannot start. */
  lemma NewSkipsMarked(s: string, a: nat, b: nat, c: nat, d: nat)
    requires Marked(s, a, b, c)
    requires c + 5 <= d <= |s| && s[d..] == DoneSuffix
    requires forall j :: c + 5 <= j < d ==> !MatchesAt(s, j, NewEnd)
    ensures ParseName(s, NewEnd) == None
  {
    PreMarker(s, a, b, c);
    forall j | d <= j ensures !MatchesAt(s, j, NewEnd) {
      if j + |NewEnd| <= |s| {
        assert NewEnd[0] == '_' && NewEnd[8] == 't';
        assert s[d..][j - d] == s[j];
        assert s[d..][j + 8 - d] == s[j + 8];
      }
    }
    assert FindFrom(s, NewEnd, c + 5) == None;
    LazyGroupNone(s, "pre:", NewEnd, c + 1);
    ParseNameNone(s, NewEnd);
  }

  /** A log the newer runner writes, `{trace}_{policy}_output.txt`, has no
      markers, so the newer script skips it as long as trace and policy
      hold no `:`. */
  lemma RunnerNameSkipped(trace: string, policy: string)
    requires ':' !in trace && ':' !in policy
    ensures ParseName(trace + "_" + policy + "_output.txt", NewEnd) == None
  {
    var s := trace + "_" + policy + "_output.txt";
    forall i | 0 <= i < |s| ensures s[i] != ':' {
      if i < |trace| {
        assert s[i] == trace[i];
      } else if |trace| < i < |trace| + 1 + |policy| {
        assert s[i] == policy[i - |trace| - 1];
      }
    }
    NoColonSkipped(s, NewEnd);
  }

  /** A name without `:` never shows the first marker. */
  lemma NoColonSkipped(name: string, endPat: string)
    requires ':' !in name
    ensures ParseName(name, endPat) == None
  {
    forall j: nat ensures !MatchesAt(name, j, "_pol:") {
      if j + 5 <= |name| {
        assert name[j + 4] in name;
        assert name[j + 4] != ':' && "_pol:"[4] == ':';
      }
    }
    assert FindFrom(name, "_pol:", 0) == None;
    assert FindFrom(name, "", 0) == Some(0) by {
      assert MatchesAt(name, 0, "");
    }
    LazyGroupNone(name, "", "_pol:", 0);
  }

  /** The IPC line of a ChampSim report. */
  const IpcLabel: string := "CPU 0 cumulative IPC: "

  /** The dictionary key of a run, `f"{branch}_{prefetcher}"`. */
  function BpKey(k: RunKey): string
  {
    k.branch + "_" + k.prefetcher
  }

  /** What the loop does with one file. */
  function ParseFile(name: string, content: string, endPat: string): (r: Outcome)
    ensures r.Entry? ==>
      exists k :: ParseName(name, endPat) == Some(k) && r.trace == k.trace && r.policy == k.policy && r.key == BpKey(k)
    ensures ParseName(name, endPat).None? ==> r.Skip?
    ensures SearchNumber(content, IpcLabel, NoGap).None? ==> r.Skip?
  {
    match ParseName(name, endPat)
    case None => Skip
    case Some(k) =>
      match SearchNumber(content, IpcLabel, NoGap)
      case None => Skip
      case Some(num) =>
        match DecimalFloat(num)
        case None => Crash
        case Some(d) => Entry(k.trace, k.policy, BpKey(k), Value(d))
  }

  /** A completed run whose report states its IPC as `w.frac` becomes the
      entry for its own key with that value. */
  lemma ParseDoneReport(k: RunKey, w: nat, frac: string, post: string)
    requires ColonFree(k) && EndOnlyAfter(k.prefetcher, DoneSuffix, OldEnd)
    requires IsDigitStr(frac) && (|post| == 0 || !IsNumChar(post[0]))
    ensures ParseFile(DoneName(k), IpcLabel + NatToString(w) + "." + frac + post, OldEnd) ==
      Entry(k.trace, k.policy, BpKey(k), Value(Decimal(w, DigitsValue(frac), |frac|)))
  {
    DoneRoundTrip(k);
    var num := NatToString(w) + "." + frac;
    FloatOfDecimal(w, frac);
    SearchFindsFirst(IpcLabel, NoGap, "", num, post);
    assert IpcLabel + "" == IpcLabel;
    Regroup(IpcLabel, NatToString(w), ".", frac, post);
    ParseFileOf(DoneName(k), IpcLabel + num + post, OldEnd, k, num, Decimal(w, DigitsValue(frac), |frac|));
  }

  lemma Regroup(a: string, b: string, c: string, d: string, e: string)
    ensures a + b + c + d + e == a + (b + c + d) + e
  {
  }

  lemma ParseFileOf(name: string, content: string, endPat: string, k: RunKey, num: string, d: Decimal)
    requires ParseName(name, endPat) == Some(k)
    requires SearchNumber(content, IpcLabel, NoGap) == Some(num)
    requires DecimalFloat(num) == Some(d)
    ensures ParseFile(name, content, endPat) == Entry(k.trace, k.policy, BpKey(k), Value(d))
  {
  }

  /** The whole loop over `(name, content)` pairs in listing order. */
  function ParseAll(files: seq<(string, string)>, endPat: string): Result<Data, string>
  {
    Collect(seq(|files|, i requires 0 <= i < |files| => ParseFile(files[i].0, files[i].1, endPat)))
  }
}
