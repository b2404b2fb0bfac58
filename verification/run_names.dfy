/** The names the ChampSim runner gives its output files
    (testsOldChampSim/champsim.py): a temporary log
    `{trace}_pol:{policy}_bra:{branch}_pre:{prefetcher}_output.txt` that is
    renamed to the same stem with `_output_DONE.txt` once the simulator
    succeeds.  The result scripts read the four fields back out of these
    names, so the layout facts proved here serve both sides. */
module RunNames {
  import opened Wrappers
  import opened PyStr

  /** How an f-string renders an optional name: Python prints `None`. */
  function Show(o: Option<string>): (r: string)
    ensures o.Some? ==> r == o.value
    ensures o.None? ==> r == "None"
  {
    match o
    case Some(v) => v
    case None => "None"
  }

  /** The four fields a run is named after. */
  datatype RunKey = RunKey(trace: string, policy: string, branch: string, prefetcher: string)

  const TempSuffix: string := "_output.txt"
  const DoneSuffix: string := "_output_DONE.txt"

  function Stem(k: RunKey): string
  {
    k.trace + "_pol:" + k.policy + "_bra:" + k.branch + "_pre:" + k.prefetcher
  }

  /** The log the simulator writes into while it runs. */
  function TempName(k: RunKey): string
  {
    Stem(k) + TempSuffix
  }

  /** The name the log gets once the simulator exits with status 0. */
  function DoneName(k: RunKey): string
  {
    Stem(k) + DoneSuffix
  }

  /** No field contains `:`, the character that ends every marker. */
  predicate ColonFree(k: RunKey)
  {
    ':' !in k.trace && ':' !in k.policy && ':' !in k.branch && ':' !in k.prefetcher
  }

  /** The temporary and the completed name share the stem and differ in the
      suffix only, so they are never the same name. */
  lemma TempDoneDiffer(k: RunKey)
    ensures TempName(k)[..|Stem(k)|] == DoneName(k)[..|Stem(k)|] == Stem(k)
    ensures TempName(k) != DoneName(k)
  {
    assert |TempName(k)| != |DoneName(k)|;
  }

  /** Positions of the three markers `_pol:`, `_bra:`, `_pre:` and of the
      suffix in a name. */
  function PolAt(k: RunKey): nat { |k.trace| }
  function BraAt(k: RunKey): nat { PolAt(k) + 5 + |k.policy| }
  function PreAt(k: RunKey): nat { BraAt(k) + 5 + |k.branch| }
  function EndAt(k: RunKey): nat { PreAt(k) + 5 + |k.prefetcher| }

  /** `s` is laid out as the name of `k` with suffix `suf`: the pieces
      sit at the marker positions. */
  predicate LaidOut(s: string, k: RunKey, suf: string)
  {
    |s| == EndAt(k) + |suf| &&
    s[..PolAt(k)] == k.trace && s[PolAt(k)..PolAt(k) + 5] == "_pol:" &&
    s[PolAt(k) + 5..BraAt(k)] == k.policy && s[BraAt(k)..BraAt(k) + 5] == "_bra:" &&
    s[BraAt(k) + 5..PreAt(k)] == k.branch && s[PreAt(k)..PreAt(k) + 5] == "_pre:" &&
    s[PreAt(k) + 5..EndAt(k)] == k.prefetcher && s[EndAt(k)..] == suf
  }

  lemma Layout(k: RunKey, suf: string)
    ensures LaidOut(Stem(k) + suf, k, suf)
  {
  }

  /** The only colons of a name are those of its three markers. */
  lemma Colons(s: string, k: RunKey, suf: string)
    requires LaidOut(s, k, suf) && ColonFree(k) && ':' !in suf
    ensures forall i :: 0 <= i < |s| && s[i] == ':' ==>
      i == PolAt(k) + 4 || i == BraAt(k) + 4 || i == PreAt(k) + 4
  {
    var a, b, c, d := PolAt(k), BraAt(k), PreAt(k), EndAt(k);
    forall i | 0 <= i < |s| && i != a + 4 && i != b + 4 && i != c + 4
      ensures s[i] != ':'
    {
      if i < a {
        FieldNoColon(s, 0, a, k.trace, i);
      } else if i < a + 5 {
        MarkerNoColon(s, a, "_pol:", i);
      } else if i < b {
        FieldNoColon(s, a + 5, b, k.policy, i);
      } else if i < b + 5 {
        MarkerNoColon(s, b, "_bra:", i);
      } else if i < c {
        FieldNoColon(s, b + 5, c, k.branch, i);
      } else if i < c + 5 {
        MarkerNoColon(s, c, "_pre:", i);
      } else if i < d {
        FieldNoColon(s, c + 5, d, k.prefetcher, i);
      } else {
        FieldNoColon(s, d, |s|, suf, i);
      }
    }
  }

  lemma FieldNoColon(s: string, lo: nat, hi: nat, t: string, i: nat)
    requires lo <= i < hi <= |s| && s[lo..hi] == t && ':' !in t
    ensures s[i] != ':'
  {
    assert s[lo..hi][i - lo] == s[i];
  }

  /** Only the last of a marker's five characters is a colon. */
  lemma MarkerNoColon(s: string, lo: nat, m: string, i: nat)
    requires lo <= i < lo + 4 && lo + 5 <= |s| && s[lo..lo + 5] == m
    requires m[0] != ':' && m[1] != ':' && m[2] != ':' && m[3] != ':'
    ensures s[i] != ':'
  {
    assert s[lo..lo + 5][i - lo] == s[i];
  }

  /** What the marker searches rely on: the markers at `a`, `b` and `c`, and
      no colon anywhere else. */
  predicate Marked(s: string, a: nat, b: nat, c: nat)
  {
    a + 5 <= b && b + 5 <= c && c + 5 <= |s| &&
    s[a..a + 5] == "_pol:" && s[b..b + 5] == "_bra:" && s[c..c + 5] == "_pre:" &&
    forall i :: 0 <= i < |s| && s[i] == ':' ==> i == a + 4 || i == b + 4 || i == c + 4
  }

  lemma StemMarked(s: string, k: RunKey, suf: string)
    requires LaidOut(s, k, suf) && ColonFree(k) && ':' !in suf
    ensures Marked(s, PolAt(k), BraAt(k), PreAt(k))
  {
    Colons(s, k, suf);
  }

  /** In a name with colon-free fields, every marker the result scripts
      search for is first found where the runner put it. */
  lemma PolMarker(s: string, a: nat, b: nat, c: nat)
    requires Marked(s, a, b, c)
    ensures FindFrom(s, "_pol:", 0) == Some(a)
    ensures FindFrom(s, "pol:", 0) == Some(a + 1)
  {
    forall j | 0 <= j < a ensures !MatchesAt(s, j, "_pol:") {
      if j + 5 <= |s| {
        assert s[j + 4] != ':' && "_pol:"[4] == ':';
      }
    }
    OccursMatches(s, a, "_pol:");
    FindFromAt(s, "_pol:", 0, a);
    forall j | 0 <= j < a + 1 ensures !MatchesAt(s, j, "pol:") {
      if j + 4 <= |s| {
        assert "pol:"[0] == 'p' && "pol:"[1] == 'o' && "pol:"[3] == ':';
        assert s[j + 3] != ':';
      }
    }
    assert s[a + 1..a + 5] == s[a..a + 5][1..];
    OccursMatches(s, a + 1, "pol:");
    FindFromAt(s, "pol:", 0, a + 1);
  }

  lemma BraMarker(s: string, a: nat, b: nat, c: nat)
    requires Marked(s, a, b, c)
    ensures FindFrom(s, "_bra:", a + 5) == Some(b)
    ensures FindFrom(s, "bra:", 0) == Some(b + 1)
  {
    forall j | a + 5 <= j < b ensures !MatchesAt(s, j, "_bra:") {
      if j + 5 <= |s| {
        assert s[j + 4] != ':' && "_bra:"[4] == ':';
      }
    }
    OccursMatches(s, b, "_bra:");
    FindFromAt(s, "_bra:", a + 5, b);
    forall j | 0 <= j < b + 1 ensures !MatchesAt(s, j, "bra:") {
      if j + 4 <= |s| {
        assert "bra:"[0] == 'b' && "bra:"[1] == 'r' && "bra:"[3] == ':';
        if j == a + 1 {
          assert s[a..a + 5][1] == s[j];
        } else {
          assert s[j + 3] != ':';
        }
      }
    }
    assert s[b + 1..b + 5] == s[b..b + 5][1..];
    OccursMatches(s, b + 1, "bra:");
    FindFromAt(s, "bra:", 0, b + 1);
  }

  lemma PreMarker(s: string, a: nat, b: nat, c: nat)
    requires Marked(s, a, b, c)
    ensures FindFrom(s, "_pre:", b + 5) == Some(c)
    ensures FindFrom(s, "pre:", 0) == Some(c + 1)
  {
    UnderPreFound(s, a, b, c);
    BarePreFound(s, a, b, c);
  }

  lemma UnderPreFound(s: string, a: nat, b: nat, c: nat)
    requires Marked(s, a, b, c)
    ensures FindFrom(s, "_pre:", b + 5) == Some(c)
  {
    forall j | b + 5 <= j < c ensures !MatchesAt(s, j, "_pre:") {
      if j + 5 <= |s| {
        assert s[j + 4] != ':' && "_pre:"[4] == ':';
      }
    }
    OccursMatches(s, c, "_pre:");
    FindFromAt(s, "_pre:", b + 5, c);
  }

  lemma BarePreFound(s: string, a: nat, b: nat, c: nat)
    requires Marked(s, a, b, c)
    ensures FindFrom(s, "pre:", 0) == Some(c + 1)
  {
    forall j | 0 <= j < c + 1 ensures !MatchesAt(s, j, "pre:") {
      NoPreAt(s, a, b, c, j);
    }
    assert s[c + 1..c + 5] == s[c..c + 5][1..];
    OccursMatches(s, c + 1, "pre:");
    FindFromAt(s, "pre:", 0, c + 1);
  }

  /** Before the `_pre:` marker, `pre:` does not occur: the only colons
      there end `_pol:` and `_bra:`. */
  lemma NoPreAt(s: string, a: nat, b: nat, c: nat, j: nat)
    requires Marked(s, a, b, c) && j < c + 1
    ensures !MatchesAt(s, j, "pre:")
  {
    if j + 4 <= |s| {
      assert "pre:"[0] == 'p' && "pre:"[1] == 'r' && "pre:"[3] == ':';
      if j == a + 1 {
        assert s[a..a + 5][2] == s[j + 1];
      } else if j == b + 1 {
        assert s[b..b + 5][1] == s[j];
      } else {
        assert s[j + 3] != ':';
      }
    }
  }
}
