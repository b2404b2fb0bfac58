/** Reading an IPC figure out of a simulator report.  The result scripts use
    one regex shape, `<literal><gap>([\d\.]+)`, with three gaps:
    nothing (ChampSim, `CPU 0 cumulative IPC: `), `\s+` (gem5,
    `system\.cpu\.ipc`) and `\s*` (Scarab, `IPC:`), and hand group 1 to
    Python's `float`. */
module NumberText {
  import opened Wrappers
  import opened PyStr

  /** A character of the class `[\d\.]`, on ASCII digits. */
  predicate IsNumChar(c: char)
  {
    '0' <= c <= '9' || c == '.'
  }

  /** Length of the longest run of `[\d\.]` starting at `i`. */
  function NumRun(s: string, i: nat): (n: nat)
    requires i <= |s|
    ensures i + n <= |s|
    ensures forall k :: i <= k < i + n ==> IsNumChar(s[k])
    ensures i + n == |s| || !IsNumChar(s[i + n])
    decreases |s| - i
  {
    if i < |s| && IsNumChar(s[i]) then 1 + NumRun(s, i + 1) else 0
  }

  /** Length of the longest run of whitespace starting at `i`. */
  function SpaceRun(s: string, i: nat): (n: nat)
    requires i <= |s|
    ensures i + n <= |s|
    ensures forall k :: i <= k < i + n ==> IsSpace(s[k])
    ensures i + n == |s| || !IsSpace(s[i + n])
    decreases |s| - i
  {
    if i < |s| && IsSpace(s[i]) then 1 + SpaceRun(s, i + 1) else 0
  }

  /** What may separate the literal from the number: nothing, `\s*` or `\s+`. */
  datatype Gap = NoGap | AnySpace | SomeSpace

  /** Where group 1 starts when the regex matches at `p`.  Whitespace and
      `[\d\.]` are disjoint, so the greedy gap never gives anything back. */
  function NumberStart(s: string, p: nat, lit: string, gap: Gap): (r: Option<nat>)
    ensures r.Some? ==> OccursAt(s, p, lit) && p + |lit| <= r.value < |s| && IsNumChar(s[r.value])
    ensures r.Some? ==> forall k :: p + |lit| <= k < r.value ==> IsSpace(s[k])
    ensures r.Some? && gap == NoGap ==> r.value == p + |lit|
    ensures r.Some? && gap == SomeSpace ==> r.value > p + |lit|
  {
    if !OccursAt(s, p, lit) then None
    else
      var q := p + |lit|;
      var w := if gap == NoGap then 0 else SpaceRun(s, q);
      if gap == SomeSpace && w == 0 then None
      else if q + w < |s| && IsNumChar(s[q + w]) then Some(q + w)
      else None
  }

  /** Leftmost index `>= from` at which the regex matches. */
  function FindNumber(s: string, lit: string, gap: Gap, from: nat): (r: Option<nat>)
    ensures r.Some? ==> from <= r.value && NumberStart(s, r.value, lit, gap).Some?
    ensures r.Some? ==> forall j :: from <= j < r.value ==> NumberStart(s, j, lit, gap).None?
    ensures r.None? ==> forall j: nat :: from <= j ==> NumberStart(s, j, lit, gap).None?
    decreases |s| - from
  {
    if from > |s| then None
    else if NumberStart(s, from, lit, gap).Some? then Some(from)
    else FindNumber(s, lit, gap, from + 1)
  }

  /** Group 1 of `re.search(lit + gap + r"([\d\.]+)", s)`: the whole run of
      `[\d\.]` after the leftmost match. */
  function SearchNumber(s: string, lit: string, gap: Gap): (r: Option<string>)
    ensures r.None? <==> forall j: nat :: NumberStart(s, j, lit, gap).None?
    ensures r.Some? ==> |r.value| > 0 && AllNumChars(r.value)
  {
    match FindNumber(s, lit, gap, 0)
    case None => None
    case Some(p) =>
      var q := NumberStart(s, p, lit, gap).value;
      RunAllNum(s, q);
      Some(s[q..q + NumRun(s, q)])
  }

  lemma RunAllNum(s: string, q: nat)
    requires q <= |s|
    ensures AllNumChars(s[q..q + NumRun(s, q)])
  {
    var v := s[q..q + NumRun(s, q)];
    forall i | 0 <= i < |v| ensures IsNumChar(v[i]) {
      assert v[i] == s[q + i];
    }
  }

  /** A report that opens with the literal, the gap and the figure yields
      the figure. */
  lemma SearchFindsFirst(lit: string, gap: Gap, sp: string, num: string, post: string)
    requires forall i :: 0 <= i < |sp| ==> IsSpace(sp[i])
    requires gap == NoGap ==> |sp| == 0
    requires gap == SomeSpace ==> |sp| > 0
    requires |num| > 0 && forall i :: 0 <= i < |num| ==> IsNumChar(num[i])
    requires |post| == 0 || !IsNumChar(post[0])
    ensures SearchNumber(lit + sp + num + post, lit, gap) == Some(num)
  {
    var s := lit + sp + num + post;
    var q := |lit|;
    ReportLayout(lit, sp, num, post);
    SpaceRunOver(s, q, sp, num + post);
    NumRunOver(s, q + |sp|, num, post);
    SearchAtStart(s, lit, gap, |sp|);
  }

  /** Where the pieces of `lit + sp + num + post` sit. */
  lemma ReportLayout(lit: string, sp: string, num: string, post: string)
    ensures OccursAt(lit + sp + num + post, 0, lit)
    ensures (lit + sp + num + post)[|lit|..] == sp + (num + post)
    ensures (lit + sp + num + post)[|lit| + |sp|..] == num + post
  {
    var s := lit + sp + num + post;
    assert s[..|lit|] == lit;
  }

  /** The regex matching at index 0 yields the run after the gap. */
  lemma SearchAtStart(s: string, lit: string, gap: Gap, w: nat)
    requires OccursAt(s, 0, lit) && |lit| + w < |s| && IsNumChar(s[|lit| + w])
    requires gap == NoGap ==> w == 0
    requires gap != NoGap ==> SpaceRun(s, |lit|) == w
    requires gap == SomeSpace ==> w > 0
    ensures SearchNumber(s, lit, gap) == Some(s[|lit| + w..|lit| + w + NumRun(s, |lit| + w)])
  {
    StartAtZero(s, lit, gap, w);
    SearchFromZero(s, lit, gap, |lit| + w);
  }

  lemma StartAtZero(s: string, lit: string, gap: Gap, w: nat)
    requires OccursAt(s, 0, lit) && |lit| + w < |s| && IsNumChar(s[|lit| + w])
    requires gap == NoGap ==> w == 0
    requires gap != NoGap ==> SpaceRun(s, |lit|) == w
    requires gap == SomeSpace ==> w > 0
    ensures NumberStart(s, 0, lit, gap) == Some(|lit| + w)
  {
  }

  /** A match at index 0 is the leftmost one. */
  lemma SearchFromZero(s: string, lit: string, gap: Gap, q: nat)
    requires NumberStart(s, 0, lit, gap) == Some(q)
    ensures q + NumRun(s, q) <= |s|
    ensures SearchNumber(s, lit, gap) == Some(s[q..q + NumRun(s, q)])
  {
    FindAtZero(s, lit, gap);
    SearchFound(s, lit, gap, 0, q);
  }

  /** The group is the run after the gap at the leftmost match. */
  lemma SearchFound(s: string, lit: string, gap: Gap, p: nat, q: nat)
    requires FindNumber(s, lit, gap, 0) == Some(p) && NumberStart(s, p, lit, gap) == Some(q)
    ensures q + NumRun(s, q) <= |s|
    ensures SearchNumber(s, lit, gap) == Some(s[q..q + NumRun(s, q)])
  {
    assert NumberStart(s, p, lit, gap).value == q;
  }

  lemma FindAtZero(s: string, lit: string, gap: Gap)
    requires NumberStart(s, 0, lit, gap).Some?
    ensures FindNumber(s, lit, gap, 0) == Some(0)
  {
  }

  /** The whitespace run at the start of `sp + rest` is exactly `sp` when
      `rest` opens with a `[\d\.]` character. */
  lemma {:induction false} SpaceRunOver(s: string, q: nat, sp: string, rest: string)
    requires q + |sp| + |rest| == |s| && s[q..] == sp + rest
    requires forall i :: 0 <= i < |sp| ==> IsSpace(sp[i])
    requires |rest| > 0 && IsNumChar(rest[0])
    ensures SpaceRun(s, q) == |sp|
    decreases |sp|
  {
    if |sp| == 0 {
      assert s[q] == rest[0];
    } else {
      assert s[q] == sp[0];
      assert s[q + 1..] == sp[1..] + rest;
      SpaceRunOver(s, q + 1, sp[1..], rest);
    }
  }

  /** The run of `[\d\.]` at the start of `num + post` is exactly `num`. */
  lemma {:induction false} NumRunOver(s: string, q: nat, num: string, post: string)
    requires q + |num| + |post| == |s| && s[q..] == num + post
    requires forall i :: 0 <= i < |num| ==> IsNumChar(num[i])
    requires |post| == 0 || !IsNumChar(post[0])
    ensures NumRun(s, q) == |num|
    ensures s[q..q + |num|] == num
    decreases |num|
  {
    assert s[q..q + |num|] == (num + post)[..|num|];
    if |num| == 0 {
      if |post| > 0 {
        assert s[q] == post[0];
      }
    } else {
      assert s[q] == num[0];
      assert s[q + 1..] == num[1..] + post;
      NumRunOver(s, q + 1, num[1..], post);
    }
  }

  /** Number of `.` characters. */
  function CountDots(t: string): nat
  {
    if |t| == 0 then 0 else (if t[0] == '.' then 1 else 0) + CountDots(t[1..])
  }

  function Pow10(n: nat): (r: nat)
    ensures r > 0
  {
    if n == 0 then 1 else 10 * Pow10(n - 1)
  }

  /** Every character is a digit; unlike `IsDigitStr`, empty is allowed. */
  predicate AllDigits(t: string)
  {
    forall i :: 0 <= i < |t| ==> '0' <= t[i] <= '9'
  }

  predicate AllNumChars(t: string)
  {
    forall i :: 0 <= i < |t| ==> IsNumChar(t[i])
  }

  predicate HasDigit(t: string)
  {
    exists i :: 0 <= i < |t| && '0' <= t[i] <= '9'
  }

  /** A decimal figure `whole.frac` with `places` digits after the point. */
  datatype Decimal = Decimal(whole: nat, frac: nat, places: nat)

  /** The exact value of a decimal figure; binary rounding is not modelled. */
  function Value(d: Decimal): real
  {
    d.whole as real + d.frac as real / Pow10(d.places) as real
  }

  /** Python's `float` on a run of `[\d\.]`: `None` where it raises
      `ValueError`, that is for a second `.` or for a run without digits. */
  function DecimalFloat(t: string): (r: Option<Decimal>)
    requires AllNumChars(t)
  {
    if '.' !in t then
      if |t| == 0 then None
      else
        assert AllDigits(t) by {
          forall k | 0 <= k < |t| ensures '0' <= t[k] <= '9' {
            assert IsNumChar(t[k]);
          }
        }
        Some(Decimal(DigitsValue(t), 0, 0))
    else
      var i := IndexOf(t, '.');
      var ip, fp := t[..i], t[i + 1..];
      if '.' in fp || |ip| + |fp| == 0 then None
      else
        DotSplitDigits(t, i);
        Some(Decimal(DigitsValue(ip), DigitsValue(fp), |fp|))
  }

  /** `float` accepts the run exactly when it has at most one `.` and at
      least one digit. */
  lemma FloatDefined(t: string)
    requires AllNumChars(t)
    ensures DecimalFloat(t).Some? <==> CountDots(t) <= 1 && HasDigit(t)
  {
    if '.' !in t {
      NoDotCount(t);
      if |t| > 0 {
        assert '0' <= t[0] <= '9';
      }
    } else {
      var i := IndexOf(t, '.');
      DotSplitCount(t, i);
      DotSplitDigits(t, i);
    }
  }

  lemma {:induction false} NoDotCount(t: string)
    requires '.' !in t
    ensures CountDots(t) == 0
  {
    if |t| > 0 {
      assert t[1..][..] == t[1..];
      assert forall k :: 0 <= k < |t[1..]| ==> t[1..][k] == t[k + 1];
      NoDotCount(t[1..]);
    }
  }

  lemma {:induction false} CountDotsAppend(a: string, b: string)
    ensures CountDots(a + b) == CountDots(a) + CountDots(b)
  {
    if |a| == 0 {
      assert a + b == b;
    } else {
      assert (a + b)[1..] == a[1..] + b;
      CountDotsAppend(a[1..], b);
    }
  }

  lemma CountDotsPositive(t: string)
    requires '.' in t
    ensures CountDots(t) > 0
  {
    var i := IndexOf(t, '.');
    assert t == t[..i] + [t[i]] + t[i + 1..];
    CountDotsAppend(t[..i] + [t[i]], t[i + 1..]);
    CountDotsAppend(t[..i], [t[i]]);
  }

  /** Splitting at the first `.`: the count is one plus the dots after it. */
  lemma DotSplitCount(t: string, i: nat)
    requires i < |t| && t[i] == '.' && '.' !in t[..i]
    ensures CountDots(t) == 1 + CountDots(t[i + 1..])
    ensures CountDots(t) <= 1 <==> '.' !in t[i + 1..]
  {
    assert t == t[..i] + [t[i]] + t[i + 1..];
    CountDotsAppend(t[..i] + [t[i]], t[i + 1..]);
    CountDotsAppend(t[..i], [t[i]]);
    NoDotCount(t[..i]);
    assert CountDots([t[i]]) == 1 by {
      assert [t[i]][1..] == [];
    }
    if '.' in t[i + 1..] {
      CountDotsPositive(t[i + 1..]);
    } else {
      NoDotCount(t[i + 1..]);
    }
  }

  /** Around the first `.` of a run of `[\d\.]` without a second one, the
      two sides are digits, and there is a digit iff a side is non-empty. */
  lemma DotSplitDigits(t: string, i: nat)
    requires AllNumChars(t) && i < |t| && t[i] == '.' && '.' !in t[..i]
    ensures AllDigits(t[..i])
    ensures '.' !in t[i + 1..] ==> AllDigits(t[i + 1..])
    ensures '.' !in t[i + 1..] ==> (HasDigit(t) <==> i + |t[i + 1..]| > 0)
  {
    forall k | 0 <= k < i ensures '0' <= t[..i][k] <= '9' {
      assert t[..i][k] == t[k];
      assert t[k] != '.' by {
        assert t[k] in t[..i];
      }
    }
    if '.' !in t[i + 1..] {
      var fp := t[i + 1..];
      forall k | 0 <= k < |fp| ensures '0' <= fp[k] <= '9' {
        assert fp[k] in fp;
      }
      if i > 0 {
        assert '0' <= t[0] <= '9' by {
          assert t[..i][0] == t[0];
        }
      } else if |fp| > 0 {
        assert '0' <= t[i + 1] <= '9' by {
          assert fp[0] == t[i + 1];
        }
      } else {
        assert |t| == 1;
        assert forall k :: 0 <= k < |t| ==> t[k] == '.';
      }
    }
  }

  /** `float(str(n)) == n`. */
  lemma FloatOfNat(n: nat)
    ensures DecimalFloat(NatToString(n)) == Some(Decimal(n, 0, 0))
  {
    var t := NatToString(n);
    assert '.' !in t by {
      forall k | 0 <= k < |t| ensures t[k] != '.' {
        assert '0' <= t[k] <= '9';
      }
    }
  }

  lemma DigitsNoDot(x: string)
    requires AllDigits(x)
    ensures '.' !in x
  {
    forall k | 0 <= k < |x| ensures x[k] != '.' {
    }
  }

  /** A run with one `.` reads as its integer part plus its fraction. */
  lemma FloatAt(t: string, i: nat)
    requires i < |t| && t[i] == '.'
    requires AllDigits(t[..i]) && AllDigits(t[i + 1..]) && |t| > 1
    ensures AllNumChars(t)
    ensures DecimalFloat(t) == Some(Decimal(DigitsValue(t[..i]), DigitsValue(t[i + 1..]), |t| - i - 1))
  {
    forall k | 0 <= k < |t| ensures IsNumChar(t[k]) {
      if k < i {
        assert t[..i][k] == t[k];
      } else if k > i {
        assert t[i + 1..][k - i - 1] == t[k];
      }
    }
    DigitsNoDot(t[..i]);
    DigitsNoDot(t[i + 1..]);
    IndexOfAt(t, '.', i);
    var ip, fp := t[..i], t[i + 1..];
    assert |fp| == |t| - i - 1;
    assert '.' !in fp && |ip| + |fp| > 0;
  }

  lemma IndexOfAt(t: string, c: char, i: nat)
    requires i < |t| && t[i] == c && c !in t[..i]
    ensures c in t && IndexOf(t, c) == i
  {
    var r := IndexOf(t, c);
    forall j | 0 <= j < i ensures t[j] != c {
      assert t[..i][j] == t[j];
    }
    forall j | 0 <= j < r ensures t[j] != c {
      assert t[..r][j] == t[j];
    }
  }

  /** `float(f"{n}.{frac}")` is `n` plus `frac` read as a decimal fraction. */
  lemma FloatOfDecimal(n: nat, frac: string)
    requires IsDigitStr(frac)
    ensures AllNumChars(NatToString(n) + "." + frac)
    ensures DecimalFloat(NatToString(n) + "." + frac) == Some(Decimal(n, DigitsValue(frac), |frac|))
  {
    var ip := NatToString(n);
    var t := ip + "." + frac;
    assert t[|ip|] == '.';
    assert t[..|ip|] == ip;
    assert t[|ip| + 1..] == frac;
    FloatAt(t, |ip|);
  }
}
