/** The `#define` patches of the older ChampSim runner
    (testsOldChampSim/champsim.py, `modify_hawkeye_algorithm` and
    `modify_mockingjay`): two `re.sub` calls that rewrite the LLC geometry
    lines of a policy's source file.

    A pattern is a sequence of tokens: a literal character, or a run of
    whitespace (`\s`) or decimal digits (`\d`) with a minimum length of 0
    (`*`) or 1 (`+`).  Matching takes each run greedily and never gives
    characters back.  For the four patterns used here that is what Python's
    backtracking matcher finds too, because every run is followed by a
    character outside its class or ends the pattern. */
module DefinePatch {
  import opened Wrappers
  import opened PyStr

  datatype Class = Space | Digit

  datatype Tok = Lit(c: char) | Run(cl: Class, least: nat)

  type Pattern = seq<Tok>

  predicate InClass(c: char, cl: Class)
  {
    match cl
    case Space => IsSpace(c)
    case Digit => '0' <= c <= '9'
  }

  /** The literal tokens spelling `w`. */
  function Lits(w: string): (r: Pattern)
    ensures |r| == |w| && forall i :: 0 <= i < |w| ==> r[i] == Lit(w[i])
  {
    seq(|w|, i requires 0 <= i < |w| => Lit(w[i]))
  }

  /** No token of the pattern can consume a `#`. */
  predicate NoHash(p: Pattern)
  {
    forall i :: 0 <= i < |p| ==> p[i] != Lit('#')
  }

  /** The pattern ends with `\d+`. */
  predicate EndsWithDigits(p: Pattern)
  {
    |p| > 0 && p[|p| - 1] == Run(Digit, 1)
  }

  /** The end of the longest run of `cl` characters starting at `i`. */
  function RunEnd(s: string, i: nat, cl: Class): (r: nat)
    requires i <= |s|
    ensures i <= r <= |s|
    ensures forall k :: i <= k < r ==> InClass(s[k], cl)
    ensures r == |s| || !InClass(s[r], cl)
    decreases |s| - i
  {
    if i < |s| && InClass(s[i], cl) then RunEnd(s, i + 1, cl) else i
  }

  /** Where a match of `p` that starts at `i` ends, or `None`. */
  function MatchFrom(s: string, i: nat, p: Pattern): (r: Option<nat>)
    requires i <= |s|
    ensures r.Some? ==> i <= r.value <= |s|
    ensures r.Some? && |p| > 0 && p[0].Lit? ==> r.value > i
    ensures r.Some? && NoHash(p) ==> forall k :: i <= k < r.value ==> s[k] != '#'
    ensures r.Some? && EndsWithDigits(p) ==> r.value > i && (r.value == |s| || !InClass(s[r.value], Digit))
    decreases |p|
  {
    if |p| == 0 then Some(i)
    else
      var rest := p[1..];
      assert EndsWithDigits(p) && |p| > 1 ==> EndsWithDigits(rest);
      match p[0]
      case Lit(c) =>
        if i < |s| && s[i] == c then MatchFrom(s, i + 1, rest) else None
      case Run(cl, least) =>
        var j := RunEnd(s, i, cl);
        if j - i < least then None else MatchFrom(s, j, rest)
  }

  /** `re.sub(p, rep, s)`: scan left to right, replace each match and
      resume after it. */
  function Sub(s: string, p: Pattern, rep: string): (r: string)
    requires |p| > 0 && p[0] == Lit('#')
    ensures |s| > 0 && |rep| > 0 && rep[0] == '#' ==> |r| > 0 && (r[0] == s[0] || (r[0] == '#' && s[0] == '#'))
    decreases |s|
  {
    if |s| == 0 then []
    else
      match MatchFrom(s, 0, p)
      case Some(e) => rep + Sub(s[e..], p, rep)
      case None => [s[0]] + Sub(s[1..], p, rep)
  }

  /** The replacement text is a complete match of a pattern that starts
      with `#`, never crosses another `#` and ends with `\d+`. */
  predicate Rule(p: Pattern, rep: string)
  {
    |p| > 1 && p[0] == Lit('#') && NoHash(p[1..]) && EndsWithDigits(p) && MatchFrom(rep, 0, p) == Some(|rep|)
  }

  /** The first `#` at or after `i`, or the end of `s`. */
  function NextHash(s: string, i: nat): (r: nat)
    requires i <= |s|
    ensures i <= r <= |s| && (r == |s| || s[r] == '#')
    ensures forall k :: i <= k < r ==> s[k] != '#'
    decreases |s| - i
  {
    if i == |s| || s[i] == '#' then i else NextHash(s, i + 1)
  }

  lemma RunCut(s: string, t: string, i: nat, k: nat, cl: Class)
    requires i <= k <= |s| && k <= |t| && s[..k] == t[..k]
    requires (k == |s| || s[k] == '#') && (k == |t| || t[k] == '#')
    ensures RunEnd(s, i, cl) == RunEnd(t, i, cl) <= k
    decreases k - i
  {
    if i < k {
      assert s[i] == s[..k][i] == t[..k][i] == t[i];
      RunCut(s, t, i + 1, k, cl);
    }
  }

  /** A match that cannot cross a `#` reads nothing past the next `#`: two
      texts that agree up to it give the same answer. */
  lemma {:induction false} MatchCut(s: string, t: string, i: nat, k: nat, p: Pattern)
    requires NoHash(p)
    requires i <= k <= |s| && k <= |t| && s[..k] == t[..k]
    requires (k == |s| || s[k] == '#') && (k == |t| || t[k] == '#')
    ensures MatchFrom(s, i, p) == MatchFrom(t, i, p)
    decreases |p|
  {
    if |p| > 0 {
      var rest := p[1..];
      assert NoHash(rest) by {
        forall j | 0 <= j < |rest| ensures rest[j] != Lit('#') {
          assert rest[j] == p[j + 1];
        }
      }
      match p[0]
      case Lit(c) =>
        assert c != '#' by {
          assert p[0] != Lit('#');
        }
        if i < k {
          assert s[i] == s[..k][i] == t[..k][i] == t[i];
          MatchCut(s, t, i + 1, k, rest);
        }
      case Run(cl, least) =>
        RunCut(s, t, i, k, cl);
        MatchCut(s, t, RunEnd(s, i, cl), k, rest);
    }
  }

  /** A run whose characters and stopping character are known ends where
      they say. */
  lemma RunSame(t: string, i: nat, j: nat, cl: Class)
    requires i <= j <= |t|
    requires forall k :: i <= k < j ==> InClass(t[k], cl)
    requires j == |t| || !InClass(t[j], cl)
    ensures RunEnd(t, i, cl) == j
    decreases j - i
  {
    if i < j {
      RunSame(t, i + 1, j, cl);
    }
  }

  /** A match ending in `\d+` survives any change after its end that keeps
      a non-digit (or nothing) right after it. */
  lemma {:induction false} MatchExtend(s: string, t: string, i: nat, p: Pattern, e: nat)
    requires i <= |s| && EndsWithDigits(p) && MatchFrom(s, i, p) == Some(e)
    requires e <= |t| && s[..e] == t[..e]
    requires e == |t| || !InClass(t[e], Digit)
    ensures MatchFrom(t, i, p) == Some(e)
    decreases |p|
  {
    var rest := p[1..];
    if |p| > 1 {
      assert EndsWithDigits(rest);
    }
    match p[0]
    case Lit(c) =>
      assert |p| > 1;
      assert s[i] == s[..e][i] == t[..e][i] == t[i];
      MatchExtend(s, t, i + 1, rest, e);
    case Run(cl, least) =>
      var j := RunEnd(s, i, cl);
      assert forall k :: i <= k < j ==> InClass(t[k], cl) by {
        forall k | i <= k < j ensures InClass(t[k], cl) {
          assert s[k] == s[..e][k] == t[..e][k] == t[k];
        }
      }
      if |p| == 1 {
        RunSame(t, i, j, cl);
      } else {
        assert j < e;
        assert s[j] == s[..e][j] == t[..e][j] == t[j];
        RunSame(t, i, j, cl);
        MatchExtend(s, t, j, rest, e);
      }
  }

  /** Matching a concatenated pattern is matching the first part, then the
      second from where the first stopped. */
  lemma {:induction false} MatchConcat(s: string, i: nat, a: Pattern, b: Pattern)
    requires i <= |s|
    ensures MatchFrom(s, i, a + b) == match MatchFrom(s, i, a) { case None => None case Some(j) => MatchFrom(s, j, b) }
    decreases |a|
  {
    if |a| > 0 {
      assert (a + b)[0] == a[0] && (a + b)[1..] == a[1..] + b;
      match a[0]
      case Lit(c) =>
        if i < |s| && s[i] == c {
          MatchConcat(s, i + 1, a[1..], b);
        }
      case Run(cl, least) =>
        MatchConcat(s, RunEnd(s, i, cl), a[1..], b);
    } else {
      assert a + b == b;
    }
  }

  /** A literal present in the text is stepped over. */
  lemma {:induction false} StepLits(s: string, i: nat, w: string, q: Pattern)
    requires i + |w| <= |s| && s[i..i + |w|] == w
    ensures MatchFrom(s, i, Lits(w) + q) == MatchFrom(s, i + |w|, q)
    decreases |w|
  {
    if |w| == 0 {
      assert Lits(w) + q == q;
    } else {
      LitsHead(w, q);
      WordHead(s, i, w);
      StepLit(s, i, Lits(w) + q);
      StepLits(s, i + 1, w[1..], q);
    }
  }

  /** A literal at the head of the pattern consumes the matching character. */
  lemma StepLit(s: string, i: nat, p: Pattern)
    requires |p| > 0 && p[0].Lit? && i < |s| && s[i] == p[0].c
    ensures MatchFrom(s, i, p) == MatchFrom(s, i + 1, p[1..])
  {
  }

  lemma LitsHead(w: string, q: Pattern)
    requires |w| > 0
    ensures (Lits(w) + q)[0] == Lit(w[0]) && (Lits(w) + q)[1..] == Lits(w[1..]) + q
  {
    assert (Lits(w) + q)[1..] == Lits(w)[1..] + q;
  }

  lemma WordHead(s: string, i: nat, w: string)
    requires |w| > 0 && i + |w| <= |s| && s[i..i + |w|] == w
    ensures s[i] == w[0] && s[i + 1..i + 1 + |w[1..]|] == w[1..]
  {
    assert s[i] == s[i..i + |w|][0];
  }

  /** A run of known length, stopped by a character outside its class, is
      stepped over. */
  lemma StepRun(s: string, i: nat, n: nat, cl: Class, least: nat, q: Pattern)
    requires i + n <= |s| && n >= least
    requires forall k :: i <= k < i + n ==> InClass(s[k], cl)
    requires i + n == |s| || !InClass(s[i + n], cl)
    ensures MatchFrom(s, i, [Run(cl, least)] + q) == MatchFrom(s, i + n, q)
  {
    RunSame(s, i, i + n, cl);
    assert ([Run(cl, least)] + q)[1..] == q;
  }

  /** A literal that differs from the text at its first character fails. */
  lemma LitMismatch(s: string, i: nat, c: char, q: Pattern)
    requires i < |s| && s[i] != c
    ensures MatchFrom(s, i, [Lit(c)] + q) == None
  {
  }

  /** Text without `#` is copied through untouched. */
  lemma {:induction false} SubPrefix(u: string, v: string, p: Pattern, rep: string)
    requires |p| > 0 && p[0] == Lit('#')
    requires forall k :: 0 <= k < |u| ==> u[k] != '#'
    ensures Sub(u + v, p, rep) == u + Sub(v, p, rep)
    decreases |u|
  {
    if |u| > 0 {
      var s := u + v;
      assert MatchFrom(s, 0, p) == None by {
        assert s[0] == u[0] != '#';
      }
      SubCopies(s, p, rep);
      ConsSplit(u, v);
      SubPrefix(u[1..], v, p, rep);
    } else {
      assert u + v == v;
    }
  }

  /** Where no match starts, the first character is copied. */
  lemma SubCopies(s: string, p: Pattern, rep: string)
    requires |s| > 0 && |p| > 0 && p[0] == Lit('#') && MatchFrom(s, 0, p) == None
    ensures Sub(s, p, rep) == [s[0]] + Sub(s[1..], p, rep)
  {
  }

  lemma ConsSplit(u: string, v: string)
    requires |u| > 0
    ensures (u + v)[0] == u[0] && (u + v)[1..] == u[1..] + v
    ensures forall w: string :: u + w == [u[0]] + (u[1..] + w)
  {
    forall w: string ensures u + w == [u[0]] + (u[1..] + w) {
      assert u == [u[0]] + u[1..];
    }
  }

  /** No match of `p` starts at 0, and none can after `sub` rewrote the text
      past the first `#`-free stretch: the first character stays copied. */
  lemma NoMatchKept(x: string, p: Pattern, sub: Pattern, subRep: string)
    requires |x| > 0 && |p| > 0 && p[0] == Lit('#') && NoHash(p[1..])
    requires |sub| > 0 && sub[0] == Lit('#') && |subRep| > 0 && subRep[0] == '#'
    requires MatchFrom(x, 0, p) == None
    ensures MatchFrom([x[0]] + Sub(x[1..], sub, subRep), 0, p) == None
  {
    var y := [x[0]] + Sub(x[1..], sub, subRep);
    if x[0] == '#' {
      var k := NextHash(x, 1);
      SubKeepsStretch(x, k, sub, subRep);
      MatchCut(x, y, 1, k, p[1..]);
      AfterHash(x, p);
      AfterHash(y, p);
    }
  }

  /** On a text starting with `#`, a pattern starting with `#` goes on from 1. */
  lemma AfterHash(s: string, p: Pattern)
    requires |s| > 0 && s[0] == '#' && |p| > 0 && p[0] == Lit('#')
    ensures MatchFrom(s, 0, p) == MatchFrom(s, 1, p[1..])
  {
  }

  /** Rewriting all but the first character keeps the stretch up to the
      next `#`, and a `#` (or the end) right after it. */
  lemma SubKeepsStretch(x: string, k: nat, sub: Pattern, subRep: string)
    requires |x| > 0 && 1 <= k <= |x| && k == NextHash(x, 1)
    requires |sub| > 0 && sub[0] == Lit('#') && |subRep| > 0 && subRep[0] == '#'
    ensures var y := [x[0]] + Sub(x[1..], sub, subRep);
      k <= |y| && y[..k] == x[..k] && (k == |y| || y[k] == '#')
  {
    var u := x[1..k];
    var v := x[k..];
    assert x[1..] == u + v;
    assert forall j :: 0 <= j < |u| ==> u[j] != '#' by {
      forall j | 0 <= j < |u| ensures u[j] != '#' {
        assert u[j] == x[j + 1];
      }
    }
    SubPrefix(u, v, sub, subRep);
    var w := Sub(v, sub, subRep);
    assert |w| == 0 || w[0] == '#' by {
      if |v| > 0 {
        assert v[0] == '#';
      }
    }
    HeadSplit(x, k);
    StretchShape(x, [x[0]] + u, w, k);
  }

  lemma HeadSplit(x: string, k: nat)
    requires 1 <= k <= |x|
    ensures x[..k] == [x[0]] + x[1..k]
  {
    assert x[..k][1..] == x[1..k];
  }

  lemma StretchShape(x: string, head: string, w: string, k: nat)
    requires k <= |x| && |head| == k && x[..k] == head
    requires |w| == 0 || w[0] == '#'
    ensures var y := head + w;
      k <= |y| && y[..k] == x[..k] && (k == |y| || y[k] == '#')
  {
    var y := head + w;
    assert y[..k] == head;
  }

  /** One later substitution with the same pattern overrides an earlier
      one: `re.sub(p, r2, re.sub(p, r1, x)) == re.sub(p, r2, x)`. */
  lemma {:induction false} SubOverride(x: string, p: Pattern, r1: string, r2: string)
    requires Rule(p, r1)
    ensures Sub(Sub(x, p, r1), p, r2) == Sub(x, p, r2)
    decreases |x|
  {
    if |x| > 0 {
      match MatchFrom(x, 0, p)
      case Some(e) =>
        RuleHead(p, r1);
        var rest := Sub(x[e..], p, r1);
        SubOverride(x[e..], p, r1, r2);
        RuleLeads(p, r1, x[e..], rest);
        assert (r1 + rest)[|r1|..] == rest;
      case None =>
        RuleHead(p, r1);
        NoMatchKept(x, p, p, r1);
        SubOverride(x[1..], p, r1, r2);
        assert ([x[0]] + Sub(x[1..], p, r1))[1..] == Sub(x[1..], p, r1);
    }
  }

  /** A replacement starts with its `#`, the only one in it. */
  lemma RuleHead(p: Pattern, rep: string)
    requires Rule(p, rep)
    ensures |rep| > 0 && rep[0] == '#'
    ensures forall k :: 1 <= k < |rep| ==> rep[k] != '#'
  {
    assert p == [Lit('#')] + p[1..];
    MatchConcat(rep, 0, [Lit('#')], p[1..]);
  }

  /** Written replacement text followed by what the scan produced next is
      matched again as a whole. */
  lemma RuleLeads(p: Pattern, rep: string, y: string, rest: string)
    requires Rule(p, rep)
    requires |y| > 0 ==> |rest| > 0 && (rest[0] == y[0] || rest[0] == '#')
    requires |y| == 0 ==> rest == []
    requires |y| > 0 ==> y[0] == '#' || !InClass(y[0], Digit)
    ensures MatchFrom(rep + rest, 0, p) == Some(|rep|)
  {
    var t := rep + rest;
    assert rep[..|rep|] == t[..|rep|];
    if |y| > 0 {
      assert t[|rep|] == rest[0];
    }
    MatchExtend(rep, t, 0, p, |rep|);
  }

  /** The scan after a match leaves a non-digit next: `\d+` was greedy. */
  lemma AfterMatch(x: string, p: Pattern, e: nat)
    requires |p| > 0 && p[0] == Lit('#') && EndsWithDigits(p)
    requires MatchFrom(x, 0, p) == Some(e)
    ensures |x[e..]| > 0 ==> x[e..][0] == '#' || !InClass(x[e..][0], Digit)
  {
  }

  /** A match that ends before the text does reads nothing past its end
      character: any text agreeing through that character matches the same. */
  lemma {:induction false} MatchStable(s: string, t: string, i: nat, p: Pattern, e: nat)
    requires i <= |s| && MatchFrom(s, i, p) == Some(e)
    requires e < |s| && e < |t| && s[..e + 1] == t[..e + 1]
    ensures MatchFrom(t, i, p) == Some(e)
    decreases |p|
  {
    if |p| > 0 {
      var rest := p[1..];
      match p[0]
      case Lit(c) =>
        assert s[i] == s[..e + 1][i] == t[..e + 1][i] == t[i];
        MatchStable(s, t, i + 1, rest, e);
      case Run(cl, least) =>
        var j := RunEnd(s, i, cl);
        assert forall k :: i <= k <= j ==> s[k] == t[k] by {
          forall k | i <= k <= j ensures s[k] == t[k] {
            assert s[k] == s[..e + 1][k] == t[..e + 1][k] == t[k];
          }
        }
        RunSame(t, i, j, cl);
        MatchStable(s, t, j, rest, e);
    }
  }

  /** Two patterns that agree on a prefix and then ask for different
      literal characters. */
  predicate Diverge(p1: Pattern, p2: Pattern)
  {
    exists n :: 0 <= n < |p1| && n < |p2| && p1[..n] == p2[..n] && p1[n].Lit? && p2[n].Lit? && p1[n] != p2[n]
  }

  lemma SplitAt<T>(x: seq<T>, n: nat)
    requires n <= |x|
    ensures x == x[..n] + x[n..]
  {
  }

  lemma PrefixOfConcat<T>(x: seq<T>, y: seq<T>, k: nat)
    requires k <= |x|
    ensures (x + y)[..k] == x[..k]
  {
  }

  /** Diverging patterns never both match at the same place. */
  lemma Exclusive(z: string, i: nat, p1: Pattern, p2: Pattern)
    requires i <= |z| && Diverge(p1, p2)
    ensures MatchFrom(z, i, p1).None? || MatchFrom(z, i, p2).None?
  {
    var n :| 0 <= n < |p1| && n < |p2| && p1[..n] == p2[..n] && p1[n].Lit? && p2[n].Lit? && p1[n] != p2[n];
    var c, a, b := p1[..n], p1[n..], p2[n..];
    SplitAt(p1, n);
    SplitAt(p2, n);
    MatchConcat(z, i, c, a);
    MatchConcat(z, i, c, b);
    if MatchFrom(z, i, c).Some? {
      DistinctHeads(z, MatchFrom(z, i, c).value, a, b);
    }
  }

  /** Patterns opening with different literals never both match at the
      same place. */
  lemma DistinctHeads(z: string, j: nat, a: Pattern, b: Pattern)
    requires j <= |z| && |a| > 0 && |b| > 0 && a[0].Lit? && b[0].Lit? && a[0] != b[0]
    ensures MatchFrom(z, j, a).None? || MatchFrom(z, j, b).None?
  {
  }

  /** The replacement of one rule never starts a match of a diverging
      pattern, whatever follows it. */
  lemma NeverStarts(p: Pattern, rep: string, q: Pattern, t: string)
    requires Rule(p, rep) && Diverge(p, q)
    ensures MatchFrom(rep + t, 0, q) == None
  {
    var n :| 0 <= n < |p| && n < |q| && p[..n] == q[..n] && p[n].Lit? && q[n].Lit? && p[n] != q[n];
    var c := p[..n];
    SplitAt(p, n);
    SplitAt(q, n);
    MatchConcat(rep, 0, c, p[n..]);
    var j := MatchFrom(rep, 0, c).value;
    assert p[n..][0] == p[n];
    assert j < |rep| && rep[j] == p[n].c;
    var s := rep + t;
    PrefixOfConcat(rep, t, j + 1);
    MatchStable(rep, s, 0, c, j);
    MatchConcat(s, 0, c, q[n..]);
    assert q[n..][0] == q[n] && s[j] == rep[j];
  }

  /** Both substitutions at once, `p1` tried first: the reference for two
      substitutions applied one after the other. */
  function Both(s: string, p1: Pattern, r1: string, p2: Pattern, r2: string): string
    requires |p1| > 0 && p1[0] == Lit('#') && |p2| > 0 && p2[0] == Lit('#')
    decreases |s|
  {
    if |s| == 0 then []
    else
      match MatchFrom(s, 0, p1)
      case Some(e) => r1 + Both(s[e..], p1, r1, p2, r2)
      case None =>
        match MatchFrom(s, 0, p2)
        case Some(e) => r2 + Both(s[e..], p1, r1, p2, r2)
        case None => [s[0]] + Both(s[1..], p1, r1, p2, r2)
  }

  /** With diverging patterns the order of preference is irrelevant. */
  lemma {:induction false} BothSymmetric(s: string, p1: Pattern, r1: string, p2: Pattern, r2: string)
    requires |p1| > 0 && p1[0] == Lit('#') && |p2| > 0 && p2[0] == Lit('#') && Diverge(p1, p2)
    ensures Both(s, p1, r1, p2, r2) == Both(s, p2, r2, p1, r1)
    decreases |s|
  {
    if |s| > 0 {
      Exclusive(s, 0, p1, p2);
      match MatchFrom(s, 0, p1)
      case Some(e) => BothSymmetric(s[e..], p1, r1, p2, r2);
      case None =>
        match MatchFrom(s, 0, p2)
        case Some(e) => BothSymmetric(s[e..], p1, r1, p2, r2);
        case None => BothSymmetric(s[1..], p1, r1, p2, r2);
    }
  }

  /** Substituting with `pi` and then with `po` replaces every match of
      either pattern in the original text. */
  lemma {:induction false} SubThenSub(x: string, pi: Pattern, ri: string, po: Pattern, ro: string)
    requires Rule(pi, ri) && Rule(po, ro) && Diverge(pi, po)
    ensures Sub(Sub(x, pi, ri), po, ro) == Both(x, pi, ri, po, ro)
    decreases |x|
  {
    if |x| > 0 {
      RuleHead(pi, ri);
      match MatchFrom(x, 0, pi)
      case Some(e) =>
        var rest := Sub(x[e..], pi, ri);
        SubThenSub(x[e..], pi, ri, po, ro);
        NeverStarts(pi, ri, po, rest);
        SkipReplacement(ri, rest, po, ro);
      case None =>
        Exclusive(x, 0, pi, po);
        match MatchFrom(x, 0, po)
        case Some(e) =>
          SubThenSub(x[e..], pi, ri, po, ro);
          OtherMatchKept(x, e, pi, ri, po);
          var y := x[..e] + Sub(x[e..], pi, ri);
          assert y[e..] == Sub(x[e..], pi, ri);
        case None =>
          SubThenSub(x[1..], pi, ri, po, ro);
          NoMatchKept(x, po, pi, ri);
          var y := [x[0]] + Sub(x[1..], pi, ri);
          assert y[1..] == Sub(x[1..], pi, ri);
    }
  }

  /** A replacement that no match of `po` starts at is copied by the
      second substitution. */
  lemma SkipReplacement(ri: string, rest: string, po: Pattern, ro: string)
    requires |ri| > 0 && ri[0] == '#' && forall k :: 1 <= k < |ri| ==> ri[k] != '#'
    requires |po| > 0 && po[0] == Lit('#')
    requires MatchFrom(ri + rest, 0, po) == None
    ensures Sub(ri + rest, po, ro) == ri + Sub(rest, po, ro)
  {
    var s := ri + rest;
    assert s[1..] == ri[1..] + rest;
    assert forall k :: 0 <= k < |ri[1..]| ==> ri[1..][k] != '#' by {
      forall k | 0 <= k < |ri[1..]| ensures ri[1..][k] != '#' {
        assert ri[1..][k] == ri[k + 1];
      }
    }
    SubPrefix(ri[1..], rest, po, ro);
    assert [ri[0]] + ri[1..] == ri;
  }

  /** Where `po` matches and `pi` does not, the first substitution keeps
      the matched text and the match survives it. */
  lemma OtherMatchKept(x: string, e: nat, pi: Pattern, ri: string, po: Pattern)
    requires Rule(pi, ri)
    requires |po| > 1 && po[0] == Lit('#') && NoHash(po[1..]) && EndsWithDigits(po)
    requires MatchFrom(x, 0, pi) == None && MatchFrom(x, 0, po) == Some(e)
    ensures Sub(x, pi, ri) == x[..e] + Sub(x[e..], pi, ri)
    ensures MatchFrom(x[..e] + Sub(x[e..], pi, ri), 0, po) == Some(e)
  {
    OtherSubSplit(x, e, pi, ri, po);
    var w := Sub(x[e..], pi, ri);
    var y := x[..e] + w;
    assert y[..e] == x[..e];
    if |x[e..]| > 0 {
      assert y[e] == w[0];
      assert x[e..][0] == x[e];
    }
    MatchExtend(x, y, 0, po, e);
  }

  /** The first substitution passes over the text `po` matched. */
  lemma OtherSubSplit(x: string, e: nat, pi: Pattern, ri: string, po: Pattern)
    requires Rule(pi, ri)
    requires |po| > 1 && po[0] == Lit('#') && NoHash(po[1..]) && EndsWithDigits(po)
    requires MatchFrom(x, 0, pi) == None && MatchFrom(x, 0, po) == Some(e)
    ensures e <= |x| && Sub(x, pi, ri) == x[..e] + Sub(x[e..], pi, ri)
  {
    AfterHash(x, po);
    HashFreeAfter(x, e, po[1..]);
    SubPassOver(x, e, pi, ri);
  }

  /** A `#` the pattern does not take, followed by `#`-free text, is copied
      through together with that text. */
  lemma SubPassOver(x: string, e: nat, pi: Pattern, ri: string)
    requires |pi| > 0 && pi[0] == Lit('#') && 1 <= e <= |x| && MatchFrom(x, 0, pi) == None
    requires forall k :: 0 <= k < |x[1..e]| ==> x[1..e][k] != '#'
    ensures Sub(x, pi, ri) == x[..e] + Sub(x[e..], pi, ri)
  {
    SubSkip(x, pi, ri);
    SubAfterHead(x, e, pi, ri);
    ConsJoin(x, e, Sub(x[e..], pi, ri));
  }

  lemma SubAfterHead(x: string, e: nat, pi: Pattern, ri: string)
    requires |pi| > 0 && pi[0] == Lit('#') && 1 <= e <= |x|
    requires forall k :: 0 <= k < |x[1..e]| ==> x[1..e][k] != '#'
    ensures Sub(x[1..], pi, ri) == x[1..e] + Sub(x[e..], pi, ri)
  {
    assert x[1..] == x[1..e] + x[e..] by {
      SplitAt(x[1..], e - 1);
      assert x[1..][..e - 1] == x[1..e] && x[1..][e - 1..] == x[e..];
    }
    SubPrefix(x[1..e], x[e..], pi, ri);
  }

  lemma ConsJoin(x: string, e: nat, w: string)
    requires 1 <= e <= |x|
    ensures [x[0]] + (x[1..e] + w) == x[..e] + w
  {
    HeadSplit(x, e);
  }

  lemma SubSkip(x: string, pi: Pattern, ri: string)
    requires |pi| > 0 && pi[0] == Lit('#') && |x| > 0 && MatchFrom(x, 0, pi) == None
    ensures Sub(x, pi, ri) == [x[0]] + Sub(x[1..], pi, ri)
  {
  }

  /** What a `#`-free pattern matched after the leading `#` holds no `#`. */
  lemma HashFreeAfter(x: string, e: nat, q: Pattern)
    requires 1 <= |x| && NoHash(q) && MatchFrom(x, 1, q) == Some(e)
    ensures 1 <= e <= |x| && forall k :: 0 <= k < |x[1..e]| ==> x[1..e][k] != '#'
  {
  }

  /** Two substitutions with diverging patterns commute. */
  lemma SubCommute(x: string, p1: Pattern, r1: string, p2: Pattern, r2: string)
    requires Rule(p1, r1) && Rule(p2, r2) && Diverge(p1, p2)
    ensures Sub(Sub(x, p1, r1), p2, r2) == Sub(Sub(x, p2, r2), p1, r1)
  {
    var n :| 0 <= n < |p1| && n < |p2| && p1[..n] == p2[..n] && p1[n].Lit? && p2[n].Lit? && p1[n] != p2[n];
    assert Diverge(p2, p1);
    SubThenSub(x, p1, r1, p2, r2);
    SubThenSub(x, p2, r2, p1, r1);
    BothSymmetric(x, p1, r1, p2, r2);
  }

  /** `#define\s+LLC_` (after `#`), the part all four patterns share. */
  const DefineHead: Pattern := Lits("define") + [Run(Space, 1)] + Lits("LLC_")

  /** `#define\s+LLC_SETS\s+NUM_CORE\s*\*\s*\d+` (hawkeye). */
  const HawkeyeSetsPattern: Pattern :=
    [Lit('#')] + (DefineHead + HawkeyeSetsTail())

  /** `#define\s+LLC_WAYS\s*\d+` (hawkeye). */
  const HawkeyeWaysPattern: Pattern :=
    [Lit('#')] + (DefineHead + (Lits("WAYS") + [Run(Space, 0), Run(Digit, 1)]))

  /** `#define\s+LLC_SET\s+\d+` (mockingjay). */
  const MockingjaySetPattern: Pattern :=
    [Lit('#')] + (DefineHead + (Lits("SET") + [Run(Space, 1), Run(Digit, 1)]))

  /** `#define\s+LLC_WAY\s+\d+` (mockingjay). */
  const MockingjayWayPattern: Pattern :=
    [Lit('#')] + (DefineHead + (Lits("WAY") + [Run(Space, 1), Run(Digit, 1)]))

  function HawkeyeSetsLine(sets: nat): string
  {
    "#define LLC_SETS NUM_CORE*" + NatToString(sets)
  }

  function HawkeyeWaysLine(ways: nat): string
  {
    "#define LLC_WAYS " + NatToString(ways)
  }

  function MockingjaySetLine(sets: nat): string
  {
    "#define LLC_SET " + NatToString(sets)
  }

  function MockingjayWayLine(ways: nat): string
  {
    "#define LLC_WAY " + NatToString(ways)
  }

  lemma NoHashLits(w: string)
    requires '#' !in w
    ensures NoHash(Lits(w))
  {
  }

  lemma NoHashConcat(a: Pattern, b: Pattern)
    ensures NoHash(a + b) <==> NoHash(a) && NoHash(b)
  {
    if NoHash(a) && NoHash(b) {
      forall i | 0 <= i < |a + b| ensures (a + b)[i] != Lit('#') {
        if i >= |a| {
          assert (a + b)[i] == b[i - |a|];
        }
      }
    }
    if NoHash(a + b) {
      forall i | 0 <= i < |b| ensures b[i] != Lit('#') {
        assert (a + b)[i + |a|] == b[i];
      }
      forall i | 0 <= i < |a| ensures a[i] != Lit('#') {
        assert (a + b)[i] == a[i];
      }
    }
  }

  /** No token of the shared head can consume `#`. */
  lemma DefineHeadNoHash()
    ensures NoHash(DefineHead)
  {
    NoHashLits("define");
    NoHashLits("LLC_");
    NoHashConcat(Lits("define"), [Run(Space, 1)]);
    NoHashConcat(Lits("define") + [Run(Space, 1)], Lits("LLC_"));
  }

  /** A line starting `#define LLC_` passes the shared head. */
  lemma DefineHeadMatch(s: string)
    requires |s| >= 12 && s[..12] == "#define LLC_"
    ensures MatchFrom(s, 1, DefineHead) == Some(12)
  {
    var last := Lits("LLC_");
    assert DefineHead == Lits("define") + ([Run(Space, 1)] + last);
    DefineWord(s);
    StepLits(s, 1, "define", [Run(Space, 1)] + last);
    DefineGap(s);
    StepRun(s, 7, 1, Space, 1, last);
    assert last + [] == last;
    StepLits(s, 8, "LLC_", []);
  }

  lemma DefineWord(s: string)
    requires |s| >= 12 && s[..12] == "#define LLC_"
    ensures s[1..7] == "define"
  {
    var p := "#define LLC_";
    assert s[1..7] == s[..12][1..7] == p[1..7];
  }

  lemma DefineGap(s: string)
    requires |s| >= 12 && s[..12] == "#define LLC_"
    ensures s[7] == ' ' && s[8] == 'L' && s[8..12] == "LLC_"
  {
    var p := "#define LLC_";
    assert s[7] == s[..12][7] == p[7];
    assert s[8] == s[..12][8] == p[8];
    assert s[8..12] == s[..12][8..12] == p[8..12];
  }

  /** `\d+` takes every digit to the end of the text. */
  lemma DigitsToEnd(s: string, i: nat)
    requires i < |s| && IsDigitStr(s[i..])
    ensures MatchFrom(s, i, [Run(Digit, 1)]) == Some(|s|)
  {
    assert forall k :: i <= k < |s| ==> InClass(s[k], Digit) by {
      forall k | i <= k < |s| ensures InClass(s[k], Digit) {
        assert s[k] == s[i..][k - i];
      }
    }
    RunSame(s, i, |s|, Digit);
  }

  /** The head and shape of a rule built on the shared head. */
  lemma RuleShape(tail: Pattern, line: string)
    requires NoHash(tail) && EndsWithDigits(tail)
    requires |line| >= 12 && line[..12] == "#define LLC_"
    requires MatchFrom(line, 12, tail) == Some(|line|)
    ensures Rule([Lit('#')] + (DefineHead + tail), line)
  {
    var p := [Lit('#')] + (DefineHead + tail);
    assert p[1..] == DefineHead + tail;
    DefineHeadNoHash();
    NoHashConcat(DefineHead, tail);
    assert p[|p| - 1] == tail[|tail| - 1];
    assert line[0] == line[..12][0] == '#';
    AfterHash(line, p);
    DefineHeadMatch(line);
    MatchConcat(line, 1, DefineHead, tail);
  }

  lemma MockingjaySetRule(sets: nat)
    ensures Rule(MockingjaySetPattern, MockingjaySetLine(sets))
  {
    var s := MockingjaySetLine(sets);
    var d := NatToString(sets);
    var tail := Lits("SET") + [Run(Space, 1), Run(Digit, 1)];
    assert s[..12] == "#define LLC_";
    assert s[12..15] == "SET" && s[15] == ' ' && s[16..] == d;
    StepLits(s, 12, "SET", [Run(Space, 1), Run(Digit, 1)]);
    assert [Run(Space, 1), Run(Digit, 1)] == [Run(Space, 1)] + [Run(Digit, 1)];
    StepRun(s, 15, 1, Space, 1, [Run(Digit, 1)]);
    DigitsToEnd(s, 16);
    NoHashLits("SET");
    NoHashConcat(Lits("SET"), [Run(Space, 1), Run(Digit, 1)]);
    RuleShape(tail, s);
  }

  lemma MockingjayWayRule(ways: nat)
    ensures Rule(MockingjayWayPattern, MockingjayWayLine(ways))
  {
    var s := MockingjayWayLine(ways);
    var tail := Lits("WAY") + [Run(Space, 1), Run(Digit, 1)];
    WayLineShape(s, NatToString(ways));
    WordLine(s, "WAY", NatToString(ways), 1);
    NoHashLits("WAY");
    NoHashConcat(Lits("WAY"), [Run(Space, 1), Run(Digit, 1)]);
    RuleShape(tail, s);
  }

  lemma HawkeyeWaysRule(ways: nat)
    ensures Rule(HawkeyeWaysPattern, HawkeyeWaysLine(ways))
  {
    var s := HawkeyeWaysLine(ways);
    var tail := Lits("WAYS") + [Run(Space, 0), Run(Digit, 1)];
    WaysLineShape(s, NatToString(ways));
    WordLine(s, "WAYS", NatToString(ways), 0);
    NoHashLits("WAYS");
    NoHashConcat(Lits("WAYS"), [Run(Space, 0), Run(Digit, 1)]);
    RuleShape(tail, s);
  }

  /** A line `#define LLC_<w> <digits>` is taken from `LLC_` to its end by
      the word, blanks and digits. */
  lemma WordLine(s: string, w: string, d: string, least: nat)
    requires IsDigitStr(d) && least <= 1
    requires |s| == 13 + |w| + |d| && s[12..12 + |w|] == w && s[12 + |w|] == ' ' && s[13 + |w|..] == d
    ensures MatchFrom(s, 12, Lits(w) + [Run(Space, least), Run(Digit, 1)]) == Some(|s|)
  {
    StepLits(s, 12, w, [Run(Space, least), Run(Digit, 1)]);
    assert [Run(Space, least), Run(Digit, 1)] == [Run(Space, least)] + [Run(Digit, 1)];
    assert s[13 + |w|] == d[0];
    StepRun(s, 12 + |w|, 1, Space, least, [Run(Digit, 1)]);
    DigitsToEnd(s, 13 + |w|);
  }

  lemma WayLineShape(s: string, d: string)
    requires s == "#define LLC_WAY " + d
    ensures |s| == 16 + |d| && s[..12] == "#define LLC_" && s[12..15] == "WAY" && s[15] == ' ' && s[16..] == d
  {
    var p := "#define LLC_WAY ";
    assert |p| == 16;
    assert s[..12] == p[..12];
    assert s[12..15] == p[12..15];
    assert s[15] == p[15];
    assert s[16..] == d;
  }

  lemma WaysLineShape(s: string, d: string)
    requires s == "#define LLC_WAYS " + d
    ensures |s| == 17 + |d| && s[..12] == "#define LLC_" && s[12..16] == "WAYS" && s[16] == ' ' && s[17..] == d
  {
    var p := "#define LLC_WAYS ";
    assert |p| == 17;
    assert s[..12] == p[..12];
    assert s[12..16] == p[12..16];
    assert s[16] == p[16];
    assert s[17..] == d;
  }

  /** The part of the hawkeye sets pattern after `LLC_`. */
  function HawkeyeSetsTail(): Pattern
  {
    Lits("SETS") + ([Run(Space, 1)] + (Lits("NUM_CORE") + ([Run(Space, 0)] + (Lits("*") + [Run(Space, 0), Run(Digit, 1)]))))
  }

  lemma HawkeyeSetsRule(sets: nat)
    ensures Rule(HawkeyeSetsPattern, HawkeyeSetsLine(sets))
  {
    var s := HawkeyeSetsLine(sets);
    assert s[..12] == "#define LLC_";
    HawkeyeSetsTailMatch(s, NatToString(sets));
    HawkeyeSetsTailNoHash();
    RuleShape(HawkeyeSetsTail(), s);
  }

  lemma HawkeyeSetsTailMatch(s: string, d: string)
    requires IsDigitStr(d) && s == "#define LLC_SETS NUM_CORE*" + d
    ensures MatchFrom(s, 12, HawkeyeSetsTail()) == Some(|s|)
  {
    SetsLineFront(s, d);
    SetsLineBack(s, d);
    HawkeyeSetsSteps(s);
  }

  lemma SetsLineFront(s: string, d: string)
    requires s == "#define LLC_SETS NUM_CORE*" + d
    ensures |s| >= 26 && s[12..16] == "SETS" && s[16] == ' '
  {
    var p := "#define LLC_SETS NUM_CORE*";
    assert |p| == 26;
    assert s[12..16] == p[12..16] == "SETS";
    assert s[16] == p[16] == ' ';
  }

  lemma SetsLineBack(s: string, d: string)
    requires s == "#define LLC_SETS NUM_CORE*" + d
    ensures |s| >= 26 && s[17..25] == "NUM_CORE" && s[25..26] == "*" && s[26..] == d
  {
    var p := "#define LLC_SETS NUM_CORE*";
    assert |p| == 26;
    assert s[26..] == d;
    assert s[17..25] == p[17..25] == "NUM_CORE";
    assert s[25..26] == p[25..26] == "*";
  }

  lemma HawkeyeSetsSteps(s: string)
    requires |s| > 26 && s[12..16] == "SETS" && s[16] == ' ' && s[17..25] == "NUM_CORE" && s[25..26] == "*" && IsDigitStr(s[26..])
    ensures MatchFrom(s, 12, HawkeyeSetsTail()) == Some(|s|)
  {
    HawkeyeSetsHead(s);
    HawkeyeSetsCount(s);
  }

  /** `SETS`, blanks and `NUM_CORE` take the text up to the `*`. */
  lemma HawkeyeSetsHead(s: string)
    requires |s| > 26 && s[12..16] == "SETS" && s[16] == ' ' && s[17..25] == "NUM_CORE"
    ensures MatchFrom(s, 12, HawkeyeSetsTail()) == MatchFrom(s, 25, [Run(Space, 0)] + (Lits("*") + [Run(Space, 0), Run(Digit, 1)]))
  {
    var t3 := Lits("*") + [Run(Space, 0), Run(Digit, 1)];
    var t2 := [Run(Space, 0)] + t3;
    var t1 := Lits("NUM_CORE") + t2;
    var t0 := [Run(Space, 1)] + t1;
    StepLits(s, 12, "SETS", t0);
    assert s[17] == s[17..25][0];
    StepRun(s, 16, 1, Space, 1, t1);
    StepLits(s, 17, "NUM_CORE", t2);
  }

  /** The `*` and the digits after it take the rest of the text. */
  lemma HawkeyeSetsCount(s: string)
    requires |s| > 26 && s[25..26] == "*" && IsDigitStr(s[26..])
    ensures MatchFrom(s, 25, [Run(Space, 0)] + (Lits("*") + [Run(Space, 0), Run(Digit, 1)])) == Some(|s|)
  {
    var t4 := [Run(Space, 0), Run(Digit, 1)];
    var t3 := Lits("*") + t4;
    assert s[25] == s[25..26][0];
    StepRun(s, 25, 0, Space, 0, t3);
    StepLits(s, 25, "*", t4);
    assert t4 == [Run(Space, 0)] + [Run(Digit, 1)];
    assert s[26] == s[26..][0];
    StepRun(s, 26, 0, Space, 0, [Run(Digit, 1)]);
    DigitsToEnd(s, 26);
  }

  lemma HawkeyeSetsTailNoHash()
    ensures NoHash(HawkeyeSetsTail()) && EndsWithDigits(HawkeyeSetsTail())
  {
    var t4 := [Run(Space, 0), Run(Digit, 1)];
    var t3 := Lits("*") + t4;
    var t2 := [Run(Space, 0)] + t3;
    var t1 := Lits("NUM_CORE") + t2;
    var t0 := [Run(Space, 1)] + t1;
    NoHashLits("*");
    NoHashLits("NUM_CORE");
    NoHashLits("SETS");
    NoHashConcat(Lits("*"), t4);
    NoHashConcat([Run(Space, 0)], t3);
    NoHashConcat(Lits("NUM_CORE"), t2);
    NoHashConcat([Run(Space, 1)], t1);
    NoHashConcat(Lits("SETS"), t0);
  }

  /** Two patterns built on the shared head diverge where their tails start
      with different letters. */
  lemma TailsDiverge(t1: Pattern, t2: Pattern)
    requires |t1| > 0 && |t2| > 0 && t1[0].Lit? && t2[0].Lit? && t1[0] != t2[0]
    ensures Diverge([Lit('#')] + (DefineHead + t1), [Lit('#')] + (DefineHead + t2))
  {
    var p1 := [Lit('#')] + (DefineHead + t1);
    var p2 := [Lit('#')] + (DefineHead + t2);
    var n := 1 + |DefineHead|;
    assert p1[..n] == [Lit('#')] + DefineHead == p2[..n];
    assert p1[n] == t1[0] && p2[n] == t2[0];
  }

  lemma HawkeyeDiverge()
    ensures Diverge(HawkeyeWaysPattern, HawkeyeSetsPattern)
  {
    TailsDiverge(Lits("WAYS") + [Run(Space, 0), Run(Digit, 1)], HawkeyeSetsTail());
  }

  lemma MockingjayDiverge()
    ensures Diverge(MockingjayWayPattern, MockingjaySetPattern)
  {
    TailsDiverge(Lits("WAY") + [Run(Space, 1), Run(Digit, 1)], Lits("SET") + [Run(Space, 1), Run(Digit, 1)]);
  }

  /** Text with no `#` passes through a substitution unchanged. */
  lemma NoDirective(c: string, p: Pattern, rep: string)
    requires |p| > 0 && p[0] == Lit('#') && '#' !in c
    ensures Sub(c, p, rep) == c
  {
    assert c + [] == c;
    SubPrefix(c, [], p, rep);
  }

  /** The sets substitution then the ways substitution, as both patch
      functions do. */
  function PatchPair(content: string, setsPat: Pattern, setsLine: string, waysPat: Pattern, waysLine: string): string
    requires |setsPat| > 0 && setsPat[0] == Lit('#') && |waysPat| > 0 && waysPat[0] == Lit('#')
  {
    Sub(Sub(content, setsPat, setsLine), waysPat, waysLine)
  }

  /** Patching again with other values gives what patching once with the
      later values gives. */
  lemma PairLastWins(c: string, ps: Pattern, pw: Pattern, s1: string, w1: string, s2: string, w2: string)
    requires Rule(ps, s1) && Rule(ps, s2) && Rule(pw, w1) && Rule(pw, w2) && Diverge(pw, ps)
    ensures PatchPair(PatchPair(c, ps, s1, pw, w1), ps, s2, pw, w2) == PatchPair(c, ps, s2, pw, w2)
  {
    var y := Sub(c, ps, s1);
    SubCommute(y, pw, w1, ps, s2);
    SubOverride(c, ps, s1, s2);
    SubOverride(Sub(c, ps, s2), pw, w1, w2);
  }

  /** A replacement followed by a non-digit is matched and replaced again. */
  lemma SubAtReplacement(p: Pattern, r1: string, t: string, r2: string)
    requires Rule(p, r1)
    requires |t| == 0 || !InClass(t[0], Digit)
    ensures Sub(r1 + t, p, r2) == r2 + Sub(t, p, r2)
  {
    var s := r1 + t;
    assert s[..|r1|] == r1[..|r1|];
    if |t| > 0 {
      assert s[|r1|] == t[0];
    }
    MatchExtend(r1, s, 0, p, |r1|);
    assert s[|r1|..] == t;
  }

  /** A file holding the two directives, each on its own line, gets both
      values rewritten. */
  lemma PairRewrites(ps: Pattern, pw: Pattern, s1: string, w1: string, s2: string, w2: string)
    requires Rule(ps, s1) && Rule(ps, s2) && Rule(pw, w1) && Rule(pw, w2) && Diverge(pw, ps)
    ensures PatchPair(s1 + "\n" + w1 + "\n", ps, s2, pw, w2) == s2 + "\n" + w2 + "\n"
  {
    assert Diverge(ps, pw) by {
      var n :| 0 <= n < |pw| && n < |ps| && pw[..n] == ps[..n] && pw[n].Lit? && ps[n].Lit? && pw[n] != ps[n];
    }
    SetsLineFirst(ps, pw, s1, w1, s2);
    WaysLineSecond(ps, pw, s2, w1, w2);
  }

  /** The first substitution rewrites the first line and passes over the
      second, which the other pattern owns. */
  lemma SetsLineFirst(ps: Pattern, pw: Pattern, s1: string, w1: string, s2: string)
    requires Rule(ps, s1) && Rule(ps, s2) && Rule(pw, w1) && Diverge(pw, ps)
    ensures Sub(s1 + "\n" + w1 + "\n", ps, s2) == s2 + "\n" + w1 + "\n"
  {
    var nl := "\n";
    Regroup(s1, nl, w1, nl);
    SubAtReplacement(ps, s1, nl + (w1 + nl), s2);
    PassesLine(pw, w1, ps, s2);
    Regroup(s2, nl, w1, nl);
  }

  /** A line the other pattern owns passes through a substitution. */
  lemma PassesLine(pw: Pattern, w: string, ps: Pattern, rep: string)
    requires Rule(pw, w) && |ps| > 0 && ps[0] == Lit('#') && Diverge(pw, ps)
    ensures Sub("\n" + (w + "\n"), ps, rep) == "\n" + (w + "\n")
  {
    var nl := "\n";
    RuleHead(pw, w);
    NoDirective(nl, ps, rep);
    NeverStarts(pw, w, ps, nl);
    SkipReplacement(w, nl, ps, rep);
    SubPrefix(nl, w + nl, ps, rep);
  }

  /** The second substitution passes over the rewritten first line and
      rewrites the second. */
  lemma WaysLineSecond(ps: Pattern, pw: Pattern, s2: string, w1: string, w2: string)
    requires Rule(ps, s2) && Rule(pw, w1) && Rule(pw, w2) && Diverge(ps, pw)
    ensures Sub(s2 + "\n" + w1 + "\n", pw, w2) == s2 + "\n" + w2 + "\n"
  {
    var nl := "\n";
    Regroup(s2, nl, w1, nl);
    RuleHead(ps, s2);
    NeverStarts(ps, s2, pw, nl + (w1 + nl));
    SkipReplacement(s2, nl + (w1 + nl), pw, w2);
    ReplacesLine(pw, w1, w2);
    Regroup(s2, nl, w2, nl);
  }

  /** A line the pattern owns, after a newline, is rewritten. */
  lemma ReplacesLine(pw: Pattern, w1: string, w2: string)
    requires Rule(pw, w1) && Rule(pw, w2)
    ensures Sub("\n" + (w1 + "\n"), pw, w2) == "\n" + (w2 + "\n")
  {
    var nl := "\n";
    NoDirective(nl, pw, w2);
    SubAtReplacement(pw, w1, nl, w2);
    SubPrefix(nl, w1 + nl, pw, w2);
  }

  lemma Regroup(a: string, b: string, c: string, d: string)
    ensures a + b + c + d == a + (b + (c + d))
  {
  }

  /** `modify_hawkeye_algorithm` on the file's text. */
  function HawkeyePatch(content: string, sets: nat, ways: nat): (r: string)
    ensures '#' !in content ==> r == content
  {
    var r := PatchPair(content, HawkeyeSetsPattern, HawkeyeSetsLine(sets), HawkeyeWaysPattern, HawkeyeWaysLine(ways));
    assert '#' !in content ==> r == content by {
      if '#' !in content {
        NoDirective(content, HawkeyeSetsPattern, HawkeyeSetsLine(sets));
        NoDirective(content, HawkeyeWaysPattern, HawkeyeWaysLine(ways));
      }
    }
    r
  }

  /** `modify_mockingjay` on the file's text. */
  function MockingjayPatch(content: string, sets: nat, ways: nat): (r: string)
    ensures '#' !in content ==> r == content
  {
    var r := PatchPair(content, MockingjaySetPattern, MockingjaySetLine(sets), MockingjayWayPattern, MockingjayWayLine(ways));
    assert '#' !in content ==> r == content by {
      if '#' !in content {
        NoDirective(content, MockingjaySetPattern, MockingjaySetLine(sets));
        NoDirective(content, MockingjayWayPattern, MockingjayWayLine(ways));
      }
    }
    r
  }

  /** Re-patching the hawkeye file for a later sweep point leaves exactly
      what patching the original file for that point would; with the same
      geometry the patch is idempotent. */
  lemma HawkeyeLastWins(c: string, sets1: nat, ways1: nat, sets2: nat, ways2: nat)
    ensures HawkeyePatch(HawkeyePatch(c, sets1, ways1), sets2, ways2) == HawkeyePatch(c, sets2, ways2)
  {
    HawkeyeSetsRule(sets1);
    HawkeyeSetsRule(sets2);
    HawkeyeWaysRule(ways1);
    HawkeyeWaysRule(ways2);
    HawkeyeDiverge();
    PairLastWins(c, HawkeyeSetsPattern, HawkeyeWaysPattern, HawkeyeSetsLine(sets1), HawkeyeWaysLine(ways1),
      HawkeyeSetsLine(sets2), HawkeyeWaysLine(ways2));
  }

  lemma MockingjayLastWins(c: string, sets1: nat, ways1: nat, sets2: nat, ways2: nat)
    ensures MockingjayPatch(MockingjayPatch(c, sets1, ways1), sets2, ways2) == MockingjayPatch(c, sets2, ways2)
  {
    MockingjaySetRule(sets1);
    MockingjaySetRule(sets2);
    MockingjayWayRule(ways1);
    MockingjayWayRule(ways2);
    MockingjayDiverge();
    PairLastWins(c, MockingjaySetPattern, MockingjayWayPattern, MockingjaySetLine(sets1), MockingjayWayLine(ways1),
      MockingjaySetLine(sets2), MockingjayWayLine(ways2));
  }

  /** The two hawkeye directives written by an earlier patch are rewritten
      to the new geometry. */
  lemma HawkeyeRewrites(sets1: nat, ways1: nat, sets2: nat, ways2: nat)
    ensures HawkeyePatch(HawkeyeSetsLine(sets1) + "\n" + HawkeyeWaysLine(ways1) + "\n", sets2, ways2)
      == HawkeyeSetsLine(sets2) + "\n" + HawkeyeWaysLine(ways2) + "\n"
  {
    HawkeyeSetsRule(sets1);
    HawkeyeSetsRule(sets2);
    HawkeyeWaysRule(ways1);
    HawkeyeWaysRule(ways2);
    HawkeyeDiverge();
    PairRewrites(HawkeyeSetsPattern, HawkeyeWaysPattern, HawkeyeSetsLine(sets1), HawkeyeWaysLine(ways1),
      HawkeyeSetsLine(sets2), HawkeyeWaysLine(ways2));
  }

  lemma MockingjayRewrites(sets1: nat, ways1: nat, sets2: nat, ways2: nat)
    ensures MockingjayPatch(MockingjaySetLine(sets1) + "\n" + MockingjayWayLine(ways1) + "\n", sets2, ways2)
      == MockingjaySetLine(sets2) + "\n" + MockingjayWayLine(ways2) + "\n"
  {
    MockingjaySetRule(sets1);
    MockingjaySetRule(sets2);
    MockingjayWayRule(ways1);
    MockingjayWayRule(ways2);
    MockingjayDiverge();
    PairRewrites(MockingjaySetPattern, MockingjayWayPattern, MockingjaySetLine(sets1), MockingjayWayLine(ways1),
      MockingjaySetLine(sets2), MockingjayWayLine(ways2));
  }
}
