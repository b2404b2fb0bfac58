/** The parts of Python's string library that the runner and result scripts
    rely on: prefix/suffix tests, the leftmost lazy regex group `A(.*?)B`,
    `str.replace`, `str.split`/`str.join`, `os.path.splitext`, `str.isdigit`,
    `int()` and decimal rendering of integers.  Strings are `seq<char>`; only
    ASCII digits and ASCII whitespace are considered. */
module PyStr {
  import opened Wrappers

  predicate StartsWith(s: string, p: string)
  {
    |p| <= |s| && s[..|p|] == p
  }

  predicate EndsWith(s: string, p: string)
  {
    |p| <= |s| && s[|s| - |p|..] == p
  }

  /** `p` occurs literally in `s` starting at index `i`. */
  predicate OccursAt(s: string, i: nat, p: string)
  {
    i + |p| <= |s| && s[i..i + |p|] == p
  }

  predicate Contains(s: string, p: string)
  {
    exists i :: 0 <= i <= |s| && OccursAt(s, i, p)
  }

  /** Regex pattern `pat`, in which `.` matches any character and every other
      character matches itself, matches `s` at index `i`. */
  predicate MatchesAt(s: string, i: nat, pat: string)
  {
    i + |pat| <= |s| &&
    forall k :: 0 <= k < |pat| ==> pat[k] == '.' || s[i + k] == pat[k]
  }

  /** Leftmost index `>= from` at which `pat` matches. */
  function FindFrom(s: string, pat: string, from: nat): (r: Option<nat>)
    ensures r.Some? ==>
      from <= r.value && MatchesAt(s, r.value, pat) &&
      forall j :: from <= j < r.value ==> !MatchesAt(s, j, pat)
    ensures r.None? ==> forall j: nat :: from <= j ==> !MatchesAt(s, j, pat)
    decreases |s| - from
  {
    if from + |pat| > |s| then None
    else if MatchesAt(s, from, pat) then Some(from)
    else FindFrom(s, pat, from + 1)
  }

  /** Group 1 of `re.search(before + "(.*?)" + after, s)`.  The leftmost
      match starts at the first occurrence of `before`, and the lazy group
      stops at the first match of `after` behind it.  `before` never
      contains `.` in the modelled scripts. */
  function LazyGroup(s: string, before: string, after: string): (r: Option<string>)
    ensures r.Some? ==>
      exists p: nat :: p + |before| + |r.value| <= |s| &&
        MatchesAt(s, p, before) &&
        s[p + |before|..p + |before| + |r.value|] == r.value &&
        MatchesAt(s, p + |before| + |r.value|, after) &&
        (forall q :: p + |before| <= q < p + |before| + |r.value| ==> !MatchesAt(s, q, after))
    ensures r.None? ==>
      forall p: nat, q: nat :: MatchesAt(s, p, before) && p + |before| <= q ==> !MatchesAt(s, q, after)
  {
    match FindFrom(s, before, 0)
    case None => None
    case Some(p) =>
      match FindFrom(s, after, p + |before|)
      case None =>
        assert forall p': nat, q: nat :: MatchesAt(s, p', before) && p' + |before| <= q ==> !MatchesAt(s, q, after) by {
          forall p': nat, q: nat | MatchesAt(s, p', before) && p' + |before| <= q
            ensures !MatchesAt(s, q, after)
          {
            assert p <= p';
          }
        }
        None
      case Some(q) =>
        var g := s[p + |before|..q];
        assert p + |before| + |g| == q;
        Some(g)
  }

  /** The group is what lies between the first `before` and the first
      `after` behind it. */
  lemma LazyGroupAt(s: string, before: string, after: string, p: nat, q: nat)
    requires FindFrom(s, before, 0) == Some(p)
    requires FindFrom(s, after, p + |before|) == Some(q)
    ensures p + |before| <= q <= |s|
    ensures LazyGroup(s, before, after) == Some(s[p + |before|..q])
  {
  }

  lemma LazyGroupNone(s: string, before: string, after: string, p: nat)
    requires FindFrom(s, before, 0) == Some(p)
    requires FindFrom(s, after, p + |before|) == None
    ensures LazyGroup(s, before, after) == None
  {
  }

  /** Skipping a stretch in which `pat` cannot match does not change the search. */
  lemma {:induction false} FindFromSkip(s: string, pat: string, from: nat, upto: nat)
    requires from <= upto
    requires forall j :: from <= j < upto ==> !MatchesAt(s, j, pat)
    ensures FindFrom(s, pat, from) == FindFrom(s, pat, upto)
    decreases upto - from
  {
    if from < upto {
      if from + |pat| > |s| {
        assert upto + |pat| > |s|;
      } else {
        FindFromSkip(s, pat, from + 1, upto);
      }
    }
  }

  /** A literal occurrence is a match. */
  lemma OccursMatches(s: string, i: nat, p: string)
    requires OccursAt(s, i, p)
    ensures MatchesAt(s, i, p)
  {
    forall k | 0 <= k < |p| ensures s[i + k] == p[k] {
      assert s[i..i + |p|][k] == s[i + k];
    }
  }

  /** Matching inside a suffix of `s` is matching in `s`, shifted. */
  lemma MatchesShift(s: string, off: nat, i: nat, p: string)
    requires off <= |s|
    ensures MatchesAt(s[off..], i, p) <==> MatchesAt(s, off + i, p)
  {
    if i + |p| <= |s[off..]| {
      assert forall j :: off <= j < |s| ==> s[off..][j - off] == s[j];
    }
  }

  /** A match at `at` with none between `from` and `at` is what the search finds. */
  lemma FindFromAt(s: string, pat: string, from: nat, at: nat)
    requires from <= at && MatchesAt(s, at, pat)
    requires forall j :: from <= j < at ==> !MatchesAt(s, j, pat)
    ensures FindFrom(s, pat, from) == Some(at)
  {
    FindFromSkip(s, pat, from, at);
  }

  /** A pattern ending in a literal `:` cannot match where the `:` would fall
      on a character other than `:`. */
  lemma NoColonNoMatch(s: string, pat: string, lo: nat, hi: nat)
    requires |pat| > 0 && pat[|pat| - 1] == ':'
    requires forall k :: lo + |pat| - 1 <= k < hi + |pat| - 1 && k < |s| ==> s[k] != ':'
    ensures forall j :: lo <= j < hi ==> !MatchesAt(s, j, pat)
  {
    forall j | lo <= j < hi
      ensures !MatchesAt(s, j, pat)
    {
      if j + |pat| <= |s| {
        var k := |pat| - 1;
        assert s[j + k] != pat[k];
      }
    }
  }

  /** Every character of `s` is an ASCII decimal digit (Python's
      `str.isdigit` on ASCII text). */
  predicate IsDigitStr(s: string)
  {
    |s| > 0 && forall i :: 0 <= i < |s| ==> '0' <= s[i] <= '9'
  }

  function DigitValue(c: char): nat
    requires '0' <= c <= '9'
  {
    (c as int) - ('0' as int)
  }

  function DigitChar(d: nat): (c: char)
    requires d < 10
    ensures '0' <= c <= '9' && DigitValue(c) == d
  {
    (('0' as int) + d) as char
  }

  /** Decimal value of a string of digits, read left to right. */
  function DigitsValue(s: string): nat
    requires forall i :: 0 <= i < |s| ==> '0' <= s[i] <= '9'
  {
    if |s| == 0 then 0 else 10 * DigitsValue(s[..|s| - 1]) + DigitValue(s[|s| - 1])
  }

  /** Python's `str(n)` for a natural number `n`.  Its partner is
      `DigitsValue`: reading the digits back gives `n`. */
  function NatToString(n: nat): (r: string)
    ensures IsDigitStr(r)
    ensures DigitsValue(r) == n
    ensures |r| > 1 ==> r[0] != '0'
  {
    if n < 10 then [DigitChar(n)]
    else
      var p := NatToString(n / 10);
      var r := p + [DigitChar(n % 10)];
      assert r[..|r| - 1] == p;
      r
  }

  /** Rendering is injective, so distinct numbers give distinct names. */
  lemma NatToStringInjective(a: nat, b: nat)
    requires NatToString(a) == NatToString(b)
    ensures a == b
  {
    assert DigitsValue(NatToString(a)) == a;
  }

  predicate IsSpace(c: char)
  {
    c == ' ' || c == '\t' || c == '\n' || c == '\r' || c == '\U{B}' || c == '\U{C}'
  }

  /** `str.strip()` with no argument, on ASCII whitespace. */
  function Strip(s: string): (r: string)
    ensures |r| <= |s|
    ensures |r| > 0 ==> !IsSpace(r[0]) && !IsSpace(r[|r| - 1])
    ensures SliceOf(r, s)
    decreases |s|
  {
    if |s| > 0 && IsSpace(s[0]) then
      var r := Strip(s[1..]);
      SliceOfTail(s, r);
      r
    else if |s| > 0 && IsSpace(s[|s| - 1]) then
      var r := Strip(s[..|s| - 1]);
      SliceOfInit(s, r);
      r
    else
      assert s == s[0..|s|];
      s
  }

  /** `r` is a contiguous piece of `s`. */
  predicate SliceOf(r: string, s: string)
  {
    exists i, j :: 0 <= i <= j <= |s| && r == s[i..j]
  }

  lemma SliceOfTail(s: string, r: string)
    requires |s| > 0 && SliceOf(r, s[1..])
    ensures SliceOf(r, s)
  {
    var i, j :| 0 <= i <= j <= |s[1..]| && r == s[1..][i..j];
    assert r == s[i + 1..j + 1];
  }

  lemma SliceOfInit(s: string, r: string)
    requires |s| > 0 && SliceOf(r, s[..|s| - 1])
    ensures SliceOf(r, s)
  {
    var i, j :| 0 <= i <= j <= |s[..|s| - 1]| && r == s[..|s| - 1][i..j];
    assert r == s[i..j];
  }

  /** The body of a Python integer literal in base 10: digits, where a single
      `_` may separate two digits. */
  predicate IsDigitGroups(s: string)
  {
    |s| > 0 && '0' <= s[0] <= '9' && '0' <= s[|s| - 1] <= '9' &&
    (forall i :: 0 <= i < |s| ==> ('0' <= s[i] <= '9' || s[i] == '_')) &&
    (forall i :: 0 <= i < |s| - 1 ==> !(s[i] == '_' && s[i + 1] == '_'))
  }

  function DropUnderscores(s: string): (r: string)
    ensures forall i :: 0 <= i < |r| ==> r[i] != '_'
    ensures (forall i :: 0 <= i < |s| ==> ('0' <= s[i] <= '9' || s[i] == '_')) ==>
      forall i :: 0 <= i < |r| ==> '0' <= r[i] <= '9'
    ensures (forall i :: 0 <= i < |s| ==> s[i] != '_') ==> r == s
  {
    if |s| == 0 then []
    else if s[0] == '_' then DropUnderscores(s[1..])
    else [s[0]] + DropUnderscores(s[1..])
  }

  /** Python's `int(s)`: `None` where Python raises `ValueError`. */
  function PyInt(s: string): Option<int>
  {
    SignedDigits(Strip(s))
  }

  /** `int()` on text with no surrounding whitespace: an optional sign,
      then digit groups. */
  function SignedDigits(t: string): Option<int>
  {
    if |t| > 0 && (t[0] == '+' || t[0] == '-') then
      var body := t[1..];
      if IsDigitGroups(body) then
        var v: int := DigitsValue(DropUnderscores(body));
        Some(if t[0] == '-' then -v else v)
      else None
    else if IsDigitGroups(t) then Some(DigitsValue(DropUnderscores(t)))
    else None
  }

  /** Whatever `str.isdigit` accepts, `int()` parses to its decimal value. */
  lemma IsDigitParses(s: string)
    requires IsDigitStr(s)
    ensures PyInt(s) == Some(DigitsValue(s))
  {
    assert !IsSpace(s[0]) && !IsSpace(s[|s| - 1]);
    assert Strip(s) == s;
    assert IsDigitGroups(s);
  }

  /** `int(str(n)) == n`. */
  lemma ParseRendered(n: nat)
    ensures PyInt(NatToString(n)) == Some(n)
  {
    IsDigitParses(NatToString(n));
  }

  /** Python's `str(n)` for any integer. */
  function IntToString(n: int): (r: string)
    ensures |r| > 0
  {
    if n < 0 then "-" + NatToString(-n) else NatToString(n)
  }

  /** A stripped `-` followed by digit groups parses to the negated value. */
  lemma MinusParses(s: string)
    requires |s| > 0 && s[0] == '-' && Strip(s) == s && IsDigitGroups(s[1..])
    ensures PyInt(s) == Some(-(DigitsValue(DropUnderscores(s[1..])) as int))
  {
    assert PyInt(s) == SignedDigits(s);
  }

  /** A minus sign before a run of digits parses to the negated value. */
  lemma NegatedParses(s: string)
    requires |s| > 1 && s[0] == '-' && IsDigitStr(s[1..])
    ensures PyInt(s) == Some(-(DigitsValue(s[1..]) as int))
  {
    assert Strip(s) == s by {
      assert !IsSpace(s[0]) && !IsSpace(s[|s| - 1]);
    }
    NoUnderscore(s[1..]);
    MinusParses(s);
  }

  /** Digits alone are a single digit group. */
  lemma NoUnderscore(d: string)
    requires IsDigitStr(d)
    ensures IsDigitGroups(d) && DropUnderscores(d) == d
  {
    assert forall i :: 0 <= i < |d| ==> d[i] != '_';
  }

  /** `int(str(n)) == n`, negative numbers included. */
  lemma ParseRenderedInt(n: int)
    ensures PyInt(IntToString(n)) == Some(n)
  {
    if n < 0 {
      var d := NatToString(-n);
      assert IntToString(n)[1..] == d;
      NegatedParses(IntToString(n));
    } else {
      ParseRendered(n);
    }
  }

  /** `s.replace(c, rep, 1)`: the first `c`, if any, becomes `rep`. */
  function ReplaceFirst(s: string, c: char, rep: string): (r: string)
    ensures c !in s ==> r == s
    ensures c in s ==> exists i :: 0 <= i < |s| && s[i] == c && c !in s[..i] && r == s[..i] + rep + s[i + 1..]
  {
    if c !in s then s
    else
      var i := IndexOf(s, c);
      s[..i] + rep + s[i + 1..]
  }

  /** `s.replace(c, d)` for single characters. */
  function ReplaceAll(s: string, c: char, d: char): (r: string)
    ensures |r| == |s|
    ensures forall i :: 0 <= i < |s| ==> r[i] == (if s[i] == c then d else s[i])
  {
    seq(|s|, i requires 0 <= i < |s| => if s[i] == c then d else s[i])
  }

  /** `s.split(sep)` for a one-character separator. */
  function Split(s: string, sep: char): (r: seq<string>)
    ensures |r| > 0
    ensures forall i :: 0 <= i < |r| ==> sep !in r[i]
    decreases |s|
  {
    if sep !in s then [s]
    else
      var i := IndexOf(s, sep);
      [s[..i]] + Split(s[i + 1..], sep)
  }

  function IndexOf(s: string, c: char): (i: nat)
    requires c in s
    ensures i < |s| && s[i] == c && c !in s[..i]
  {
    if s[0] == c then 0
    else
      assert c in s[1..];
      var j := IndexOf(s[1..], c);
      assert s[..j + 1] == [s[0]] + s[1..][..j];
      j + 1
  }

  /** `sep.join(parts)`. */
  function Join(parts: seq<string>, sep: char): string
  {
    if |parts| == 0 then ""
    else if |parts| == 1 then parts[0]
    else parts[0] + [sep] + Join(parts[1..], sep)
  }

  /** `sep.join(s.split(sep)) == s`: joining undoes splitting. */
  lemma {:induction false} JoinSplit(s: string, sep: char)
    ensures Join(Split(s, sep), sep) == s
    decreases |s|
  {
    if sep in s {
      var i := IndexOf(s, sep);
      JoinSplit(s[i + 1..], sep);
      var rest := Split(s[i + 1..], sep);
      assert Split(s, sep) == [s[..i]] + rest;
      assert ([s[..i]] + rest)[1..] == rest;
      assert s == s[..i] + [sep] + s[i + 1..];
    }
  }

  /** `s.split(sep)` undoes a join of separator-free parts. */
  lemma {:induction false} SplitJoin(parts: seq<string>, sep: char)
    requires |parts| > 0
    requires forall i :: 0 <= i < |parts| ==> sep !in parts[i]
    ensures Split(Join(parts, sep), sep) == parts
    decreases |parts|
  {
    if |parts| > 1 {
      SplitAtFirst(parts[0], sep, Join(parts[1..], sep));
      SeparatorFreeTail(parts, sep);
      SplitJoin(parts[1..], sep);
      HeadTail(parts);
    }
  }

  /** Splitting stops at the separator that follows a separator-free head. */
  lemma SplitAtFirst(head: string, sep: char, tail: string)
    requires sep !in head
    ensures Split(head + [sep] + tail, sep) == [head] + Split(tail, sep)
  {
    FirstSeparator(head, sep, tail);
  }

  lemma SeparatorFreeTail(parts: seq<string>, sep: char)
    requires |parts| > 0 && forall i :: 0 <= i < |parts| ==> sep !in parts[i]
    ensures forall i :: 0 <= i < |parts[1..]| ==> sep !in parts[1..][i]
  {
    forall i | 0 <= i < |parts[1..]| ensures sep !in parts[1..][i] {
      assert parts[1..][i] == parts[i + 1];
    }
  }

  lemma HeadTail<T>(s: seq<T>)
    requires |s| > 0
    ensures s == [s[0]] + s[1..]
  {
  }

  /** A separator-free head is determined by where the first separator
      is, so the head and the rest can be read back. */
  lemma SeparatedUnique(h1: string, t1: string, h2: string, t2: string, sep: char)
    requires sep !in h1 && sep !in h2
    ensures h1 + [sep] + t1 == h2 + [sep] + t2 ==> h1 == h2 && t1 == t2
  {
    FirstSeparator(h1, sep, t1);
    FirstSeparator(h2, sep, t2);
  }

  lemma FirstSeparator(head: string, sep: char, tail: string)
    requires sep !in head
    ensures sep in head + [sep] + tail
    ensures IndexOf(head + [sep] + tail, sep) == |head|
    ensures (head + [sep] + tail)[..|head|] == head
    ensures (head + [sep] + tail)[|head| + 1..] == tail
  {
    var s := head + [sep] + tail;
    assert s[|head|] == sep;
    var i := IndexOf(s, sep);
    assert s[..|head|] == head;
    assert forall k :: 0 <= k < |head| ==> s[k] != sep;
  }

  /** Index of the last `c` in `s`, or -1. */
  function RFind(s: string, c: char): (r: int)
    ensures -1 <= r < |s|
    ensures r >= 0 ==> s[r] == c
    ensures forall k :: r < k < |s| ==> s[k] != c
  {
    if |s| == 0 then -1
    else if s[|s| - 1] == c then |s| - 1
    else RFind(s[..|s| - 1], c)
  }

  /** `os.path.splitext` on POSIX paths: the extension starts at the last `.`
      of the last path component, provided that component has a character
      other than `.` before it; otherwise the extension is empty. */
  function SplitExt(p: string): (r: (string, string))
    ensures r.0 + r.1 == p
    ensures r.1 == [] || (r.1[0] == '.' && '.' !in r.1[1..] && '/' !in r.1)
    ensures r.1 != [] ==> exists k :: RFind(p, '/') < k < |r.0| && r.0[k] != '.'
  {
    var sepIndex := RFind(p, '/');
    var dotIndex := RFind(p, '.');
    if dotIndex > sepIndex && exists k :: sepIndex < k < dotIndex && p[k] != '.' then
      assert p[..dotIndex] + p[dotIndex..] == p;
      (p[..dotIndex], p[dotIndex..])
    else
      (p, [])
  }

  /** A base name followed by one `.`-free extension splits back into the two. */
  lemma SplitExtOf(base: string, ext: string)
    requires '/' !in base && '/' !in ext && '.' !in ext
    requires exists k :: 0 <= k < |base| && base[k] != '.'
    ensures SplitExt(base + "." + ext) == (base, "." + ext)
  {
    var p := base + "." + ext;
    assert forall i :: 0 <= i < |p| ==> p[i] != '/' by {
      forall i | 0 <= i < |p| ensures p[i] != '/' {
        if i < |base| { assert p[i] == base[i]; }
        else if i > |base| { assert p[i] == ext[i - |base| - 1]; }
      }
    }
    assert forall i :: |base| < i < |p| ==> p[i] != '.' by {
      forall i | |base| < i < |p| ensures p[i] != '.' {
        assert p[i] == ext[i - |base| - 1];
      }
    }
    assert p[|base|] == '.';
    assert RFind(p, '/') == -1;
    assert RFind(p, '.') == |base|;
    var k :| 0 <= k < |base| && base[k] != '.';
    assert p[k] != '.';
    assert p[..|base|] == base;
    assert p[|base|..] == "." + ext;
  }

  /** `os.path.join(a, b)` on POSIX: an absolute `b` replaces `a`, otherwise
      one `/` separates them unless `a` is empty or already ends with `/`. */
  function PathJoin(a: string, b: string): (r: string)
    ensures StartsWith(b, "/") ==> r == b
    ensures !StartsWith(b, "/") ==> EndsWith(r, b) && (a == [] || StartsWith(r, a))
    ensures !StartsWith(b, "/") && a != [] && !EndsWith(a, "/") ==> r == a + "/" + b
  {
    if StartsWith(b, "/") then b
    else if a == [] || EndsWith(a, "/") then a + b
    else a + "/" + b
  }
}
