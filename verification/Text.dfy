/**
  String primitives with Python's semantics: the whitespace class used by `\s`
  and `str.split()`, `str.replace`, `str.split(sep)`, `sep.join(parts)`, and the
  decimal rendering of naturals used by `str(n)`.
*/
module Text {
  import opened Common

  /** Python's whitespace: the characters for which `str.isspace()` holds, which
      are also exactly the characters `\s` matches in a `str` pattern. */
  predicate IsWs(c: char) {
    || c == ' '
    || ('\t' <= c <= '\r')
    || ('\U{1C}' <= c <= '\U{1F}')
    || c == '\U{85}' || c == '\U{A0}' || c == '\U{1680}'
    || ('\U{2000}' <= c <= '\U{200A}')
    || c == '\U{2028}' || c == '\U{2029}' || c == '\U{202F}' || c == '\U{205F}' || c == '\U{3000}'
  }

  /** Every character of `s` is whitespace. */
  predicate AllWs(s: string) {
    |s| == 0 || (IsWs(s[0]) && AllWs(s[1..]))
  }

  lemma {:induction false} AllWsIndex(s: string)
    ensures AllWs(s) <==> forall i | 0 <= i < |s| :: IsWs(s[i])
  {
    if |s| > 0 {
      AllWsIndex(s[1..]);
      assert forall i | 1 <= i < |s| :: s[i] == s[1..][i - 1];
    }
  }

  /** Length of the longest whitespace prefix of `u`: what a greedy `\s*` consumes. */
  function WsSpan(u: string): (n: nat)
    ensures n <= |u|
  {
    if |u| == 0 || !IsWs(u[0]) then 0 else 1 + WsSpan(u[1..])
  }

  /** `WsSpan` takes whitespace only, and as much of it as there is. */
  lemma {:induction false} WsSpanRun(u: string)
    ensures forall i | 0 <= i < WsSpan(u) :: IsWs(u[i])
    ensures WsSpan(u) == |u| || !IsWs(u[WsSpan(u)])
  {
    if |u| > 0 && IsWs(u[0]) {
      WsSpanRun(u[1..]);
      assert forall i | 1 <= i < |u| :: u[i] == u[1..][i - 1];
    }
  }

  /** The whitespace prefix of `x` does not depend on what follows `x` once a
      non-whitespace character of `x` ends it. */
  lemma {:induction false} WsSpanPrefix(x: string, v: string)
    requires WsSpan(x) < |x|
    ensures WsSpan(x + v) == WsSpan(x)
  {
    if IsWs(x[0]) {
      assert (x + v)[1..] == x[1..] + v;
      WsSpanPrefix(x[1..], v);
    }
  }

  /** `pat` occurs in `s` starting at index `i`. */
  predicate OccursAt(s: string, pat: string, i: nat) {
    i <= |s| && pat <= s[i..]
  }

  predicate Contains(s: string, pat: string) {
    exists i: nat | i <= |s| :: OccursAt(s, pat, i)
  }

  /** Python's `s.replace(pat, rep)` for a non-empty `pat`: scan left to right,
      replacing each leftmost, non-overlapping occurrence. */
  function ReplaceAll(s: string, pat: string, rep: string): string
    requires |pat| > 0
    decreases |s|
  {
    if OccursAt(s, pat, 0) then rep + ReplaceAll(s[|pat|..], pat, rep)
    else if |s| == 0 then ""
    else [s[0]] + ReplaceAll(s[1..], pat, rep)
  }

  /** Python's `s.split(sep)` for a non-empty `sep`: the pieces between the
      leftmost, non-overlapping occurrences of `sep`. */
  function SplitOn(s: string, sep: string): (parts: seq<string>)
    requires |sep| > 0
    ensures |parts| >= 1
    decreases |s|
  {
    if OccursAt(s, sep, 0) then [""] + SplitOn(s[|sep|..], sep)
    else if |s| == 0 then [""]
    else
      var rest := SplitOn(s[1..], sep);
      [[s[0]] + rest[0]] + rest[1..]
  }

  /** Python's `sep.join(parts)`. */
  function Join(parts: seq<string>, sep: string): string
  {
    if |parts| == 0 then ""
    else if |parts| == 1 then parts[0]
    else parts[0] + sep + Join(parts[1..], sep)
  }

  lemma {:induction false} JoinConsHead(a: string, b: string, t: seq<string>, sep: string)
    ensures Join([a + b] + t, sep) == a + Join([b] + t, sep)
  {
    if |t| > 0 {
      assert ([a + b] + t)[1..] == t;
      assert ([b] + t)[1..] == t;
    }
  }

  lemma {:induction false} JoinCons(a: string, t: seq<string>, sep: string)
    requires |t| > 0
    ensures Join([a] + t, sep) == a + sep + Join(t, sep)
  {
    assert ([a] + t)[1..] == t;
  }

  /** Replacing every occurrence is joining the split pieces with the
      replacement: Python's `s.replace(p, r) == r.join(s.split(p))`. */
  lemma {:induction false} ReplaceIsJoinOfSplit(s: string, pat: string, rep: string)
    requires |pat| > 0
    ensures ReplaceAll(s, pat, rep) == Join(SplitOn(s, pat), rep)
    decreases |s|
  {
    if OccursAt(s, pat, 0) {
      ReplaceIsJoinOfSplit(s[|pat|..], pat, rep);
      JoinCons("", SplitOn(s[|pat|..], pat), rep);
    } else if |s| == 0 {
    } else {
      var rest := SplitOn(s[1..], pat);
      ReplaceIsJoinOfSplit(s[1..], pat, rep);
      JoinConsHead([s[0]], rest[0], rest[1..], rep);
      assert [rest[0]] + rest[1..] == rest;
    }
  }

  /** Splitting on a separator and joining with the same separator gives the
      text back. */
  lemma {:induction false} SplitJoinRoundTrip(s: string, pat: string)
    requires |pat| > 0
    ensures Join(SplitOn(s, pat), pat) == s
  {
    ReplaceIsJoinOfSplit(s, pat, pat);
    ReplaceSelf(s, pat);
  }

  /** Replacing a pattern by itself changes nothing. */
  lemma {:induction false} ReplaceSelf(s: string, pat: string)
    requires |pat| > 0
    ensures ReplaceAll(s, pat, pat) == s
    decreases |s|
  {
    if OccursAt(s, pat, 0) {
      ReplaceSelf(s[|pat|..], pat);
      assert s == s[..|pat|] + s[|pat|..];
    } else if |s| > 0 {
      ReplaceSelf(s[1..], pat);
      assert s == [s[0]] + s[1..];
    }
  }

  /** A text without an occurrence of the pattern is returned unchanged. */
  lemma {:induction false} ReplaceAbsent(s: string, pat: string, rep: string)
    requires |pat| > 0
    requires !Contains(s, pat)
    ensures ReplaceAll(s, pat, rep) == s
    decreases |s|
  {
    if |s| > 0 {
      assert !OccursAt(s, pat, 0);
      forall i: nat ensures !OccursAt(s[1..], pat, i) {
        if OccursAt(s[1..], pat, i) {
          assert s[1..][i..i + |pat|] == s[i + 1..i + 1 + |pat|];
          assert OccursAt(s, pat, i + 1);
        }
      }
      ReplaceAbsent(s[1..], pat, rep);
      assert s == [s[0]] + s[1..];
    }
  }

  /** A prefix that does not hold the pattern's first character is copied
      through unchanged. */
  lemma {:induction false} ReplaceSkipsPrefix(l: string, r: string, pat: string, rep: string)
    requires |pat| > 0
    requires forall k | 0 <= k < |l| :: l[k] != pat[0]
    ensures ReplaceAll(l + r, pat, rep) == l + ReplaceAll(r, pat, rep)
    decreases |l|
  {
    if |l| > 0 {
      var s := l + r;
      assert s[0] == l[0];
      assert !OccursAt(s, pat, 0) by {
        if |pat| <= |s| { assert s[0..|pat|][0] == s[0]; }
      }
      assert s[1..] == l[1..] + r;
      ReplaceSkipsPrefix(l[1..], r, pat, rep);
      assert l == [l[0]] + l[1..];
    } else {
      assert l + r == r;
    }
  }

  /** Splitting on a single character the prefix does not hold extends the
      first piece by that prefix. */
  lemma {:induction false} SplitOnPrefix(p: string, x: string, c: char)
    requires c !in p
    ensures SplitOn(p + x, [c]) == [p + SplitOn(x, [c])[0]] + SplitOn(x, [c])[1..]
    decreases |p|
  {
    if |p| == 0 {
      assert p + x == x;
      var r := SplitOn(x, [c]);
      assert [r[0]] + r[1..] == r;
      assert p + r[0] == r[0];
    } else {
      var s := p + x;
      assert s[0] == p[0];
      assert !OccursAt(s, [c], 0) by {
        assert s[0..1][0] == s[0];
      }
      assert s[1..] == p[1..] + x;
      SplitOnPrefix(p[1..], x, c);
      assert [p[0]] + (p[1..] + SplitOn(x, [c])[0]) == p + SplitOn(x, [c])[0];
    }
  }

  /** Joining pieces free of the separator character and splitting again
      recovers the pieces. */
  lemma {:induction false} SplitJoinChar(parts: seq<string>, c: char)
    requires |parts| > 0
    requires forall i | 0 <= i < |parts| :: c !in parts[i]
    ensures SplitOn(Join(parts, [c]), [c]) == parts
  {
    if |parts| == 1 {
      SplitOnPrefix(parts[0], "", c);
      assert parts[0] + "" == parts[0];
      assert SplitOn("", [c]) == [""];
    } else {
      var rest := parts[1..];
      assert parts == [parts[0]] + rest;
      SplitJoinChar(rest, c);
      JoinCons(parts[0], rest, [c]);
      var tail := [c] + Join(rest, [c]);
      assert Join(parts, [c]) == parts[0] + tail;
      SplitOnPrefix(parts[0], tail, c);
      assert tail[0..1] == [c];
      assert OccursAt(tail, [c], 0);
      assert tail[1..] == Join(rest, [c]);
      assert SplitOn(tail, [c]) == [""] + rest;
      assert ([""] + rest)[1..] == rest;
      assert parts[0] + "" == parts[0];
    }
  }

  predicate IsDigit(c: char) {
    '0' <= c <= '9'
  }

  predicate AllDigits(s: string) {
    forall i | 0 <= i < |s| :: IsDigit(s[i])
  }

  function DigitChar(d: nat): (c: char)
    requires d < 10
    ensures IsDigit(c)
  {
    ['0', '1', '2', '3', '4', '5', '6', '7', '8', '9'][d]
  }

  function DigitValue(c: char): (d: nat)
    requires IsDigit(c)
    ensures d < 10
  {
    if c == '0' then 0 else if c == '1' then 1 else if c == '2' then 2
    else if c == '3' then 3 else if c == '4' then 4 else if c == '5' then 5
    else if c == '6' then 6 else if c == '7' then 7 else if c == '8' then 8 else 9
  }

  lemma {:induction false} DigitRoundTrip(d: nat)
    requires d < 10
    ensures DigitValue(DigitChar(d)) == d
  {
  }

  /** Python's `str(n)` for a natural number: decimal, no leading zeros. */
  function NatToString(n: nat): (s: string)
    ensures |s| > 0 && AllDigits(s)
    decreases n
  {
    if n < 10 then [DigitChar(n)] else NatToString(n / 10) + [DigitChar(n % 10)]
  }

  /** The number a string of decimal digits denotes. */
  function DigitsValue(s: string): nat
    requires AllDigits(s)
    decreases |s|
  {
    if |s| == 0 then 0 else 10 * DigitsValue(s[..|s| - 1]) + DigitValue(s[|s| - 1])
  }

  lemma {:induction false} NatToStringRoundTrip(n: nat)
    ensures DigitsValue(NatToString(n)) == n
    decreases n
  {
    DigitRoundTrip(n % 10);
    if n >= 10 {
      NatToStringRoundTrip(n / 10);
      var s := NatToString(n);
      assert s[..|s| - 1] == NatToString(n / 10);
    }
  }

  /** The two-digit, zero-padded rendering of a number below 100. */
  function Pad2(n: nat): (s: string)
    requires n < 100
    ensures |s| == 2 && AllDigits(s) && DigitsValue(s) == n
  {
    DigitRoundTrip(n / 10);
    DigitRoundTrip(n % 10);
    var s := [DigitChar(n / 10), DigitChar(n % 10)];
    assert s[..1] == [DigitChar(n / 10)];
    assert s[..1][..0] == [];
    assert DigitsValue(s[..1]) == n / 10;
    s
  }

  /** `s` with the prefix `pre` and the suffix `suf` removed, when it has both. */
  function StripAffixes(s: string, pre: string, suf: string): (r: Option<string>)
    ensures r.Some? ==> s == pre + r.value + suf
    ensures r.None? ==> forall x :: s != pre + x + suf
  {
    if |pre| + |suf| <= |s| && s[..|pre|] == pre && s[|s| - |suf|..] == suf then
      var x := s[|pre|..|s| - |suf|];
      assert s == pre + x + suf;
      Some(x)
    else
      assert forall x :: s != pre + x + suf by {
        forall x
          ensures s != pre + x + suf
        {
          AffixesOf(pre, x, suf);
        }
      }
      None
  }

  lemma AffixesOf(pre: string, x: string, suf: string)
    ensures var s := pre + x + suf;
      |pre| + |suf| <= |s| && s[..|pre|] == pre && s[|s| - |suf|..] == suf
  {
  }

  /** `StripAffixes` undoes the wrapping. */
  lemma {:induction false} StripAffixesOf(pre: string, x: string, suf: string)
    ensures StripAffixes(pre + x + suf, pre, suf) == Some(x)
  {
    var s := pre + x + suf;
    assert s[..|pre|] == pre && s[|s| - |suf|..] == suf;
    assert s[|pre|..|s| - |suf|] == x;
  }

  /** Splits `s` as `pre + x + mid + y + suf` where `x` is the shortest field
      before `mid`, when such a split exists. */
  function StripTwo(s: string, pre: string, mid: string, suf: string): (r: Option<(string, string)>)
    requires |mid| > 0
    ensures r.Some? ==> s == pre + r.value.0 + mid + r.value.1 + suf
    ensures r.Some? ==> mid[0] !in r.value.0
  {
    if |pre| <= |s| && s[..|pre|] == pre then
      var rest := s[|pre|..];
      var i := IndexOf(rest, mid[0]);
      match StripAffixes(rest[i..], mid, suf)
      case None => None
      case Some(y) =>
        Halves(s, |pre|);
        Halves(rest, i);
        FiveParts(s, pre, rest, rest[..i], rest[i..], mid, y, suf);
        Some((rest[..i], y))
    else None
  }

  lemma Halves(s: string, n: nat)
    requires n <= |s|
    ensures s == s[..n] + s[n..]
  {
  }

  lemma FiveParts(s: string, pre: string, rest: string, x: string, tail: string, mid: string, y: string, suf: string)
    requires s == pre + rest && rest == x + tail && tail == mid + y + suf
    ensures s == pre + x + mid + y + suf
  {
  }

  /** `StripTwo` recovers both fields when the first holds no `mid[0]`. */
  lemma {:induction false} StripTwoRoundTrip(pre: string, x: string, mid: string, y: string, suf: string)
    requires |mid| > 0 && mid[0] !in x
    ensures StripTwo(pre + x + mid + y + suf, pre, mid, suf) == Some((x, y))
  {
    var s := pre + x + mid + y + suf;
    var tail := mid + y + suf;
    var rest := x + tail;
    FiveParts(s, pre, rest, x, tail, mid, y, suf);
    SplitConcat(pre, rest);
    SplitConcat(x, tail);
    assert rest[|x|] == mid[0];
    assert IndexOf(rest, mid[0]) == |x|;
    StripAffixesOf(mid, y, suf);
  }

  lemma SplitConcat(a: string, b: string)
    ensures (a + b)[..|a|] == a && (a + b)[|a|..] == b
  {
  }

  /** Index of the first occurrence of `c` in `s`, or `|s|` when there is none. */
  function IndexOf(s: string, c: char): (i: nat)
    ensures i <= |s|
    ensures i < |s| ==> s[i] == c
    ensures forall k | 0 <= k < i :: s[k] != c
  {
    if |s| == 0 then 0 else if s[0] == c then 0 else 1 + IndexOf(s[1..], c)
  }
}
