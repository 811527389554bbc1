/**
  The frontmatter split of `parse_markdown_file`: the anchored pattern
  `^---\s*\n(.*?)\n---\s*\n` with DOTALL applied by `re.match`, and the body
  that follows the match.

  The matcher is written as the search Python's backtracking engine performs:
  the greedy `\s*` after the opening dashes tries its longest run first, the lazy
  `(.*?)` tries its shortest capture first, and the greedy `\s*` of the closing
  line again tries its longest run first. Its contract states that the result is
  a match and comes first in that order among all matches.
*/
module Frontmatter {
  import opened Common
  import opened Text

  /** One way the pattern can match: `open` is the newline that ends the opening
      line, `close` the newline before the closing dashes, `last` the newline
      that ends the closing line. The capture is `s[open + 1..close]` and the
      match ends at `last + 1`. */
  datatype Match = Match(open: nat, close: nat, last: nat)

  predicate Dashes(s: string, i: nat) {
    i + 3 <= |s| && s[i] == '-' && s[i + 1] == '-' && s[i + 2] == '-'
  }

  /** `^---\s*\n` matches with its newline at `j`. */
  predicate OpensAt(s: string, j: nat) {
    && Dashes(s, 0) && 3 <= j < |s|
    && (forall k | 3 <= k < j :: IsWs(s[k]))
    && s[j] == '\n'
  }

  /** `\n---\s*\n` matches at `m` with its last newline at `t`. */
  predicate ClosesAt(s: string, m: nat, t: nat) {
    && m + 4 <= t < |s|
    && s[m] == '\n' && Dashes(s, m + 1)
    && (forall k | m + 4 <= k < t :: IsWs(s[k]))
    && s[t] == '\n'
  }

  predicate IsMatch(s: string, x: Match) {
    OpensAt(s, x.open) && x.open < x.close && ClosesAt(s, x.close, x.last)
  }

  /** The engine tries `x` no later than `y`: a later opening newline first,
      then an earlier closing line, then a later final newline. */
  predicate TriedNoLater(x: Match, y: Match) {
    || x.open > y.open
    || (x.open == y.open && x.close < y.close)
    || (x.open == y.open && x.close == y.close && x.last >= y.last)
  }

  /** The first index at or after `i` that does not hold whitespace. */
  function WsEnd(s: string, i: nat): (e: nat)
    requires i <= |s|
    ensures i <= e <= |s|
    ensures forall k | i <= k < e :: IsWs(s[k])
    ensures e == |s| || !IsWs(s[e])
  {
    var n := WsSpan(s[i..]);
    WsSpanRun(s[i..]);
    assert forall k | i <= k < i + n :: s[k] == s[i..][k - i];
    i + n
  }

  /** The last newline in `s[lo..hi]`. */
  function LastNewline(s: string, lo: nat, hi: nat): (r: Option<nat>)
    requires lo <= hi <= |s|
    ensures r.Some? ==> lo <= r.value < hi && s[r.value] == '\n'
    ensures r.Some? ==> forall k | r.value < k < hi :: s[k] != '\n'
    ensures r.None? ==> forall k | lo <= k < hi :: s[k] != '\n'
    decreases hi - lo
  {
    if hi <= lo then None
    else if s[hi - 1] == '\n' then Some(hi - 1)
    else LastNewline(s, lo, hi - 1)
  }

  /** The closing line tried at `m`: the greedy `\s*\n` ends at the last newline
      of the whitespace run after the dashes. */
  function CloseAt(s: string, m: nat): (r: Option<nat>)
    ensures r.Some? ==> ClosesAt(s, m, r.value)
    ensures r.Some? ==> forall t: nat | ClosesAt(s, m, t) :: t <= r.value
    ensures r.None? ==> forall t :: !ClosesAt(s, m, t)
  {
    if m + 4 <= |s| && s[m] == '\n' && Dashes(s, m + 1) then
      var e := WsEnd(s, m + 4);
      assert forall t | ClosesAt(s, m, t) :: e <= t ==> IsWs(s[e]);
      LastNewline(s, m + 4, e)
    else None
  }

  /** The lazy capture: the earliest closing line at or after `m`. */
  function FirstClose(s: string, m: nat): (r: Option<(nat, nat)>)
    ensures r.Some? ==> m <= r.value.0 && CloseAt(s, r.value.0) == Some(r.value.1)
    ensures r.Some? ==> forall k | m <= k < r.value.0 :: CloseAt(s, k).None?
    ensures r.None? ==> forall k | m <= k :: CloseAt(s, k).None?
    decreases |s| - m
  {
    if m >= |s| then None
    else match CloseAt(s, m)
      case Some(t) => Some((m, t))
      case None => FirstClose(s, m + 1)
  }

  /** The greedy opening `\s*\n`: newlines below `k` inside the opening
      whitespace run, latest first, each followed by the lazy capture. */
  function TryOpen(s: string, k: nat): (r: Option<Match>)
    requires Dashes(s, 0) && 3 <= k <= WsEnd(s, 3)
    ensures r.Some? ==> IsMatch(s, r.value) && r.value.open < k
    ensures r.Some? ==> forall y | IsMatch(s, y) && y.open < k :: TriedNoLater(r.value, y)
    ensures r.None? ==> forall y | IsMatch(s, y) :: y.open >= k
    decreases k
  {
    if k == 3 then None
    else
      var j := k - 1;
      if s[j] == '\n' then
        match FirstClose(s, j + 1)
        case Some((c, t)) =>
          OpenAtNewline(s, j, c, t);
          Some(Match(j, c, t))
        case None =>
          NoCloseAfterOpen(s, j);
          TryOpen(s, j)
      else TryOpen(s, j)
  }

  /** An opening newline with a closing line after it: the first closing line
      with its longest whitespace run is the first match tried from there. */
  lemma {:induction false} OpenAtNewline(s: string, j: nat, c: nat, t: nat)
    requires Dashes(s, 0) && 3 <= j < WsEnd(s, 3) && s[j] == '\n'
    requires FirstClose(s, j + 1) == Some((c, t))
    ensures IsMatch(s, Match(j, c, t))
    ensures forall y | IsMatch(s, y) && y.open == j :: TriedNoLater(Match(j, c, t), y)
  {
    assert OpensAt(s, j);
    forall y | IsMatch(s, y) && y.open == j
      ensures TriedNoLater(Match(j, c, t), y)
    {
      assert CloseAt(s, y.close).Some?;
    }
  }

  /** Without a closing line after it, an opening newline starts no match. */
  lemma {:induction false} NoCloseAfterOpen(s: string, j: nat)
    requires FirstClose(s, j + 1).None?
    ensures forall y | IsMatch(s, y) :: y.open != j
  {
    forall y | IsMatch(s, y)
      ensures y.open != j
    {
      assert CloseAt(s, y.close).Some?;
    }
  }

  /** `x` is the match the engine returns: a match, tried no later than any
      other. There is at most one (`FirstMatchUnique`). */
  ghost predicate FirstMatch(s: string, x: Match) {
    IsMatch(s, x) && forall y | IsMatch(s, y) :: TriedNoLater(x, y)
  }

  lemma {:induction false} FirstMatchUnique(s: string, x: Match, y: Match)
    requires FirstMatch(s, x) && FirstMatch(s, y)
    ensures x == y
  {
    assert TriedNoLater(x, y) && TriedNoLater(y, x);
  }

  /** The result of `re.match` on the whole document. */
  function FindMatch(s: string): (r: Option<Match>)
    ensures r.Some? ==> FirstMatch(s, r.value)
    ensures r.None? ==> forall y :: !IsMatch(s, y)
  {
    if Dashes(s, 0) then
      var e := WsEnd(s, 3);
      assert forall y | IsMatch(s, y) :: e <= y.open ==> IsWs(s[e]);
      TryOpen(s, e)
    else None
  }

  /** Frontmatter text and Markdown body of a document, or `None` when the
      delimiters are missing (the source then skips the file). Which split it
      returns is stated by `SplitAtFirstMatch`. */
  function SplitFrontmatter(s: string): (r: Option<(string, string)>)
    ensures r.Some? <==> exists x :: IsMatch(s, x)
  {
    match FindMatch(s)
    case Some(x) => Some((s[x.open + 1..x.close], s[x.last + 1..]))
    case None => None
  }

  /** Whenever the pattern matches, one match is tried first. */
  lemma {:induction false} FirstMatchExists(s: string, y: Match)
    requires IsMatch(s, y)
    ensures FindMatch(s).Some? && FirstMatch(s, FindMatch(s).value)
  {
  }

  /** The split is read off the first match. */
  lemma {:induction false} SplitAtFirstMatch(s: string, x: Match)
    requires FirstMatch(s, x)
    ensures SplitFrontmatter(s) == Some((s[x.open + 1..x.close], s[x.last + 1..]))
  {
    FirstMatchExists(s, x);
    FirstMatchUnique(s, x, FindMatch(s).value);
    SplitOfFound(s, x);
  }

  lemma {:induction false} SplitOfFound(s: string, x: Match)
    requires FindMatch(s) == Some(x)
    ensures SplitFrontmatter(s) == Some((s[x.open + 1..x.close], s[x.last + 1..]))
  {
  }

  /** The first match, in the engine's order, of a document laid out as
      opening line, `n` frontmatter characters, closing line and body. */
  lemma {:induction false} FirstMatchOfLayout(s: string, n: nat, y: Match)
    requires |s| >= 9 + n && n > 0
    requires Dashes(s, 0) && s[3] == '\n' && !IsWs(s[4])
    requires forall i | 4 <= i <= n :: !(s[i] == '\n' && Dashes(s, i + 1))
    requires s[4 + n] == '\n' && Dashes(s, 5 + n) && s[8 + n] == '\n'
    requires |s| == 9 + n || !IsWs(s[9 + n])
    requires IsMatch(s, y) && TriedNoLater(y, Match(3, 4 + n, 8 + n))
    ensures y == Match(3, 4 + n, 8 + n)
  {
    assert y.open == 3;
    assert y.close == 4 + n;
  }

  /** The characters of a document assembled from frontmatter and body. */
  lemma {:induction false} LayoutOf(fm: string, body: string, s: string)
    requires s == "---\n" + fm + "\n---\n" + body
    requires !Contains(fm, "\n---")
    ensures |s| == 9 + |fm| + |body|
    ensures Dashes(s, 0) && s[3] == '\n'
    ensures forall i | 0 <= i < |fm| :: s[4 + i] == fm[i]
    ensures forall i | 4 <= i <= |fm| :: !(s[i] == '\n' && Dashes(s, i + 1))
    ensures s[4 + |fm|] == '\n' && Dashes(s, 5 + |fm|) && s[8 + |fm|] == '\n'
    ensures forall i | 0 <= i < |body| :: s[9 + |fm| + i] == body[i]
    ensures s[4..4 + |fm|] == fm && s[9 + |fm|..] == body
  {
    var n := |fm|;
    assert s[4..4 + n] == fm;
    assert s[9 + n..] == body;
    forall i | 4 <= i <= n
      ensures !(s[i] == '\n' && Dashes(s, i + 1))
    {
      if s[i] == '\n' && Dashes(s, i + 1) {
        assert fm[i - 4..i] == s[i..i + 4];
        assert OccursAt(fm, "\n---", i - 4);
      }
    }
  }

  /** A document made of an opening line, the frontmatter, a closing line and a
      body splits back into that frontmatter and body, provided the frontmatter
      is non-empty, does not start with whitespace and holds no newline followed
      by three dashes, and the body is empty or starts with non-whitespace. */
  lemma {:induction false} RoundTrip(fm: string, body: string)
    requires |fm| > 0 && !IsWs(fm[0])
    requires !Contains(fm, "\n---")
    requires |body| == 0 || !IsWs(body[0])
    ensures SplitFrontmatter("---\n" + fm + "\n---\n" + body) == Some((fm, body))
  {
    var s := "---\n" + fm + "\n---\n" + body;
    var n := |fm|;
    var x := Match(3, 4 + n, 8 + n);
    LayoutOf(fm, body, s);
    assert IsMatch(s, x);
    FirstMatchExists(s, x);
    FirstMatchOfLayout(s, n, FindMatch(s).value);
    SplitOfFound(s, x);
  }

  /** With an empty frontmatter the capture starts at the empty line's own
      newline and runs to the first later `---` line, so the body loses its
      text up to and including its first line that is `---` followed by
      whitespace, wherever that line is. Here it is the first line. */
  lemma {:induction false} EmptyFrontmatterTakesRule(rest: string)
    requires |rest| == 0 || !IsWs(rest[0])
    ensures SplitFrontmatter("---\n\n---\n---\n" + rest) == Some(("---", rest))
  {
    var s := "---\n\n---\n---\n" + rest;
    var x := Match(4, 8, 12);
    RuleLayout(s, rest);
    forall y | IsMatch(s, y)
      ensures TriedNoLater(x, y)
    {
      RuleMatches(s, y);
    }
    SplitAtFirstMatch(s, x);
  }

  /** The same when the `---` line comes later in the body, as a Markdown
      horizontal rule does: the body's first line joins the capture. */
  lemma {:induction false} EmptyFrontmatterTakesLaterRule()
    ensures SplitFrontmatter("---\n\n---\nabc\n---\nxyz") == Some(("---\nabc", "xyz"))
  {
    var s := "---\n\n---\nabc\n---\nxyz";
    var x := Match(4, 12, 16);
    LaterRuleLayout(s);
    forall y | IsMatch(s, y)
      ensures TriedNoLater(x, y)
    {
      LaterRuleMatches(s, y);
    }
    SplitAtFirstMatch(s, x);
  }

  lemma {:induction false} LaterRuleLayout(s: string)
    requires s == "---\n\n---\nabc\n---\nxyz"
    ensures |s| == 20 && Dashes(s, 0) && s[3] == '\n' && s[4] == '\n' && Dashes(s, 5) && s[8] == '\n'
    ensures s[9] == 'a' && s[12] == '\n' && Dashes(s, 13) && s[16] == '\n' && s[17] == 'x'
    ensures s[5..12] == "---\nabc" && s[17..] == "xyz"
  {
  }

  lemma {:induction false} LaterRuleMatches(s: string, y: Match)
    requires |s| == 20 && Dashes(s, 0) && s[3] == '\n' && s[4] == '\n' && Dashes(s, 5) && s[8] == '\n'
    requires s[9] == 'a' && s[12] == '\n' && Dashes(s, 13) && s[16] == '\n' && s[17] == 'x'
    requires IsMatch(s, y)
    ensures IsMatch(s, Match(4, 12, 16)) && TriedNoLater(Match(4, 12, 16), y)
  {
    assert !IsWs(s[5]) && !IsWs(s[9]) && !IsWs(s[17]);
  }

  lemma {:induction false} RuleLayout(s: string, rest: string)
    requires s == "---\n\n---\n---\n" + rest
    requires |rest| == 0 || !IsWs(rest[0])
    ensures |s| == 13 + |rest|
    ensures Dashes(s, 0) && s[3] == '\n' && s[4] == '\n' && s[5] == '-' && s[6] == '-' && s[7] == '-'
    ensures s[8] == '\n' && Dashes(s, 9) && s[12] == '\n' && (|s| == 13 || !IsWs(s[13]))
    ensures s[5..8] == "---" && s[13..] == rest
  {
    assert s[..13] == "---\n\n---\n---\n";
    if |rest| > 0 {
      assert s[13] == rest[0];
    }
  }

  lemma {:induction false} RuleMatches(s: string, y: Match)
    requires |s| >= 13 && Dashes(s, 0) && s[3] == '\n' && s[4] == '\n' && s[5] == '-' && s[6] == '-' && s[7] == '-'
    requires s[8] == '\n' && Dashes(s, 9) && s[12] == '\n' && (|s| == 13 || !IsWs(s[13]))
    requires IsMatch(s, y)
    ensures IsMatch(s, Match(4, 8, 12)) && TriedNoLater(Match(4, 8, 12), y)
  {
    assert !IsWs(s[5]);
  }

  /** A document that does not begin with three dashes has no frontmatter. */
  lemma {:induction false} NoOpeningDashes(s: string)
    requires !Dashes(s, 0)
    ensures SplitFrontmatter(s) == None
  {
  }

  /** A document whose only opening line is never followed by a closing line
      has no frontmatter. */
  lemma {:induction false} NoClosingLine(s: string)
    requires forall m, t :: !ClosesAt(s, m, t)
    ensures SplitFrontmatter(s) == None
  {
  }
}
