/**
  The `re.sub` of `update_blog_listing`: every non-overlapping match of

      (<div class="blog-posts" id="blog-posts">).*?(</div>\s*</div>\s*</main>)

  (with `re.DOTALL`) is replaced by the first group, a line break, the cards
  block, a line break, twelve spaces of indentation and the second group.

  The pattern is matched by hand. A match starts at the leftmost opening
  marker, and the lazy `.*?` stops at the earliest closing group after it.
  Each `\s*` is followed by `<`, which is not whitespace, so the greedy run
  is always the longest whitespace run and no backtracking is needed. When
  the first opening marker has no closing group after it, no later one has
  either, and the text holds no match.
*/
module Splice {
  import opened Common
  import opened Text
  import opened Pattern

  /** The opening marker, the first group of the pattern. */
  const ListOpen: string := "<" + ListOpenRest
  const ListOpenRest: string := "div class=\"blog-posts\" id=\"blog-posts\">"
  const DivClose: string := "</div>"
  const MainClose: string := "</main>"
  /** The indentation the replacement puts before the second group. */
  const Indent: string := "            "

  /** The second group `</div>\s*</div>\s*</main>`. */
  const CloseGroup: seq<Piece> := [Lit(DivClose), Spaces, Lit(DivClose), Spaces, Lit(MainClose)]

  /** The second group with the whitespace runs `w1` and `w2`. */
  function CloseText(w1: string, w2: string): string {
    DivClose + w1 + DivClose + w2 + MainClose
  }

  /** The length of the second group matched at the start of `t`, if it
      matches there. */
  function MatchClose(t: string): (r: Option<nat>)
    ensures r.Some? ==> r.value <= |t|
  {
    Match(t, CloseGroup)
  }

  lemma CloseShaped()
    ensures Shaped(CloseGroup) && Gaps(CloseGroup) == 2
  {
    var g := CloseGroup;
    assert DivClose[0] == '<' && MainClose[0] == '<';
    assert PieceShaped(g, 0) && PieceShaped(g, 1) && PieceShaped(g, 2);
    assert PieceShaped(g, 3) && PieceShaped(g, 4);
    assert g[1..] == [Spaces, Lit(DivClose), Spaces, Lit(MainClose)];
    assert g[2..] == [Lit(DivClose), Spaces, Lit(MainClose)];
    assert g[3..] == [Spaces, Lit(MainClose)];
    assert g[4..] == [Lit(MainClose)];
    assert g[4..][1..] == [];
    assert Gaps(g[4..]) == 0;
    assert Gaps(g[3..]) == 1 by { assert g[3..][1..] == g[4..]; }
    assert Gaps(g[2..]) == 1 by { assert g[2..][1..] == g[3..]; }
    assert Gaps(g[1..]) == 2 by { assert g[1..][1..] == g[2..]; }
  }

  /** The second group spelled with two runs is `CloseText` of them. */
  lemma CloseSpelled(w1: string, w2: string)
    ensures Gaps(CloseGroup) == 2
    ensures Spell(CloseGroup, [w1, w2]) == CloseText(w1, w2)
  {
    CloseShaped();
    var g := CloseGroup;
    assert Spell(g[4..], []) == MainClose by {
      assert g[4..][1..] == [];
    }
    assert Spell(g[3..], [w2]) == w2 + MainClose by {
      assert g[3..][1..] == g[4..];
      assert [w2][1..] == [];
    }
    assert Spell(g[2..], [w2]) == DivClose + w2 + MainClose by {
      assert g[2..][1..] == g[3..];
    }
    assert Spell(g[1..], [w1, w2]) == w1 + DivClose + w2 + MainClose by {
      assert g[1..][1..] == g[2..];
      assert [w1, w2][1..] == [w2];
    }
    assert g[1..] == g[1..];
  }

  /** The opening marker holds a single `<`, at its start. */
  lemma ListOpenFacts()
    ensures |ListOpen| == 40 && ListOpen[0] == '<'
    ensures forall k | 0 < k < |ListOpen| :: ListOpen[k] != '<'
  {
    NoLtInRest();
    forall k | 0 < k < |ListOpen|
      ensures ListOpen[k] != '<'
    {
      assert ListOpen[k] == ListOpenRest[k - 1];
    }
  }

  lemma NoLtInRest()
    ensures |ListOpenRest| == 39 && '<' !in ListOpenRest
  {
  }

  /** What `MatchClose` accepts is a second group: a closing `div`, a
      whitespace run, a closing `div`, a whitespace run and a closing
      `main`. */
  lemma MatchCloseSound(t: string)
    requires MatchClose(t).Some?
    ensures exists w1, w2 | AllWs(w1) && AllWs(w2) :: t[..MatchClose(t).value] == CloseText(w1, w2)
  {
    MatchSound(t, CloseGroup);
    CloseShaped();
    var runs := Runs(t, CloseGroup);
    assert runs == [runs[0], runs[1]];
    CloseSpelled(runs[0], runs[1]);
    PrefixSlice(CloseText(runs[0], runs[1]), t);
    assert AllWs(runs[0]) && AllWs(runs[1]);
  }

  lemma PrefixSlice(a: string, t: string)
    requires a <= t
    ensures t[..|a|] == a
  {
  }

  /** Every second group, whatever follows it, is matched whole. */
  lemma MatchCloseComplete(w1: string, w2: string, rest: string)
    requires AllWs(w1) && AllWs(w2)
    ensures MatchClose(CloseText(w1, w2) + rest) == Some(|CloseText(w1, w2)|)
  {
    CloseShaped();
    CloseSpelled(w1, w2);
    assert CloseText(w1, w2) <= CloseText(w1, w2) + rest;
    MatchComplete(CloseGroup, [w1, w2], CloseText(w1, w2) + rest);
  }

  /** A match of `(mark).*?(ps)` from `i` to `j + n`: the marker at `i`,
      then the earliest second group after it, at `j` and `n` long, as the
      lazy `.*?` demands. */
  predicate IsMatch(s: string, mark: string, ps: seq<Piece>, i: nat, j: nat, n: nat) {
    && OccursAt(s, mark, i)
    && i + |mark| <= j <= |s|
    && Match(s[j..], ps) == Some(n)
    && forall k {:trigger Match(s[k..], ps)} | i + |mark| <= k < j :: Match(s[k..], ps).None?
  }

  /** No match starts at `p`: the marker is not there, or no second group
      follows it. */
  predicate NoMatchAt(s: string, mark: string, ps: seq<Piece>, p: nat) {
    !OccursAt(s, mark, p) || forall k {:trigger Match(s[k..], ps)} | p + |mark| <= k <= |s| :: Match(s[k..], ps).None?
  }

  /** `re.sub` of the pattern `(mark).*?(ps)` with `re.DOTALL`, the search
      having reached position `from` of `s`. As `re` does, each start
      position is tried in turn; at a marker the earliest second group after
      it completes the match, which is replaced by the first group, the
      cards block on lines of its own and the second group, and the search
      resumes after the match. */
  function SubFrom(s: string, mark: string, ps: seq<Piece>, cards: string, from: nat): string
    requires |mark| > 0 && from <= |s|
    decreases |s|, |s| - from
  {
    var c := if OccursAt(s, mark, from) then Find(s, from + |mark|, ps) else None;
    if c.Some? then
      var e := c.value.0 + c.value.1;
      s[..from] + Opening(mark, cards) + s[c.value.0..e] + SubFrom(s[e..], mark, ps, cards, 0)
    else if from == |s| then s
    else SubFrom(s, mark, ps, cards, from + 1)
  }

  /** What the replacement writes in place of a match before its second
      group: the first group, then the cards block on lines of its own,
      indented for the second group. */
  function Opening(mark: string, cards: string): string {
    mark + "\n" + cards + "\n" + Indent
  }

  /** The substitution of `update_blog_listing`. */
  function Sub(s: string, cards: string): string {
    ListOpenFacts();
    SubFrom(s, ListOpen, CloseGroup, cards, 0)
  }

  /** Positions where no match starts are passed over. */
  lemma {:induction false} SubFromSkip(s: string, mark: string, ps: seq<Piece>, cards: string, from: nat, i: nat)
    requires |mark| > 0 && from <= i <= |s|
    requires forall q | from <= q < i :: NoMatchAt(s, mark, ps, q)
    ensures SubFrom(s, mark, ps, cards, from) == SubFrom(s, mark, ps, cards, i)
    decreases i - from
  {
    if from < i {
      if OccursAt(s, mark, from) {
        NoMatchNoFind(s, mark, ps, from);
      }
      SubFromSkip(s, mark, ps, cards, from + 1, i);
    }
  }

  /** Where no match starts, the search for a second group after the marker
      fails. */
  lemma NoMatchNoFind(s: string, mark: string, ps: seq<Piece>, p: nat)
    requires NoMatchAt(s, mark, ps, p) && OccursAt(s, mark, p) && p + |mark| <= |s|
    ensures Find(s, p + |mark|, ps).None?
  {
    FindSpec(s, p + |mark|, ps);
  }

  /** A match is replaced, and the search resumes after it. */
  lemma SubFromAt(s: string, mark: string, ps: seq<Piece>, cards: string, i: nat, j: nat, n: nat)
    requires |mark| > 0 && OccursAt(s, mark, i) && i + |mark| <= |s| && Find(s, i + |mark|, ps) == Some((j, n))
    ensures SubFrom(s, mark, ps, cards, i)
         == s[..i] + Opening(mark, cards) + s[j..j + n] + SubFrom(s[j + n..], mark, ps, cards, 0)
  {
  }

  /** The leftmost match is the first one replaced: the text before it is
      kept, its first group and the text up to its second group become the
      opening and the cards block, its second group is kept, and the rest is
      substituted in turn. */
  lemma SubFirst(s: string, mark: string, ps: seq<Piece>, cards: string, i: nat, j: nat, n: nat)
    requires |mark| > 0 && IsMatch(s, mark, ps, i, j, n)
    requires forall p | 0 <= p < i :: NoMatchAt(s, mark, ps, p)
    ensures SubFrom(s, mark, ps, cards, 0)
         == s[..i] + Opening(mark, cards) + s[j..j + n] + SubFrom(s[j + n..], mark, ps, cards, 0)
  {
    MatchFind(s, mark, ps, i, j, n);
    SubFound(s, mark, ps, cards, i, j, n);
  }

  /** The second group of a match is the earliest one after its marker. */
  lemma MatchFind(s: string, mark: string, ps: seq<Piece>, i: nat, j: nat, n: nat)
    requires IsMatch(s, mark, ps, i, j, n)
    ensures i + |mark| <= |s| && Find(s, i + |mark|, ps) == Some((j, n))
  {
    FindAt(s, i + |mark|, j, n, ps);
  }

  /** `SubFirst` with the second group given by the search for it. */
  lemma SubFound(s: string, mark: string, ps: seq<Piece>, cards: string, i: nat, j: nat, n: nat)
    requires |mark| > 0 && OccursAt(s, mark, i) && i + |mark| <= |s| && Find(s, i + |mark|, ps) == Some((j, n))
    requires forall p | 0 <= p < i :: NoMatchAt(s, mark, ps, p)
    ensures SubFrom(s, mark, ps, cards, 0)
         == s[..i] + Opening(mark, cards) + s[j..j + n] + SubFrom(s[j + n..], mark, ps, cards, 0)
  {
    SubFromSkip(s, mark, ps, cards, 0, i);
    SubFromAt(s, mark, ps, cards, i, j, n);
  }

  /** A text where no match starts at or after `from` is left as it is. */
  lemma {:induction false} NoMatchUnchanged(s: string, mark: string, ps: seq<Piece>, cards: string, from: nat)
    requires |mark| > 0 && from <= |s|
    requires forall p | from <= p <= |s| :: NoMatchAt(s, mark, ps, p)
    ensures SubFrom(s, mark, ps, cards, from) == s
    decreases |s| - from
  {
    if OccursAt(s, mark, from) {
      NoMatchNoFind(s, mark, ps, from);
    }
    if from < |s| {
      NoMatchUnchanged(s, mark, ps, cards, from + 1);
    }
  }

  /** In particular, a text without the marker is left as it is. */
  lemma NoMarkUnchanged(s: string, mark: string, ps: seq<Piece>, cards: string)
    requires |mark| > 0 && !Contains(s, mark)
    ensures SubFrom(s, mark, ps, cards, 0) == s
  {
    forall p: nat | p <= |s|
      ensures NoMatchAt(s, mark, ps, p)
    {
    }
    NoMatchUnchanged(s, mark, ps, cards, 0);
  }

  /** A page without the opening marker is left as it is. */
  lemma NoMarkerUnchanged(s: string, cards: string)
    requires !Contains(s, ListOpen)
    ensures Sub(s, cards) == s
  {
    ListOpenFacts();
    NoMarkUnchanged(s, ListOpen, CloseGroup, cards);
  }

  /** `mark` is non-empty and its first character occurs nowhere else in it,
      so two occurrences of it cannot overlap. */
  predicate LoneHead(mark: string) {
    |mark| > 0 && forall k | 0 < k < |mark| :: mark[k] != mark[0]
  }

  /** An occurrence of a `LoneHead` marker is the first one when no
      occurrence lies wholly before it: one overlapping it would put the
      marker's first character somewhere other than its start. */
  lemma FirstMarkAt(s: string, mark: string, ps: seq<Piece>, p: nat)
    requires LoneHead(mark) && OccursAt(s, mark, p)
    requires forall q | 0 <= q && q + |mark| <= p :: !OccursAt(s, mark, q)
    ensures forall q | 0 <= q < p :: NoMatchAt(s, mark, ps, q)
  {
    assert s[p] == s[p..][0] == mark[0];
    forall q | 0 <= q < p && p < q + |mark|
      ensures !OccursAt(s, mark, q)
    {
      assert s[q..][p - q] == s[p];
    }
  }

  /** Where the parts of a page with one listing lie. */
  lemma Layout(pre: string, mark: string, inner: string, close: string, post: string)
    ensures
      var s := pre + mark + inner + close + post;
      var a := |pre| + |mark|;
      var j := a + |inner|;
      && s[..|pre|] == pre
      && OccursAt(s, mark, |pre|)
      && s[a..] == inner + close + post
      && s[j..] == close + post
      && s[j..j + |close|] == close
      && s[j + |close|..] == post
  {
  }

  /** An occurrence lying wholly inside `pre` would be one of `pre`. */
  lemma NoMarkBefore(s: string, mark: string, pre: string)
    requires |pre| <= |s| && s[..|pre|] == pre && !Contains(pre, mark)
    ensures forall q | 0 <= q && q + |mark| <= |pre| :: !OccursAt(s, mark, q)
  {
    forall q | 0 <= q && q + |mark| <= |pre|
      ensures !OccursAt(s, mark, q)
    {
      assert !OccursAt(pre, mark, q);
      OccursInPrefix(s, mark, pre, q);
    }
  }

  /** An occurrence inside the first `|pre|` characters of `s` is one of
      `pre`. */
  lemma OccursInPrefix(s: string, mark: string, pre: string, q: nat)
    requires |pre| <= |s| && s[..|pre|] == pre && q + |mark| <= |pre|
    ensures OccursAt(s, mark, q) ==> OccursAt(pre, mark, q)
  {
    if OccursAt(s, mark, q) {
      forall k | 0 <= k < |mark|
        ensures pre[q..][k] == mark[k]
      {
        assert s[..|pre|][q + k] == s[q..][k];
      }
    }
  }

  /** No second group starts inside `inner`. */
  lemma NoCloseInside(s: string, a: nat, inner: string, rest: string, ps: seq<Piece>)
    requires a <= |s| && s[a..] == inner + rest
    requires forall k {:trigger Match((inner + rest)[k..], ps)} | 0 <= k < |inner| :: Match((inner + rest)[k..], ps).None?
    ensures forall k {:trigger Match(s[k..], ps)} | a <= k < a + |inner| :: Match(s[k..], ps).None?
  {
    forall k | a <= k < a + |inner|
      ensures Match(s[k..], ps).None?
    {
      assert s[k..] == s[a..][k - a..];
    }
  }

  /** On a page made of `pre`, the marker, `inner`, a second group `close`
      and `post`, where no second group starts inside `inner`, the marker
      and `close` delimit a match. */
  lemma PageIsMatch(pre: string, mark: string, inner: string, close: string, post: string, ps: seq<Piece>)
    requires Match(close + post, ps) == Some(|close|)
    requires forall k {:trigger Match((inner + close + post)[k..], ps)} | 0 <= k < |inner| :: Match((inner + close + post)[k..], ps).None?
    ensures IsMatch(pre + mark + inner + close + post, mark, ps, |pre|, |pre| + |mark| + |inner|, |close|)
  {
    var s := pre + mark + inner + close + post;
    var a := |pre| + |mark|;
    Layout(pre, mark, inner, close, post);
    assert (inner + close + post) == inner + (close + post);
    NoCloseInside(s, a, inner, close + post, ps);
  }

  /** A `LoneHead` marker at `i` with no marker in the text before it is
      where the first match can start. */
  lemma OnlyMarkBefore(s: string, mark: string, ps: seq<Piece>, i: nat)
    requires LoneHead(mark) && OccursAt(s, mark, i) && !Contains(s[..i], mark)
    ensures forall p | 0 <= p < i :: NoMatchAt(s, mark, ps, p)
  {
    NoMarkBefore(s, mark, s[..i]);
    FirstMarkAt(s, mark, ps, i);
  }

  /** The substitution on a text with exactly one match, from `i` to `j + n`:
      the text before the marker and after the match is kept, both groups
      are kept, and what lies between them becomes the cards block. */
  lemma SpliceAt(s: string, mark: string, ps: seq<Piece>, cards: string, i: nat, j: nat, n: nat)
    requires LoneHead(mark) && IsMatch(s, mark, ps, i, j, n) && j + n <= |s|
    requires !Contains(s[..i], mark) && !Contains(s[j + n..], mark)
    ensures SubFrom(s, mark, ps, cards, 0) == s[..i] + Opening(mark, cards) + s[j..j + n] + s[j + n..]
  {
    OnlyMarkBefore(s, mark, ps, i);
    SubFirst(s, mark, ps, cards, i, j, n);
    NoMarkUnchanged(s[j + n..], mark, ps, cards);
  }

  /** The substitution on a page with one match: the text before the marker
      and after the earliest second group following it is kept, both groups
      are kept, and what lies between them becomes the cards block. */
  lemma SpliceOne(pre: string, mark: string, inner: string, close: string, post: string, ps: seq<Piece>, cards: string)
    requires LoneHead(mark) && !Contains(pre, mark) && !Contains(post, mark)
    requires Match(close + post, ps) == Some(|close|)
    requires forall k {:trigger Match((inner + close + post)[k..], ps)} | 0 <= k < |inner| :: Match((inner + close + post)[k..], ps).None?
    ensures SubFrom(pre + mark + inner + close + post, mark, ps, cards, 0)
         == pre + Opening(mark, cards) + close + post
  {
    var s := pre + mark + inner + close + post;
    var j := |pre| + |mark| + |inner|;
    Layout(pre, mark, inner, close, post);
    PageIsMatch(pre, mark, inner, close, post, ps);
    SpliceAt(s, mark, ps, cards, |pre|, j, |close|);
  }

  /** The splice on a page with one listing: the text before the opening
      marker and after the earliest second group following it is kept, both
      groups are kept, and what lies between them becomes the cards block on
      lines of its own. */
  lemma SplicePage(pre: string, inner: string, w1: string, w2: string, post: string, cards: string)
    requires !Contains(pre, ListOpen) && !Contains(post, ListOpen)
    requires AllWs(w1) && AllWs(w2)
    requires forall k {:trigger MatchClose((inner + CloseText(w1, w2) + post)[k..])} | 0 <= k < |inner| :: MatchClose((inner + CloseText(w1, w2) + post)[k..]).None?
    ensures Sub(pre + ListOpen + inner + CloseText(w1, w2) + post, cards)
         == pre + Opening(ListOpen, cards) + CloseText(w1, w2) + post
  {
    var close := CloseText(w1, w2);
    ListOpenFacts();
    MatchCloseComplete(w1, w2, post);
    forall k | 0 <= k < |inner|
      ensures Match((inner + close + post)[k..], CloseGroup).None?
    {
      assert MatchClose((inner + close + post)[k..]).None?;
    }
    SpliceOne(pre, ListOpen, inner, close, post, CloseGroup, cards);
  }
}
