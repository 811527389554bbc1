/**
  The article page of `generate_article_html`: the tag badges, the header image,
  and the nine `str.replace` steps that fill the page template.
*/
module Articles {
  import opened Common
  import opened Text
  import opened Dates
  import opened Posts
  import opened Navigation

  // ---------------------------------------------------------------------
  // Tag badges (`generate_tags_html`)
  // ---------------------------------------------------------------------

  const BadgeOpen: string := "<span class=\"article-tag\">"
  const BadgeClose: string := "</span>"

  function Badge(tag: string): string {
    BadgeOpen + tag + BadgeClose
  }

  function Badges(tags: seq<string>): (r: seq<string>)
    ensures |r| == |tags|
    ensures forall i | 0 <= i < |tags| :: r[i] == Badge(tags[i])
  {
    seq(|tags|, i requires 0 <= i < |tags| => Badge(tags[i]))
  }

  /** One badge per tag, in order, joined by newlines; empty exactly when there
      are no tags. */
  function TagsHtml(tags: seq<string>): (r: string)
    ensures r == "" <==> |tags| == 0
  {
    var r := Join(Badges(tags), "\n");
    assert |tags| > 0 ==> |r| >= |Badge(tags[0])|;
    r
  }

  /** The tags a badge list names. */
  function ReadTags(html: string): Option<seq<string>> {
    if html == "" then Some([]) else ReadBadges(SplitOn(html, "\n"))
  }

  function ReadBadges(parts: seq<string>): (r: Option<seq<string>>)
    ensures r.Some? ==> |r.value| == |parts|
  {
    if |parts| == 0 then Some([])
    else match (StripAffixes(parts[0], BadgeOpen, BadgeClose), ReadBadges(parts[1..]))
      case (Some(t), Some(ts)) => Some([t] + ts)
      case _ => None
  }

  lemma {:induction false} ReadBadgesOfBadges(tags: seq<string>)
    ensures ReadBadges(Badges(tags)) == Some(tags)
  {
    if |tags| > 0 {
      StripAffixesOf(BadgeOpen, tags[0], BadgeClose);
      assert Badges(tags)[1..] == Badges(tags[1..]);
      ReadBadgesOfBadges(tags[1..]);
      assert tags == [tags[0]] + tags[1..];
    }
  }

  /** The badge list determines the tags, provided no tag holds a newline. */
  lemma {:induction false} TagsRoundTrip(tags: seq<string>)
    requires forall i | 0 <= i < |tags| :: '\n' !in tags[i]
    ensures ReadTags(TagsHtml(tags)) == Some(tags)
  {
    if |tags| > 0 {
      var badges := Badges(tags);
      forall i | 0 <= i < |badges|
        ensures '\n' !in badges[i]
      {
        var b := badges[i];
        assert b == BadgeOpen + tags[i] + BadgeClose;
        forall k | 0 <= k < |b|
          ensures b[k] != '\n'
        {
          if k < |BadgeOpen| {
            assert b[k] == BadgeOpen[k];
          } else if k < |BadgeOpen| + |tags[i]| {
            assert b[k] == tags[i][k - |BadgeOpen|];
          } else {
            assert b[k] == BadgeClose[k - |BadgeOpen| - |tags[i]|];
          }
        }
      }
      SplitJoinChar(badges, '\n');
      ReadBadgesOfBadges(tags);
    }
  }

  // ---------------------------------------------------------------------
  // Header image
  // ---------------------------------------------------------------------

  const HeaderOpen: string := "<div class=\"article-header-image\"><img src=\"../../blog/images/"
  const HeaderMiddle: string := "\"" + " alt=\""
  const HeaderClose: string := "\"></div>"

  /** The header image fragment: empty exactly when the post has no image. */
  function HeaderImage(image: string, title: string): (r: string)
    ensures r == "" <==> image == ""
  {
    if image == "" then "" else HeaderOpen + image + HeaderMiddle + title + HeaderClose
  }

  /** The image file and alternative text a header fragment names. */
  function ReadHeaderImage(html: string): Option<(string, string)> {
    StripTwo(html, HeaderOpen, HeaderMiddle, HeaderClose)
  }

  lemma {:induction false} HeaderImageRoundTrip(image: string, title: string)
    requires image != "" && '"' !in image
    ensures ReadHeaderImage(HeaderImage(image, title)) == Some((image, title))
  {
    assert HeaderMiddle[0] == '"';
    StripTwoRoundTrip(HeaderOpen, image, HeaderMiddle, title, HeaderClose);
  }

  // ---------------------------------------------------------------------
  // Template substitution
  // ---------------------------------------------------------------------

  /** The template token for a placeholder name. */
  function Tok(name: string): (t: string)
    ensures |t| == |name| + 4
  {
    "{{" + name + "}}"
  }

  /** The placeholder names, in the order the generator replaces them. */
  const Names: seq<string> :=
    ["title", "date", "reading_time", "tags_html", "excerpt", "content", "prev_post", "next_post", "header_image"]

  /** Replaces every token `Tok(names[i])` by `values[i]`, one name after the
      other. */
  function Substitute(html: string, names: seq<string>, values: seq<string>): string
    requires |names| == |values|
    decreases |names|
  {
    if |names| == 0 then html
    else Substitute(ReplaceAll(html, Tok(names[0]), values[0]), names[1..], values[1..])
  }

  /** The replacement values of an article, in the order of `Names`. */
  function ArticleValues(post: Post, all: seq<Post>): (vs: seq<string>)
    ensures |vs| == |Names|
    ensures vs[6] == "" <==> NeighboursOf(post, all).prev.None?
    ensures vs[7] == "" <==> NeighboursOf(post, all).next.None?
    ensures vs[8] == "" <==> post.image == ""
  {
    var nav := NavFragments(NeighboursOf(post, all));
    [post.title, post.dateFormatted, NatToString(post.readingTime), TagsHtml(post.tags),
     post.excerpt, post.content, nav.0, nav.1, HeaderImage(post.image, post.title)]
  }

  /** `generate_article_html`. */
  function ArticleHtml(post: Post, template: string, all: seq<Post>): string {
    Substitute(template, Names, ArticleValues(post, all))
  }

  /** A template that holds none of the tokens comes back unchanged. */
  lemma {:induction false} NoTokensUnchanged(html: string, names: seq<string>, values: seq<string>)
    requires |names| == |values|
    requires forall i | 0 <= i < |names| :: !Contains(html, Tok(names[i]))
    ensures Substitute(html, names, values) == html
  {
    if |names| > 0 {
      ReplaceAbsent(html, Tok(names[0]), values[0]);
      NoTokensUnchanged(html, names[1..], values[1..]);
    }
  }

  lemma {:induction false} TemplateWithoutTokens(post: Post, template: string, all: seq<Post>)
    requires forall i | 0 <= i < |Names| :: !Contains(template, Tok(Names[i]))
    ensures ArticleHtml(post, template, all) == template
  {
    NoTokensUnchanged(template, Names, ArticleValues(post, all));
  }

  // A template seen as literal text and placeholders.

  datatype Piece = Lit(text: string) | Slot(name: string)

  function Render(ps: seq<Piece>): string {
    if |ps| == 0 then ""
    else (match ps[0] case Lit(t) => t case Slot(n) => Tok(n)) + Render(ps[1..])
  }

  predicate NoOpenBrace(s: string) {
    '{' !in s
  }

  /** A placeholder name: non-empty and free of braces. */
  predicate GoodName(n: string) {
    |n| > 0 && '{' !in n && '}' !in n
  }

  /** Literal text without `{` and placeholders with good names. */
  predicate WellShaped(ps: seq<Piece>) {
    forall i | 0 <= i < |ps| ::
      (ps[i].Lit? ==> NoOpenBrace(ps[i].text)) && (ps[i].Slot? ==> GoodName(ps[i].name))
  }

  /** The value of the first entry for `n`. */
  function Lookup(n: string, names: seq<string>, values: seq<string>): (r: Option<string>)
    requires |names| == |values|
    ensures r.Some? <==> n in names
  {
    if |names| == 0 then None
    else if names[0] == n then Some(values[0])
    else Lookup(n, names[1..], values[1..])
  }

  /** Every placeholder replaced at once by its value; unknown placeholders are
      kept as written. */
  function Simultaneous(ps: seq<Piece>, names: seq<string>, values: seq<string>): string
    requires |names| == |values|
  {
    if |ps| == 0 then ""
    else
      (match ps[0]
       case Lit(t) => t
       case Slot(n) => (match Lookup(n, names, values) case Some(v) => v case None => Tok(n)))
      + Simultaneous(ps[1..], names, values)
  }

  /** The pieces with placeholder `n` turned into the literal `v`. */
  function Fill(ps: seq<Piece>, n: string, v: string): (r: seq<Piece>)
    ensures |r| == |ps|
  {
    if |ps| == 0 then []
    else [if ps[0] == Slot(n) then Lit(v) else ps[0]] + Fill(ps[1..], n, v)
  }

  /** A token is not found at the start of a different token. */
  lemma {:induction false} OtherTokenAhead(n: string, m: string, rest: string, v: string)
    requires GoodName(n) && GoodName(m) && n != m
    ensures ReplaceAll(Tok(n) + rest, Tok(m), v) == Tok(n) + ReplaceAll(rest, Tok(m), v)
  {
    var s := Tok(n) + rest;
    var p := Tok(m);
    assert !OccursAt(s, p, 0) by {
      if |p| <= |s| {
        var q := s[..|p|];
        if |m| < |n| {
          assert q[2 + |m|] == n[|m|] && p[2 + |m|] == '}';
        } else if |m| > |n| {
          assert q[2 + |n|] == '}' && p[2 + |n|] == m[|n|];
        } else {
          var k :| 0 <= k < |n| && n[k] != m[k];
          assert q[2 + k] == n[k] && p[2 + k] == m[k];
        }
      }
    }
    assert s[0] == '{' && s[1..] == ("{" + n + "}}") + rest;
    var s1 := s[1..];
    assert !OccursAt(s1, p, 0) by {
      if |p| <= |s1| {
        assert s1[..|p|][1] == n[0] && p[1] == '{';
      }
    }
    assert s1[0] == '{' && s1[1..] == (n + "}}") + rest;
    forall k | 0 <= k < |n + "}}"|
      ensures (n + "}}")[k] != p[0]
    {
      if k < |n| {
        assert (n + "}}")[k] == n[k];
      }
    }
    ReplaceSkipsPrefix(n + "}}", rest, p, v);
    assert Tok(n) + rest == "{" + ("{" + (n + "}}" + rest));
  }

  /** Literal text without `{` is copied through a replacement step. */
  lemma {:induction false} LiteralAhead(t: string, rest: string, m: string, v: string)
    requires NoOpenBrace(t) && GoodName(m)
    ensures ReplaceAll(t + rest, Tok(m), v) == t + ReplaceAll(rest, Tok(m), v)
  {
    assert Tok(m)[0] == '{';
    ReplaceSkipsPrefix(t, rest, Tok(m), v);
  }

  /** One replacement step on a well-shaped template turns the placeholder into
      literal text. */
  lemma {:induction false} ReplaceStep(ps: seq<Piece>, m: string, v: string)
    requires WellShaped(ps) && GoodName(m) && NoOpenBrace(v)
    ensures ReplaceAll(Render(ps), Tok(m), v) == Render(Fill(ps, m, v))
    ensures WellShaped(Fill(ps, m, v))
  {
    if |ps| == 0 {
      assert ReplaceAll("", Tok(m), v) == "";
    } else {
      var rest := Render(ps[1..]);
      assert WellShaped(ps[1..]) by {
        assert forall i | 0 <= i < |ps[1..]| :: ps[1..][i] == ps[i + 1];
      }
      ReplaceStep(ps[1..], m, v);
      var f := Fill(ps, m, v);
      assert f[1..] == Fill(ps[1..], m, v);
      match ps[0]
      case Lit(t) =>
        LiteralAhead(t, rest, m, v);
      case Slot(n) =>
        if n == m {
          var s := Tok(m) + rest;
          assert s[..|Tok(m)|] == Tok(m);
          assert s[|Tok(m)|..] == rest;
        } else {
          OtherTokenAhead(n, m, rest, v);
        }
    }
  }

  /** Filling the first name leaves the simultaneous substitution over the
      remaining names unchanged. */
  lemma {:induction false} FillThenRest(ps: seq<Piece>, names: seq<string>, values: seq<string>)
    requires |names| == |values| && |names| > 0
    ensures Simultaneous(Fill(ps, names[0], values[0]), names[1..], values[1..]) == Simultaneous(ps, names, values)
  {
    if |ps| > 0 {
      FillThenRest(ps[1..], names, values);
      assert Fill(ps, names[0], values[0])[1..] == Fill(ps[1..], names[0], values[0]);
    }
  }

  /** The nine sequential replacements agree with replacing every placeholder
      at once, as long as no literal text and no value holds `{`: then no step
      can create or destroy another step's token. */
  lemma {:induction false} SequentialIsSimultaneous(ps: seq<Piece>, names: seq<string>, values: seq<string>)
    requires |names| == |values|
    requires WellShaped(ps)
    requires forall i | 0 <= i < |names| :: GoodName(names[i]) && NoOpenBrace(values[i])
    ensures Substitute(Render(ps), names, values) == Simultaneous(ps, names, values)
    decreases |names|
  {
    if |names| == 0 {
      RenderWithNoNames(ps, names, values);
    } else {
      ReplaceStep(ps, names[0], values[0]);
      SequentialIsSimultaneous(Fill(ps, names[0], values[0]), names[1..], values[1..]);
      FillThenRest(ps, names, values);
    }
  }

  lemma {:induction false} RenderWithNoNames(ps: seq<Piece>, names: seq<string>, values: seq<string>)
    requires |names| == |values| == 0
    ensures Render(ps) == Simultaneous(ps, names, values)
  {
    if |ps| > 0 {
      RenderWithNoNames(ps[1..], names, values);
    }
  }

  /** When every placeholder is a known name, the result holds no `{`, so no
      token of any name is left. */
  lemma {:induction false} NoBraceLeft(ps: seq<Piece>, names: seq<string>, values: seq<string>)
    requires |names| == |values|
    requires WellShaped(ps)
    requires forall i | 0 <= i < |ps| :: ps[i].Slot? ==> ps[i].name in names
    requires forall i | 0 <= i < |values| :: NoOpenBrace(values[i])
    ensures NoOpenBrace(Simultaneous(ps, names, values))
  {
    if |ps| > 0 {
      assert WellShaped(ps[1..]) by {
        assert forall i | 0 <= i < |ps[1..]| :: ps[1..][i] == ps[i + 1];
      }
      NoBraceLeft(ps[1..], names, values);
      if ps[0].Slot? {
        LookupIsAValue(ps[0].name, names, values);
      }
    }
  }

  lemma {:induction false} LookupIsAValue(n: string, names: seq<string>, values: seq<string>)
    requires |names| == |values|
    ensures Lookup(n, names, values).Some? ==> Lookup(n, names, values).value in values
  {
    if |names| > 0 && names[0] != n {
      LookupIsAValue(n, names[1..], values[1..]);
    }
  }

  lemma {:induction false} NamesAreGood()
    ensures forall i | 0 <= i < |Names| :: GoodName(Names[i])
  {
  }

  /** A text without `{` holds no token. */
  lemma {:induction false} NoTokenWithoutBrace(out: string, n: string)
    requires NoOpenBrace(out)
    ensures !Contains(out, Tok(n))
  {
    forall i: nat | i <= |out|
      ensures !OccursAt(out, Tok(n), i)
    {
      if i + |Tok(n)| <= |out| {
        assert out[i..i + |Tok(n)|][0] == out[i];
      }
    }
  }

  /** A page filled from a well-shaped template whose values hold no `{`: every
      known placeholder is replaced by its value at once, and when the template
      uses only known placeholders no token of any name remains. */
  lemma {:induction false} WellShapedTemplate(ps: seq<Piece>, values: seq<string>)
    requires |values| == |Names|
    requires WellShaped(ps)
    requires forall i | 0 <= i < |Names| :: NoOpenBrace(values[i])
    ensures Substitute(Render(ps), Names, values) == Simultaneous(ps, Names, values)
    ensures (forall i | 0 <= i < |ps| :: ps[i].Slot? ==> ps[i].name in Names) ==>
      forall n :: !Contains(Substitute(Render(ps), Names, values), Tok(n))
  {
    NamesAreGood();
    SequentialIsSimultaneous(ps, Names, values);
    if forall i | 0 <= i < |ps| :: ps[i].Slot? ==> ps[i].name in Names {
      NoBraceLeft(ps, Names, values);
      forall n
        ensures !Contains(Substitute(Render(ps), Names, values), Tok(n))
      {
        NoTokenWithoutBrace(Substitute(Render(ps), Names, values), n);
      }
    }
  }

  /** Because the steps run one after the other, a value inserted early is
      rewritten by a later step: a title spelled as the date token, in a
      template that is just the title token, shows the date. */
  lemma {:induction false} TitleHoldingDateToken(values: seq<string>)
    requires |values| == |Names| && values[0] == Tok("date")
    requires forall i | 1 <= i < |Names| :: NoOpenBrace(values[i])
    ensures Substitute(Tok("title"), Names, values) == values[1]
  {
    NamesAreGood();
    EarlyValueRewritten(Names, values);
  }

  lemma {:induction false} EarlyValueRewritten(names: seq<string>, values: seq<string>)
    requires |names| == |values| >= 2
    requires forall i | 0 <= i < |names| :: GoodName(names[i])
    requires values[0] == Tok(names[1])
    requires forall i | 1 <= i < |names| :: NoOpenBrace(values[i])
    ensures Substitute(Tok(names[0]), names, values) == values[1]
  {
    var rest, later := names[1..], values[1..];
    FirstStepTakesWholeToken(names[0], values[0]);
    assert Substitute(Tok(names[0]), names, values) == Substitute(Tok(names[1]), rest, later);
    var ps := [Slot(names[1])];
    assert Render(ps) == Tok(names[1]) + Render([]);
    assert forall i | 0 <= i < |rest| :: GoodName(rest[i]) && NoOpenBrace(later[i]);
    assert WellShaped(ps);
    SequentialIsSimultaneous(ps, rest, later);
    assert Simultaneous(ps, rest, later) == later[0] + Simultaneous([], rest, later);
  }

  /** A text that is exactly one token becomes the replacement value. */
  lemma {:induction false} FirstStepTakesWholeToken(n: string, v: string)
    ensures ReplaceAll(Tok(n), Tok(n), v) == v
  {
    var s := Tok(n);
    assert OccursAt(s, s, 0);
    assert s[|s|..] == "";
    assert ReplaceAll("", s, v) == "";
  }

  /** A later step can also create a token an earlier step would have
      replaced: the template `{{tit{{date}}le}}` with an empty date leaves
      `{{title}}` in the page although no value contains it. */
  lemma {:induction false} TokenJoinedByLaterStep(values: seq<string>)
    requires |values| == |Names| && values[1] == ""
    requires forall i | 2 <= i < |Names| :: NoOpenBrace(values[i])
    ensures Substitute("{{tit{{date}}le}}", Names, values) == Tok("title")
  {
    NamesAreGood();
    TitleNotInJoined("{{tit{{date}}le}}", Names[0]);
    assert "{{" + "tit" + Tok(Names[1]) + "le" + "}}" == "{{tit{{date}}le}}";
    JoinedToken("tit", "le", Names, values);
  }

  /** The general form: `{{a{{m}}b}}` with an empty value for `m`, where the
      name `a + b` comes first and `m` second. */
  lemma {:induction false} JoinedToken(a: string, b: string, names: seq<string>, values: seq<string>)
    requires |names| == |values| >= 2 && values[1] == ""
    requires GoodName(a) && NoOpenBrace(b) && '}' !in b && names[0] == a + b
    requires GoodName(names[1]) && a[0] != names[1][0]
    requires !Contains("{{" + a + Tok(names[1]) + b + "}}", Tok(names[0]))
    requires forall i | 2 <= i < |names| :: GoodName(names[i]) && names[i] != names[0] && NoOpenBrace(values[i])
    ensures Substitute("{{" + a + Tok(names[1]) + b + "}}", names, values) == Tok(a + b)
  {
    var s := "{{" + a + Tok(names[1]) + b + "}}";
    TwoSteps(s, names, values);
    ReplaceAbsent(s, Tok(names[0]), values[0]);
    JoinedDateRemoved(a, names[1], b, values[1]);
    EmptyBetween(a, values[1], b);
    assert forall i | 0 <= i < |names[2..]| :: names[2..][i] == names[i + 2];
    LaterStepsKeepToken(a + b, names[2..], values[2..]);
  }

  lemma {:induction false} EmptyBetween(a: string, v: string, b: string)
    requires v == ""
    ensures "{{" + a + v + b + "}}" == Tok(a + b)
  {
    assert a + v == a;
  }

  lemma {:induction false} TwoSteps(s: string, names: seq<string>, values: seq<string>)
    requires |names| == |values| >= 2
    ensures Substitute(s, names, values)
      == Substitute(ReplaceAll(ReplaceAll(s, Tok(names[0]), values[0]), Tok(names[1]), values[1]), names[2..], values[2..])
  {
    assert names[1..][1..] == names[2..] && values[1..][1..] == values[2..];
  }

  lemma {:induction false} TitleNotInJoined(s: string, n: string)
    requires s == "{{tit{{date}}le}}" && n == "title"
    ensures !Contains(s, Tok(n))
  {
    var t := Tok(n);
    assert t[2] == 't' && t[6] == 'e';
    forall i: nat | i <= |s|
      ensures !OccursAt(s, t, i)
    {
      if i + 9 <= |s| {
        assert s[i..i + 9][2] == s[i + 2];
        assert s[i..i + 9][6] == s[i + 6];
      }
    }
  }

  /** The step for `m` on `{{a{{m}}b}}` puts the value between the halves;
      with an empty value they join into a token. */
  lemma {:induction false} JoinedDateRemoved(a: string, m: string, b: string, v: string)
    requires GoodName(a) && GoodName(m) && NoOpenBrace(b) && a[0] != m[0]
    ensures ReplaceAll("{{" + a + Tok(m) + b + "}}", Tok(m), v) == "{{" + a + v + b + "}}"
  {
    var d := Tok(m);
    var q := b + "}}";
    var s := "{{" + a + d + b + "}}";
    var r := a + (d + q);
    assert s == "{" + ("{" + r);
    assert !OccursAt(s, d, 0) by {
      assert s[2] == a[0] && d[2] == m[0];
      if |d| <= |s| {
        assert s[0..|d|][2] == s[2];
      }
    }
    assert s[1..] == "{" + r;
    assert !OccursAt(s[1..], d, 0) by {
      assert s[1..][1] == a[0] && d[1] == '{';
      if |d| <= |s[1..]| {
        assert s[1..][0..|d|][1] == s[1..][1];
      }
    }
    assert s[1..][1..] == r;
    assert ReplaceAll(s, d, v) == [s[0]] + ReplaceAll(s[1..], d, v);
    assert ReplaceAll(s[1..], d, v) == [s[1]] + ReplaceAll(r, d, v);
    DateStepTail(a, m, q, v);
    BracesAround(a, v, b);
  }

  lemma BracesAround(a: string, v: string, b: string)
    ensures ['{'] + (['{'] + (a + v + (b + "}}"))) == "{{" + a + v + b + "}}"
  {
  }

  lemma {:induction false} DateStepTail(a: string, m: string, q: string, v: string)
    requires GoodName(a) && GoodName(m) && NoOpenBrace(q)
    ensures ReplaceAll(a + (Tok(m) + q), Tok(m), v) == a + v + q
  {
    var d := Tok(m);
    assert d[0] == '{';
    ReplaceSkipsPrefix(a, d + q, d, v);
    assert OccursAt(d + q, d, 0);
    assert (d + q)[|d|..] == q;
    LiteralAhead(q, "", m, v);
    assert q + "" == q;
    assert ReplaceAll("", d, v) == "";
  }

  /** Steps for other names leave a lone token alone. */
  lemma {:induction false} LaterStepsKeepToken(n: string, names: seq<string>, values: seq<string>)
    requires |names| == |values| && GoodName(n) && n !in names
    requires forall i | 0 <= i < |names| :: GoodName(names[i]) && NoOpenBrace(values[i])
    ensures Substitute(Tok(n), names, values) == Tok(n)
  {
    var ps := [Slot(n)];
    assert Render(ps) == Tok(n) + Render([]);
    assert Tok(n) + "" == Tok(n);
    assert Simultaneous([], names, values) == "";
    assert WellShaped(ps);
    SequentialIsSimultaneous(ps, names, values);
    assert Lookup(n, names, values) == None;
    assert ps[1..] == [];
    assert Simultaneous(ps, names, values) == Tok(n) + Simultaneous([], names, values);
  }
}
