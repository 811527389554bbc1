/**
  The listing page: `generate_blog_card`, the cards block of
  `update_blog_listing`, and the `re.sub` that splices that block between the
  listing markers of `blog.html`.

  The fixed text of a card is held in two records. `Frame` is the text right
  next to the fields, whose characters reading a card back relies on; `Filler`
  is the rest, which reading skips by its length. `Site` and `SiteFiller` are
  the generator's own. The results are stated for any well-formed frame and
  any filler, and `SiteWellFormed` shows that `Site` is well formed.
*/
module Listing {
  import opened Common
  import opened Text
  import opened Posts
  import opened Ordering

  // ---------------------------------------------------------------------
  // The fixed text of a card
  // ---------------------------------------------------------------------

  datatype Frame = Frame(
    head: string,             // the opening tag and the indentation of the image fragment
    noPosts: string,          // the listing of a blog without posts
    placeholderOpen: string,  // the first line of the image placeholder
    imgOpen: string,          // the image element up to the file name
    imgClose: string,         // the image element after the alternative text
    tagOpen: string,
    tagClose: string,
    titleClose: string,
    excerptClose: string)

  /** The fixed text of a card between the fields and the newlines and double
      quotes that end them. */
  datatype Filler = Filler(
    placeholder: string,   // the image placeholder after its first line
    imgMiddle: string,     // from the quote after the file name to the alternative text
    meta: string,          // from the line after the image fragment to the date
    dateEnd: string,       // from the line after the date to the tag badge
    titleOpen: string,     // from the line after the tag badge to the slug of the title link
    titleMiddle: string,   // from the quote after `.html` to the title
    excerptOpen: string,   // from the line after the title to the excerpt
    moreOpen: string,      // from the line after the excerpt to the slug of the "Read more" link
    moreClose: string)     // from the quote after `.html` to the end of the card

  const SiteHead: string := "<article class=\"blog-card\">\n    "
  const SiteNoPosts: string := "<p class=\"no-posts\">" + "No posts yet. Check back soon!</p>"
  const SitePlaceholderOpen: string := "<div class=\"blog-card-image-placeholder\">"
  const SiteImgOpen: string := "<img src=\"blog/images/"
  const SiteImgClose: string := "\" class=\"blog-card-image\">"
  const SiteTagOpen: string := "<span class=\"blog-card-tag\">"
  const SiteTagClose: string := "</span>"
  const SiteTitleClose: string := "</a>"
  const SiteExcerptClose: string := "</p>"

  const Site: Frame := Frame(
    head := SiteHead,
    noPosts := SiteNoPosts,
    placeholderOpen := SitePlaceholderOpen,
    imgOpen := SiteImgOpen,
    imgClose := SiteImgClose,
    tagOpen := SiteTagOpen,
    tagClose := SiteTagClose,
    titleClose := SiteTitleClose,
    excerptClose := SiteExcerptClose)

  const FillerPlaceholder: string := "\n        <svg xmlns=\"http://www.w3.org/2000/svg\" viewBox=\"0 0 24 24\" fill=\"none\" stroke=\"currentColor\" stroke-width=\"1.5\" stroke-linecap=\"round\" stroke-linejoin=\"round\">\n            <path d=\"M14.5 2H6a2 2 0 0 0-2 2v16a2 2 0 0 0 2 2h12a2 2 0 0 0 2-2V7.5L14.5 2z\"></path>\n            <polyline points=\"14 2 14 8 20 8\"></polyline>\n            <line x1=\"16\" y1=\"13\" x2=\"8\" y2=\"13\"></line>\n            <line x1=\"16\" y1=\"17\" x2=\"8\" y2=\"17\"></line>\n            <line x1=\"10\" y1=\"9\" x2=\"8\" y2=\"9\"></line>\n        </svg>\n    </div>"
  const FillerImgMiddle: string := " alt=\""
  const FillerMeta: string := "    <div class=\"blog-card-content\">\n        <div class=\"blog-card-meta\">\n            <span class=\"blog-card-date\">\n                <svg xmlns=\"http://www.w3.org/2000/svg\" width=\"14\" height=\"14\" viewBox=\"0 0 24 24\" fill=\"none\" stroke=\"currentColor\" stroke-width=\"2\" stroke-linecap=\"round\" stroke-linejoin=\"round\"><rect x=\"3\" y=\"4\" width=\"18\" height=\"18\" rx=\"2\" ry=\"2\"></rect><line x1=\"16\" y1=\"2\" x2=\"16\" y2=\"6\"></line><line x1=\"8\" y1=\"2\" x2=\"8\" y2=\"6\"></line><line x1=\"3\" y1=\"10\" x2=\"21\" y2=\"10\"></line></svg>\n                "
  const FillerDateEnd: string := "            </span>\n            "
  const FillerTitleOpen: string := "        </div>\n        <h2 class=\"blog-card-title\">\n            <a href=\"blog/articles/"
  const FillerTitleMiddle: string := ">"
  const FillerExcerptOpen: string := "        </h2>\n        <p class=\"blog-card-excerpt\">"
  const FillerMoreOpen: string := "        <a href=\"blog/articles/"
  const FillerMoreClose: string := " class=\"blog-card-link\">\n            Read more\n            <svg xmlns=\"http://www.w3.org/2000/svg\" width=\"16\" height=\"16\" viewBox=\"0 0 24 24\" fill=\"none\" stroke=\"currentColor\" stroke-width=\"2\" stroke-linecap=\"round\" stroke-linejoin=\"round\"><line x1=\"5\" y1=\"12\" x2=\"19\" y2=\"12\"></line><polyline points=\"12 5 19 12 12 19\"></polyline></svg>\n        </a>\n    </div>\n</article>"

  const SiteFiller: Filler := Filler(
    placeholder := FillerPlaceholder,
    imgMiddle := FillerImgMiddle,
    meta := FillerMeta,
    dateEnd := FillerDateEnd,
    titleOpen := FillerTitleOpen,
    titleMiddle := FillerTitleMiddle,
    excerptOpen := FillerExcerptOpen,
    moreOpen := FillerMoreOpen,
    moreClose := FillerMoreClose)

  predicate OneLine(s: string) {
    '\n' !in s
  }

  /** What reading a card back needs of a frame: the text around the one-line
      fields holds no newline, a tag badge is not empty, and the first text of
      each alternative differs in its second character. */
  predicate WellFormed(F: Frame) {
    && |F.head| > 1 && |F.noPosts| > 1 && F.head[1] != F.noPosts[1]
    && |F.placeholderOpen| > 1 && |F.imgOpen| > 1 && F.placeholderOpen[1] != F.imgOpen[1]
    && OneLine(F.imgClose)
    && |F.tagOpen| > 0 && OneLine(F.tagOpen) && OneLine(F.tagClose)
    && OneLine(F.titleClose) && OneLine(F.excerptClose)
  }

  lemma SiteWellFormed()
    ensures WellFormed(Site)
  {
    SiteAlternatives();
    SitePlaceholderStart();
    SiteOneLiners();
  }

  lemma SiteAlternatives()
    ensures |SiteHead| > 1 && SiteHead[1] == 'a'
    ensures |SiteNoPosts| > 1 && SiteNoPosts[1] == 'p'
  {
  }

  lemma SitePlaceholderStart()
    ensures |SitePlaceholderOpen| > 1 && SitePlaceholderOpen[1] == 'd'
    ensures |SiteImgOpen| > 1 && SiteImgOpen[1] == 'i'
  {
  }

  lemma SiteOneLiners()
    ensures OneLine(SiteImgClose) && OneLine(SiteTagClose) && OneLine(SiteTitleClose) && OneLine(SiteExcerptClose)
    ensures |SiteTagOpen| > 0 && OneLine(SiteTagOpen)
  {
  }

  // ---------------------------------------------------------------------
  // One card (`generate_blog_card`)
  // ---------------------------------------------------------------------

  /** What a card shows of a post: the image file (empty for the placeholder),
      the display date, at most one tag, the slug, the title and the excerpt. */
  datatype CardInfo = CardInfo(
    image: string,
    date: string,
    tag: Option<string>,
    slug: string,
    title: string,
    excerpt: string)

  /** A card shows the first tag only, and only when the post has tags. */
  function InfoOf(p: Post): CardInfo {
    CardInfo(p.image, p.dateFormatted, if |p.tags| > 0 then Some(p.tags[0]) else None, p.slug, p.title, p.excerpt)
  }

  /** `image_html`: the placeholder exactly when the post has no image. */
  function ImageHtml(F: Frame, X: Filler, image: string, title: string): (r: string)
    ensures WellFormed(F) ==> (r == F.placeholderOpen + X.placeholder <==> image == "")
  {
    if image == "" then F.placeholderOpen + X.placeholder
    else
      var r := F.imgOpen + image + "\"" + X.imgMiddle + title + F.imgClose;
      assert |F.imgOpen| > 1 ==> r[1] == F.imgOpen[1];
      r
  }

  /** `tags_html` of a card: empty exactly when there is no tag to show. */
  function TagHtml(F: Frame, tag: Option<string>): (r: string)
    ensures |F.tagOpen| > 0 ==> (r == "" <==> tag.None?)
  {
    if tag.Some? then F.tagOpen + tag.value + F.tagClose else ""
  }

  /** The pieces, in order, followed by `rest`. */
  function Concat(ps: seq<string>, rest: string): string {
    if |ps| == 0 then rest else ps[0] + Concat(ps[1..], rest)
  }

  /** The card of `c`, followed by `rest`: the template's fixed text and the
      fields, in order. A field that runs to the end of its line is followed
      by a newline, and an attribute value by a double quote. */
  function RenderCard(F: Frame, X: Filler, c: CardInfo, rest: string): string {
    Concat([F.head, ImageHtml(F, X, c.image, c.title), "\n"],
      Concat(MetaPieces(F, X, c), Concat(TitlePieces(F, X, c), Concat(MorePieces(F, X, c), rest))))
  }

  /** From the line after the image fragment to the line after the tag badge. */
  function MetaPieces(F: Frame, X: Filler, c: CardInfo): seq<string> {
    [X.meta, c.date, "\n", X.dateEnd, TagHtml(F, c.tag), "\n"]
  }

  /** The title link, up to the line after it. */
  function TitlePieces(F: Frame, X: Filler, c: CardInfo): seq<string> {
    [X.titleOpen, c.slug + ".html", "\"", X.titleMiddle, c.title + F.titleClose, "\n"]
  }

  /** The excerpt and the "Read more" link, to the end of the card. */
  function MorePieces(F: Frame, X: Filler, c: CardInfo): seq<string> {
    [X.excerptOpen, c.excerpt + F.excerptClose, "\n", X.moreOpen, c.slug + ".html" + "\"" + X.moreClose]
  }

  lemma {:induction false} Concat3(a: string, b: string, c: string, t: string)
    ensures Concat([a, b, c], t) == a + (b + (c + t))
  {
    assert [a, b, c][1..] == [b, c];
    assert [b, c][1..] == [c];
    assert [c][1..] == [];
    assert Concat([c], t) == c + Concat([], t);
    assert Concat([b, c], t) == b + Concat([c], t);
  }

  lemma {:induction false} Concat5(a: string, b: string, c: string, d: string, e: string, t: string)
    ensures Concat([a, b, c, d, e], t) == a + (b + (c + (d + (e + t))))
  {
    assert [a, b, c, d, e][1..] == [b, c, d, e];
    assert [b, c, d, e][1..] == [c, d, e];
    Concat3(c, d, e, t);
  }

  lemma {:induction false} Concat6(a: string, b: string, c: string, d: string, e: string, f: string, t: string)
    ensures Concat([a, b, c, d, e, f], t) == a + (b + (c + (d + (e + (f + t)))))
  {
    assert [a, b, c, d, e, f][1..] == [b, c, d, e, f];
    Concat5(b, c, d, e, f, t);
  }

  /** `generate_blog_card`: the generator's frame and filler around the
      post's fields (specified by `CardRoundTrip` with `X := SiteFiller`). */
  function Card(p: Post): string {
    RenderCard(Site, SiteFiller, InfoOf(p), "")
  }

  // ---------------------------------------------------------------------
  // Reading a card back
  // ---------------------------------------------------------------------

  /** `s` without its first `n` characters. */
  function Drop(s: string, n: nat): string {
    if n <= |s| then s[n..] else ""
  }

  /** `s` without its last `n` characters. */
  function Trim(s: string, n: nat): string {
    if n <= |s| then s[..|s| - n] else ""
  }

  /** The text of `s` up to the first `c`, and the text after that `c`. */
  function Until(s: string, c: char): (string, string) {
    var i := IndexOf(s, c);
    (s[..i], Drop(s, i + 1))
  }

  /** The image file of the image fragment at the start of `a`, and the text
      after the line break that ends the fragment. */
  function ReadImage(F: Frame, X: Filler, a: string): (string, string) {
    if |a| > 1 && |F.imgOpen| > 1 && a[1] == F.imgOpen[1] then
      var (image, v) := Until(Drop(a, |F.imgOpen|), '"');
      (image, Until(Drop(v, |X.imgMiddle|), '\n').1)
    else ("", Drop(a, |F.placeholderOpen| + |X.placeholder| + 1))
  }

  /** The date and the tag of the card text `b` that starts after the image
      fragment, and the text after the tag badge's line. */
  function ReadMeta(F: Frame, X: Filler, b: string): (Option<string>, string, string) {
    var (date, d) := Until(Drop(b, |X.meta|), '\n');
    var (tags, e) := Until(Drop(d, |X.dateEnd|), '\n');
    (if tags == "" then None else Some(Trim(Drop(tags, |F.tagOpen|), |F.tagClose|)), date, e)
  }

  /** The slug target and the title of the card text `f` that starts after
      the tag badge's line, and the text after the title's line. */
  function ReadTitle(F: Frame, X: Filler, f: string): (string, string, string) {
    var (target, g) := Until(Drop(f, |X.titleOpen|), '"');
    var (title, h) := Until(Drop(g, |X.titleMiddle|), '\n');
    (target, Trim(title, |F.titleClose|), h)
  }

  /** The excerpt of the card text `h` that starts after the title's line,
      and the text after the card, whose slug target has `n` characters. */
  function ReadMore(F: Frame, X: Filler, h: string, n: nat): (string, string) {
    var (excerpt, i) := Until(Drop(h, |X.excerptOpen|), '\n');
    (Trim(excerpt, |F.excerptClose|), Drop(i, |X.moreOpen| + n + 1 + |X.moreClose|))
  }

  /** The fields of the card at the start of `s`, and the text after it;
      `None` when `s` does not start with a card. */
  function ReadCardPrefix(F: Frame, X: Filler, s: string): (r: Option<(CardInfo, string)>)
    ensures r.Some? ==> s == RenderCard(F, X, r.value.0, r.value.1)
  {
    var (image, b) := ReadImage(F, X, Drop(s, |F.head|));
    var (tag, date, f) := ReadMeta(F, X, b);
    var (target, title, h) := ReadTitle(F, X, f);
    var (excerpt, rest) := ReadMore(F, X, h, |target|);
    var c := CardInfo(image, date, tag, Trim(target, 5), title, excerpt);
    if s == RenderCard(F, X, c, rest) then Some((c, rest)) else None
  }

  /** The fields of a card, for text that is exactly one card. */
  function ReadCard(X: Filler, html: string): Option<CardInfo> {
    match ReadCardPrefix(Site, X, html)
    case Some((c, rest)) => if rest == "" then Some(c) else None
    case None => None
  }

  /** The fields a card shows unambiguously: the date, the tag, the title and
      the excerpt are one line each, and the image file and the slug hold no
      double quote (they sit inside attribute values). */
  predicate Readable(c: CardInfo) {
    && OneLine(c.date) && OneLine(c.title) && OneLine(c.excerpt)
    && (c.tag.Some? ==> OneLine(c.tag.value))
    && '"' !in c.image && '"' !in c.slug
  }

  lemma DropFront(x: string, y: string)
    ensures Drop(x + y, |x|) == y
  {
  }

  lemma TrimBack(x: string, y: string)
    ensures Trim(x + y, |y|) == x
  {
    assert (x + y)[..|x|] == x;
  }

  /** A field up to a delimiter it does not hold reads back, with the text
      after the delimiter. */
  lemma {:induction false} UntilFront(x: string, c: char, t: string)
    requires c !in x
    ensures Until(x + ([c] + t), c) == (x, t)
  {
    var s := x + ([c] + t);
    assert s[|x|] == c;
    assert forall k | 0 <= k < |x| :: s[k] == x[k];
    assert s[..|x|] == x;
    assert s[|x| + 1..] == t;
  }

  lemma {:induction false} OneLineJoin(a: string, b: string)
    requires OneLine(a) && OneLine(b)
    ensures OneLine(a + b)
  {
  }

  lemma {:induction false} NoQuoteHtml(slug: string)
    requires '"' !in slug
    ensures '"' !in slug + ".html"
  {
    var target := slug + ".html";
    assert forall k | 0 <= k < |target| :: target[k] == (if k < |slug| then slug[k] else ".html"[k - |slug|]);
  }

  /** The image fragment reads back as its file name. */
  lemma {:induction false} ImageReadBack(F: Frame, X: Filler, image: string, title: string, t: string)
    requires WellFormed(F) && '"' !in image && OneLine(title)
    ensures ReadImage(F, X, ImageHtml(F, X, image, title) + ("\n" + t)) == (image, t)
  {
    if image == "" {
      PlaceholderReadBack(F, X, t);
    } else {
      ImgReadBack(F, X, image, title, t);
    }
  }

  lemma {:induction false} PlaceholderReadBack(F: Frame, X: Filler, t: string)
    requires WellFormed(F)
    ensures ReadImage(F, X, ImageHtml(F, X, "", "") + ("\n" + t)) == ("", t)
  {
    var a := F.placeholderOpen + X.placeholder + ("\n" + t);
    assert a == F.placeholderOpen + X.placeholder + "\n" + t;
    assert a[1] == F.placeholderOpen[1];
    DropFront(F.placeholderOpen + X.placeholder + "\n", t);
  }

  lemma {:induction false} ImgReadBack(F: Frame, X: Filler, image: string, title: string, t: string)
    requires WellFormed(F) && '"' !in image && image != "" && OneLine(title)
    ensures ReadImage(F, X, ImageHtml(F, X, image, title) + ("\n" + t)) == (image, t)
  {
    var line := title + F.imgClose;
    var v := X.imgMiddle + (line + ("\n" + t));
    var a := F.imgOpen + (image + ("\"" + v));
    assert ImageHtml(F, X, image, title) + ("\n" + t) == a;
    assert a[1] == F.imgOpen[1];
    DropFront(F.imgOpen, image + ("\"" + v));
    UntilFront(image, '"', v);
    DropFront(X.imgMiddle, line + ("\n" + t));
    OneLineJoin(title, F.imgClose);
    UntilFront(line, '\n', t);
  }

  /** The date line and the tag badge's line read back as the date and the
      tag. */
  lemma {:induction false} MetaReadBack(F: Frame, X: Filler, c: CardInfo, t: string)
    requires WellFormed(F) && OneLine(c.date) && (c.tag.Some? ==> OneLine(c.tag.value))
    ensures ReadMeta(F, X, Concat(MetaPieces(F, X, c), t)) == (c.tag, c.date, t)
  {
    Concat6(X.meta, c.date, "\n", X.dateEnd, TagHtml(F, c.tag), "\n", t);
    var e := X.dateEnd + (TagHtml(F, c.tag) + ("\n" + t));
    DropFront(X.meta, c.date + ("\n" + e));
    UntilFront(c.date, '\n', e);
    DropFront(X.dateEnd, TagHtml(F, c.tag) + ("\n" + t));
    TagReadBack(F, c.tag);
    UntilFront(TagHtml(F, c.tag), '\n', t);
  }

  lemma {:induction false} TagReadBack(F: Frame, tag: Option<string>)
    requires WellFormed(F) && (tag.Some? ==> OneLine(tag.value))
    ensures OneLine(TagHtml(F, tag))
    ensures var tags := TagHtml(F, tag);
      tag == if tags == "" then None else Some(Trim(Drop(tags, |F.tagOpen|), |F.tagClose|))
  {
    if tag.Some? {
      OneLineJoin(F.tagOpen, tag.value);
      OneLineJoin(F.tagOpen + tag.value, F.tagClose);
      var tags := TagHtml(F, tag);
      assert tags == F.tagOpen + (tag.value + F.tagClose);
      DropFront(F.tagOpen, tag.value + F.tagClose);
      TrimBack(tag.value, F.tagClose);
    }
  }

  /** The title link reads back as the slug target and the title. */
  lemma {:induction false} TitleReadBack(F: Frame, X: Filler, c: CardInfo, t: string)
    requires WellFormed(F) && '"' !in c.slug && OneLine(c.title)
    ensures ReadTitle(F, X, Concat(TitlePieces(F, X, c), t)) == (c.slug + ".html", c.title, t)
  {
    Concat6(X.titleOpen, c.slug + ".html", "\"", X.titleMiddle, c.title + F.titleClose, "\n", t);
    var g := X.titleMiddle + (c.title + F.titleClose + ("\n" + t));
    DropFront(X.titleOpen, c.slug + ".html" + ("\"" + g));
    NoQuoteHtml(c.slug);
    UntilFront(c.slug + ".html", '"', g);
    DropFront(X.titleMiddle, c.title + F.titleClose + ("\n" + t));
    OneLineJoin(c.title, F.titleClose);
    UntilFront(c.title + F.titleClose, '\n', t);
    TrimBack(c.title, F.titleClose);
  }

  /** The excerpt and the "Read more" link read back as the excerpt, with the
      text after the card. */
  lemma {:induction false} MoreReadBack(F: Frame, X: Filler, c: CardInfo, rest: string)
    requires WellFormed(F) && OneLine(c.excerpt)
    ensures ReadMore(F, X, Concat(MorePieces(F, X, c), rest), |c.slug + ".html"|) == (c.excerpt, rest)
  {
    Concat5(X.excerptOpen, c.excerpt + F.excerptClose, "\n", X.moreOpen, c.slug + ".html" + "\"" + X.moreClose, rest);
    var more := X.moreOpen + (c.slug + ".html" + "\"" + X.moreClose + rest);
    DropFront(X.excerptOpen, c.excerpt + F.excerptClose + ("\n" + more));
    OneLineJoin(c.excerpt, F.excerptClose);
    UntilFront(c.excerpt + F.excerptClose, '\n', more);
    TrimBack(c.excerpt, F.excerptClose);
    MoreTail(X.moreOpen, c.slug + ".html", X.moreClose, rest);
  }

  lemma MoreTail(open: string, target: string, close: string, rest: string)
    ensures Drop(open + (target + "\"" + close + rest), |open| + |target| + 1 + |close|) == rest
  {
    assert open + (target + "\"" + close + rest) == (open + target + "\"" + close) + rest;
  }

  /** A card followed by any text reads back as the card's fields and that
      text. */
  lemma {:induction false} ReadCardOf(F: Frame, X: Filler, c: CardInfo, rest: string)
    requires WellFormed(F) && Readable(c)
    ensures ReadCardPrefix(F, X, RenderCard(F, X, c, rest)) == Some((c, rest))
  {
    var more := Concat(MorePieces(F, X, c), rest);
    var title := Concat(TitlePieces(F, X, c), more);
    var meta := Concat(MetaPieces(F, X, c), title);
    Concat3(F.head, ImageHtml(F, X, c.image, c.title), "\n", meta);
    DropFront(F.head, ImageHtml(F, X, c.image, c.title) + ("\n" + meta));
    ImageReadBack(F, X, c.image, c.title, meta);
    MetaReadBack(F, X, c, title);
    TitleReadBack(F, X, c, more);
    MoreReadBack(F, X, c, rest);
    TrimBack(c.slug, ".html");
  }

  /** `generate_blog_card` determines what it shows: the fields read back from
      the card, the tag being the post's first tag, if any. */
  lemma {:induction false} CardRoundTrip(X: Filler, p: Post)
    requires Readable(InfoOf(p))
    ensures ReadCard(X, RenderCard(Site, X, InfoOf(p), "")) == Some(InfoOf(p))
    ensures ReadCard(X, RenderCard(Site, X, InfoOf(p), "")).value.tag == if |p.tags| > 0 then Some(p.tags[0]) else None
  {
    SiteWellFormed();
    ReadCardOf(Site, X, InfoOf(p), "");
  }

  /** Concatenating pieces before `u` and then appending `t` is
      concatenating them before `u + t`. */
  lemma {:induction false} ConcatAppend(ps: seq<string>, u: string, t: string)
    ensures Concat(ps, u) + t == Concat(ps, u + t)
    decreases |ps|
  {
    if |ps| > 0 {
      ConcatAppend(ps[1..], u, t);
    }
  }

  /** Rendering a card before `u` and then appending `t` is rendering it
      before `u + t`. */
  lemma {:induction false} RenderAppend(F: Frame, X: Filler, c: CardInfo, u: string, t: string)
    ensures RenderCard(F, X, c, u) + t == RenderCard(F, X, c, u + t)
  {
    var more := Concat(MorePieces(F, X, c), u);
    ConcatAppend(MorePieces(F, X, c), u, t);
    var title := Concat(TitlePieces(F, X, c), more);
    ConcatAppend(TitlePieces(F, X, c), more, t);
    var meta := Concat(MetaPieces(F, X, c), title);
    ConcatAppend(MetaPieces(F, X, c), title, t);
    ConcatAppend([F.head, ImageHtml(F, X, c.image, c.title), "\n"], meta, t);
  }

  /** A card is longer than the text after it. */
  lemma {:induction false} RenderLonger(F: Frame, X: Filler, c: CardInfo, rest: string)
    ensures |RenderCard(F, X, c, rest)| > |rest|
  {
    var meta := Concat(MetaPieces(F, X, c), Concat(TitlePieces(F, X, c), Concat(MorePieces(F, X, c), rest)));
    Concat3(F.head, ImageHtml(F, X, c.image, c.title), "\n", meta);
    ConcatLonger(MetaPieces(F, X, c), Concat(TitlePieces(F, X, c), Concat(MorePieces(F, X, c), rest)));
    ConcatLonger(TitlePieces(F, X, c), Concat(MorePieces(F, X, c), rest));
    ConcatLonger(MorePieces(F, X, c), rest);
  }

  lemma {:induction false} ConcatLonger(ps: seq<string>, rest: string)
    ensures |Concat(ps, rest)| >= |rest|
    decreases |ps|
  {
    if |ps| > 0 {
      ConcatLonger(ps[1..], rest);
    }
  }

  // ---------------------------------------------------------------------
  // The cards block of the listing (`update_blog_listing`)
  // ---------------------------------------------------------------------

  /** What the cards of the posts show, in order. */
  function Infos(ps: seq<Post>): (r: seq<CardInfo>)
    ensures |r| == |ps|
    ensures forall i | 0 <= i < |ps| :: r[i] == InfoOf(ps[i])
  {
    seq(|ps|, i requires 0 <= i < |ps| => InfoOf(ps[i]))
  }

  /** The cards showing `cs`, in order. */
  function Cards(F: Frame, X: Filler, cs: seq<CardInfo>): (r: seq<string>)
    ensures |r| == |cs|
  {
    if |cs| == 0 then [] else [RenderCard(F, X, cs[0], "")] + Cards(F, X, cs[1..])
  }

  /** `cards_html`: the cards of the posts sorted newest first, one after the
      other on separate lines, or the "no posts" paragraph when there are no
      posts. */
  function CardsHtml(F: Frame, X: Filler, posts: seq<Post>): string {
    var sorted := Sort(posts);
    if |sorted| > 0 then Join(Cards(F, X, Infos(sorted)), "\n") else F.noPosts
  }

  /** The generator's cards block. */
  function ListingHtml(posts: seq<Post>): string {
    CardsHtml(Site, SiteFiller, posts)
  }

  /** The cards of text made of cards separated by line breaks. */
  function ReadCards(F: Frame, X: Filler, s: string): Option<seq<CardInfo>>
    decreases |s|
  {
    match ReadCardPrefix(F, X, s)
    case None => None
    case Some((c, rest)) =>
      RenderLonger(F, X, c, rest);
      if rest == "" then Some([c])
      else if rest[0] != '\n' then None
      else
        match ReadCards(F, X, rest[1..])
        case None => None
        case Some(cs) => Some([c] + cs)
  }

  /** What a cards block shows: no cards for the "no posts" paragraph, or the
      cards it holds. */
  function ReadListing(F: Frame, X: Filler, s: string): Option<seq<CardInfo>> {
    if s == F.noPosts then Some([]) else ReadCards(F, X, s)
  }

  /** Joined parts are the first part followed by `t`: nothing, or the
      separator and the other parts joined. */
  lemma {:induction false} JoinFirst(parts: seq<string>, sep: string) returns (t: string)
    requires |parts| > 0
    ensures Join(parts, sep) == parts[0] + t
    ensures |parts| == 1 ==> t == ""
    ensures |parts| > 1 ==> t == sep + Join(parts[1..], sep)
  {
    if |parts| == 1 {
      t := "";
    } else {
      t := sep + Join(parts[1..], sep);
    }
  }

  /** The cards joined by line breaks are the first card followed by `t`:
      nothing, or a line break and the other cards. */
  lemma {:induction false} FirstCard(F: Frame, X: Filler, cs: seq<CardInfo>) returns (t: string)
    requires |cs| > 0
    ensures Join(Cards(F, X, cs), "\n") == RenderCard(F, X, cs[0], t)
    ensures |cs| == 1 ==> t == ""
    ensures |cs| > 1 ==> t == "\n" + Join(Cards(F, X, cs[1..]), "\n")
  {
    var cards := Cards(F, X, cs);
    assert cards[0] == RenderCard(F, X, cs[0], "");
    assert |cs| > 1 ==> cards[1..] == Cards(F, X, cs[1..]);
    t := JoinFirst(cards, "\n");
    RenderAppend(F, X, cs[0], "", t);
    assert "" + t == t;
  }

  /** A last card reads back as itself. */
  lemma {:induction false} ReadLastCard(F: Frame, X: Filler, c: CardInfo)
    requires WellFormed(F) && Readable(c)
    ensures ReadCards(F, X, RenderCard(F, X, c, "")) == Some([c])
  {
    ReadCardOf(F, X, c, "");
  }

  /** A card followed by a line break and more cards reads back as itself and
      those cards. */
  lemma {:induction false} ReadNextCard(F: Frame, X: Filler, c: CardInfo, more: string, cs: seq<CardInfo>)
    requires WellFormed(F) && Readable(c)
    requires ReadCards(F, X, more) == Some(cs)
    ensures ReadCards(F, X, RenderCard(F, X, c, "\n" + more)) == Some([c] + cs)
  {
    ReadCardOf(F, X, c, "\n" + more);
    ReadCardsStep(F, X, RenderCard(F, X, c, "\n" + more), c, more);
  }

  /** Text that starts with a card and a line break reads back as that card
      and what the text after the line break reads back as. */
  lemma {:induction false} ReadCardsStep(F: Frame, X: Filler, s: string, c: CardInfo, more: string)
    requires ReadCardPrefix(F, X, s) == Some((c, "\n" + more))
    ensures ReadCards(F, X, s) == match ReadCards(F, X, more) case None => None case Some(cs) => Some([c] + cs)
  {
    assert ("\n" + more)[1..] == more;
  }

  lemma HeadAndTail<T>(s: seq<T>)
    requires |s| > 0
    ensures s == [s[0]] + s[1..]
    ensures |s| == 1 ==> s == [s[0]]
  {
  }

  /** Cards separated by line breaks read back as what they show. */
  lemma {:induction false} ReadCardsOf(F: Frame, X: Filler, cs: seq<CardInfo>)
    requires WellFormed(F) && |cs| > 0
    requires forall i | 0 <= i < |cs| :: Readable(cs[i])
    ensures ReadCards(F, X, Join(Cards(F, X, cs), "\n")) == Some(cs)
  {
    var t := FirstCard(F, X, cs);
    HeadAndTail(cs);
    if |cs| == 1 {
      ReadLastCard(F, X, cs[0]);
    } else {
      ReadCardsOf(F, X, cs[1..]);
      ReadNextCard(F, X, cs[0], Join(Cards(F, X, cs[1..]), "\n"), cs[1..]);
    }
  }

  /** A card starts with the frame's head. */
  lemma {:induction false} HeadOf(F: Frame, X: Filler, c: CardInfo, t: string)
    requires |F.head| > 1
    ensures |RenderCard(F, X, c, t)| > 1 && RenderCard(F, X, c, t)[1] == F.head[1]
  {
    var meta := Concat(MetaPieces(F, X, c), Concat(TitlePieces(F, X, c), Concat(MorePieces(F, X, c), t)));
    Concat3(F.head, ImageHtml(F, X, c.image, c.title), "\n", meta);
  }

  /** A block of cards is never the "no posts" paragraph. */
  lemma {:induction false} CardsAreNotNoPosts(F: Frame, X: Filler, cs: seq<CardInfo>)
    requires WellFormed(F) && |cs| > 0
    ensures Join(Cards(F, X, cs), "\n") != F.noPosts
  {
    var cards := Cards(F, X, cs);
    assert cards[0] == RenderCard(F, X, cs[0], "");
    var t := JoinFirst(cards, "\n");
    HeadOf(F, X, cs[0], "");
    assert (cards[0] + t)[1] == F.head[1];
  }

  /** The cards block reads back as what the cards of the posts show, newest
      first: no cards exactly when there are no posts. */
  lemma {:induction false} CardsHtmlRoundTrip(F: Frame, X: Filler, posts: seq<Post>)
    requires WellFormed(F)
    requires forall p | p in posts :: Readable(InfoOf(p))
    ensures ReadListing(F, X, CardsHtml(F, X, posts)) == Some(Infos(Sort(posts)))
  {
    var sorted := Sort(posts);
    if |sorted| > 0 {
      forall i | 0 <= i < |sorted|
        ensures Readable(InfoOf(sorted[i]))
      {
        assert sorted[i] in multiset(posts);
      }
      CardsAreNotNoPosts(F, X, Infos(sorted));
      ReadCardsOf(F, X, Infos(sorted));
    }
  }

  /** The generator's cards block reads back, for any filler text, as what the
      cards of the posts show, newest first. */
  lemma {:induction false} ListingRoundTrip(X: Filler, posts: seq<Post>)
    requires forall p | p in posts :: Readable(InfoOf(p))
    ensures ReadListing(Site, X, CardsHtml(Site, X, posts)) == Some(Infos(Sort(posts)))
    ensures ReadListing(Site, X, CardsHtml(Site, X, posts)) == Some([]) <==> |posts| == 0
  {
    SiteWellFormed();
    CardsHtmlRoundTrip(Site, X, posts);
  }

  /** The listing shows the cards in the one order that puts newer posts first
      and keeps posts of equal date in their input order. */
  lemma {:induction false} ListingOrder(X: Filler, posts: seq<Post>, s: seq<Post>)
    requires forall p | p in posts :: Readable(InfoOf(p))
    requires NewestFirst(s) && multiset(s) == multiset(posts)
    requires forall d :: SameDate(s, d) == SameDate(posts, d)
    ensures ReadListing(Site, X, CardsHtml(Site, X, posts)) == Some(Infos(s))
  {
    SortCharacterised(posts, s);
    ListingRoundTrip(X, posts);
  }
}
