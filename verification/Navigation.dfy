/**
  The previous/next links of an article page (`generate_article_html`): the
  posts are sorted newest first, the first post with the article's slug is
  located, the post after it is the older neighbour ("Previous") and the post
  before it the newer one ("Next").
*/
module Navigation {
  import opened Common
  import opened Text
  import opened Dates
  import opened Posts
  import opened Ordering

  function SlugOf(p: Post): string { p.slug }
  function DateOf(p: Post): DateTime { p.date }

  /** No two posts of `s` share a key. */
  ghost predicate Distinct<K>(s: seq<Post>, key: Post -> K) {
    forall i, j | 0 <= i < j < |s| :: key(s[i]) != key(s[j])
  }

  lemma {:induction false} InsertKeepsDistinct<K>(x: Post, s: seq<Post>, key: Post -> K)
    requires Distinct(s, key)
    requires forall k | 0 <= k < |s| :: key(s[k]) != key(x)
    ensures Distinct(Insert(x, s), key)
  {
    if |s| > 0 && !Earlier(s[0].date, x.date) {
      var tail := Insert(x, s[1..]);
      InsertKeepsDistinct(x, s[1..], key);
      assert Insert(x, s) == [s[0]] + tail;
      forall k | 0 <= k < |tail|
        ensures key(s[0]) != key(tail[k])
      {
        if tail[k] != x {
          var m :| 0 <= m < |s[1..]| && s[1..][m] == tail[k];
          assert s[1..][m] == s[m + 1];
        }
      }
    }
  }

  /** Sorting does not create two posts with the same key. */
  lemma {:induction false} SortKeepsDistinct<K>(ps: seq<Post>, key: Post -> K)
    requires Distinct(ps, key)
    ensures Distinct(Sort(ps), key)
  {
    if |ps| > 0 {
      var init, last := ps[..|ps| - 1], ps[|ps| - 1];
      assert ps == init + [last];
      SortKeepsDistinct(init, key);
      var sorted := Sort(init);
      forall k | 0 <= k < |sorted|
        ensures key(sorted[k]) != key(last)
      {
        assert sorted[k] in multiset(init);
        var m :| 0 <= m < |init| && init[m] == sorted[k];
        assert ps[m] == init[m];
      }
      InsertKeepsDistinct(last, sorted, key);
    }
  }

  /** `next((i for i, p in enumerate(s) if p['slug'] == slug), -1)`. */
  function IndexOfSlug(s: seq<Post>, slug: string): (i: int)
    ensures -1 <= i < |s|
    ensures 0 <= i ==> s[i].slug == slug
    ensures forall k | 0 <= k < |s| && (i == -1 || k < i) :: s[k].slug != slug
  {
    if |s| == 0 then -1
    else if s[0].slug == slug then 0
    else
      var j := IndexOfSlug(s[1..], slug);
      assert forall k | 1 <= k < |s| :: s[k] == s[1..][k - 1];
      if j == -1 then -1 else j + 1
  }

  datatype Neighbours = Neighbours(prev: Option<Post>, next: Option<Post>)

  /** The neighbours of `post` in the newest-first order of `all`, indexed
      exactly as the generator indexes them (an absent slug gives index -1). */
  function NeighboursOf(post: Post, all: seq<Post>): (r: Neighbours)
    ensures r.prev.Some? ==> r.prev.value in all
    ensures r.next.Some? ==> r.next.value in all
  {
    var sorted := Sort(all);
    var idx := IndexOfSlug(sorted, post.slug);
    var r := Neighbours(
      if idx < |sorted| - 1 then Some(sorted[idx + 1]) else None,
      if idx > 0 then Some(sorted[idx - 1]) else None);
    assert r.prev.Some? ==> r.prev.value in multiset(all);
    assert r.next.Some? ==> r.next.value in multiset(all);
    r
  }

  /** With distinct dates, newest first means strictly older further on. */
  lemma {:induction false} StrictlyOlderLater(s: seq<Post>, i: nat, j: nat)
    requires NewestFirst(s) && Distinct(s, DateOf)
    requires i < j < |s|
    ensures Earlier(s[j].date, s[i].date)
  {
    assert NotOlder(s[i], s[j]);
    assert DateOf(s[i]) != DateOf(s[j]);
    EarlierIsStrictTotalOrder(s[i].date, s[j].date, s[j].date);
  }

  /** The article's own position in the sorted posts. */
  lemma {:induction false} PositionOfPost(post: Post, all: seq<Post>) returns (idx: nat)
    requires post in all && Distinct(all, SlugOf)
    ensures idx < |Sort(all)| && Sort(all)[idx] == post
    ensures IndexOfSlug(Sort(all), post.slug) == idx
    ensures Distinct(Sort(all), SlugOf)
  {
    var sorted := Sort(all);
    SortKeepsDistinct(all, SlugOf);
    assert post in multiset(sorted);
    var p :| 0 <= p < |sorted| && sorted[p] == post;
    var i := IndexOfSlug(sorted, post.slug);
    assert i != -1 by {
      assert sorted[p].slug == post.slug;
    }
    assert SlugOf(sorted[i]) == post.slug && SlugOf(sorted[p]) == post.slug;
    assert i == p;
    idx := p;
  }

  /** For posts with distinct slugs, whether or not dates repeat, "Previous"
      is another post no newer than the article and "Next" another post no
      older than it. */
  lemma {:induction false} NeighboursInDateOrder(post: Post, all: seq<Post>)
    requires post in all && Distinct(all, SlugOf)
    ensures NeighboursOf(post, all).prev.Some? ==>
      var p := NeighboursOf(post, all).prev.value;
      p.slug != post.slug && !Earlier(post.date, p.date)
    ensures NeighboursOf(post, all).next.Some? ==>
      var n := NeighboursOf(post, all).next.value;
      n.slug != post.slug && !Earlier(n.date, post.date)
  {
    var sorted := Sort(all);
    var idx := PositionOfPost(post, all);
    if idx + 1 < |sorted| {
      assert NotOlder(sorted[idx], sorted[idx + 1]);
      assert SlugOf(sorted[idx]) != SlugOf(sorted[idx + 1]);
    }
    if idx > 0 {
      assert NotOlder(sorted[idx - 1], sorted[idx]);
      assert SlugOf(sorted[idx - 1]) != SlugOf(sorted[idx]);
    }
  }

  /** For posts with distinct slugs and distinct dates, "Previous" is the newest
      post strictly older than the article, and it is missing exactly when no
      post is older. */
  lemma {:induction false} PrevIsNewestOlder(post: Post, all: seq<Post>)
    requires post in all && Distinct(all, SlugOf) && Distinct(all, DateOf)
    ensures NeighboursOf(post, all).prev.Some? <==> exists q | q in all :: Earlier(q.date, post.date)
    ensures NeighboursOf(post, all).prev.Some? ==>
      var p := NeighboursOf(post, all).prev.value;
      Earlier(p.date, post.date) && forall q | q in all && Earlier(q.date, post.date) :: !Earlier(p.date, q.date)
  {
    var sorted := Sort(all);
    var idx := PositionOfPost(post, all);
    SortKeepsDistinct(all, DateOf);
    SameMembers(all, sorted);
    OlderNeighbourInSorted(sorted, idx);
  }

  /** For posts with distinct slugs and distinct dates, "Next" is the oldest
      post strictly newer than the article, and it is missing exactly when no
      post is newer. */
  lemma {:induction false} NextIsOldestNewer(post: Post, all: seq<Post>)
    requires post in all && Distinct(all, SlugOf) && Distinct(all, DateOf)
    ensures NeighboursOf(post, all).next.Some? <==> exists q | q in all :: Earlier(post.date, q.date)
    ensures NeighboursOf(post, all).next.Some? ==>
      var n := NeighboursOf(post, all).next.value;
      Earlier(post.date, n.date) && forall q | q in all && Earlier(post.date, q.date) :: !Earlier(q.date, n.date)
  {
    var sorted := Sort(all);
    var idx := PositionOfPost(post, all);
    SortKeepsDistinct(all, DateOf);
    SameMembers(all, sorted);
    NewerNeighbourInSorted(sorted, idx);
  }

  lemma {:induction false} SameMembers(a: seq<Post>, b: seq<Post>)
    requires multiset(a) == multiset(b)
    ensures forall q :: q in a <==> q in b
  {
    forall q
      ensures q in a <==> q in b
    {
      assert q in a <==> q in multiset(a);
      assert q in b <==> q in multiset(b);
    }
  }

  /** In newest-first order with distinct dates, the post after position `i`
      is the newest of those older than `s[i]`. */
  lemma {:induction false} OlderNeighbourInSorted(s: seq<Post>, i: nat)
    requires NewestFirst(s) && Distinct(s, DateOf) && i < |s|
    ensures i + 1 < |s| <==> exists q | q in s :: Earlier(q.date, s[i].date)
    ensures i + 1 < |s| ==>
      Earlier(s[i + 1].date, s[i].date) && forall q | q in s && Earlier(q.date, s[i].date) :: !Earlier(s[i + 1].date, q.date)
  {
    forall q | q in s && Earlier(q.date, s[i].date)
      ensures i + 1 < |s| && !Earlier(s[i + 1].date, q.date)
    {
      var k :| 0 <= k < |s| && s[k] == q;
      OlderComesAfter(s, i, k);
      if k > i + 1 {
        StrictlyOlderLater(s, i + 1, k);
      }
      EarlierIsStrictTotalOrder(q.date, s[i + 1].date, q.date);
    }
    if i + 1 < |s| {
      StrictlyOlderLater(s, i, i + 1);
      assert s[i + 1] in s;
    }
  }

  /** In newest-first order with distinct dates, the post before position `i`
      is the oldest of those newer than `s[i]`. */
  lemma {:induction false} NewerNeighbourInSorted(s: seq<Post>, i: nat)
    requires NewestFirst(s) && Distinct(s, DateOf) && i < |s|
    ensures i > 0 <==> exists q | q in s :: Earlier(s[i].date, q.date)
    ensures i > 0 ==>
      Earlier(s[i].date, s[i - 1].date) && forall q | q in s && Earlier(s[i].date, q.date) :: !Earlier(q.date, s[i - 1].date)
  {
    forall q | q in s && Earlier(s[i].date, q.date)
      ensures i > 0 && !Earlier(q.date, s[i - 1].date)
    {
      var k :| 0 <= k < |s| && s[k] == q;
      NewerComesBefore(s, i, k);
      if k < i - 1 {
        StrictlyOlderLater(s, k, i - 1);
      }
      EarlierIsStrictTotalOrder(q.date, s[i - 1].date, q.date);
    }
    if i > 0 {
      StrictlyOlderLater(s, i - 1, i);
      assert s[i - 1] in s;
    }
  }

  lemma {:induction false} OlderComesAfter(s: seq<Post>, i: nat, k: nat)
    requires NewestFirst(s) && Distinct(s, DateOf) && i < |s| && k < |s|
    requires Earlier(s[k].date, s[i].date)
    ensures k > i
  {
    if k < i {
      StrictlyOlderLater(s, k, i);
      EarlierIsStrictTotalOrder(s[k].date, s[i].date, s[i].date);
    }
    EarlierIsStrictTotalOrder(s[k].date, s[k].date, s[k].date);
  }

  lemma {:induction false} NewerComesBefore(s: seq<Post>, i: nat, k: nat)
    requires NewestFirst(s) && Distinct(s, DateOf) && i < |s| && k < |s|
    requires Earlier(s[i].date, s[k].date)
    ensures k < i
  {
    if k > i {
      StrictlyOlderLater(s, i, k);
      EarlierIsStrictTotalOrder(s[k].date, s[i].date, s[i].date);
    }
    EarlierIsStrictTotalOrder(s[k].date, s[k].date, s[k].date);
  }

  /** A single post has neither neighbour. */
  lemma {:induction false} SinglePost(p: Post)
    ensures NeighboursOf(p, [p]) == Neighbours(None, None)
  {
    assert Sort([p]) == Insert(p, Sort([])) by {
      assert [p][..0] == [];
    }
  }

  /** Three posts dated D1 > D2 > D3, listed in the input in the order D3,
      D1, D2, with distinct slugs. */
  predicate ThreeInOrder(newest: Post, middle: Post, oldest: Post, all: seq<Post>) {
    && Earlier(oldest.date, middle.date) && Earlier(middle.date, newest.date)
    && newest.slug != middle.slug && middle.slug != oldest.slug && newest.slug != oldest.slug
    && all == [oldest, newest, middle]
  }

  /** The three posts sorted: newest, middle, oldest. */
  lemma {:induction false} ThreeSorted(newest: Post, middle: Post, oldest: Post, all: seq<Post>)
    requires ThreeInOrder(newest, middle, oldest, all)
    ensures Sort(all) == [newest, middle, oldest]
  {
    EarlierIsStrictTotalOrder(middle.date, newest.date, newest.date);
    SortAppend([], oldest);
    assert Sort([oldest]) == [oldest];
    SortAppend([oldest], newest);
    assert Insert(newest, [oldest]) == [newest, oldest];
    AppendThird(oldest, newest, middle);
    SortAppend([oldest, newest], middle);
    InsertSecond(newest, oldest, middle);
  }

  lemma AppendThird(a: Post, b: Post, c: Post)
    ensures [a, b] + [c] == [a, b, c]
  {
  }

  lemma {:induction false} SortAppend(ps: seq<Post>, x: Post)
    ensures Sort(ps + [x]) == Insert(x, Sort(ps))
  {
    assert (ps + [x])[..|ps|] == ps;
  }

  lemma {:induction false} InsertSecond(a: Post, b: Post, x: Post)
    requires !Earlier(a.date, x.date) && Earlier(b.date, x.date)
    ensures Insert(x, [a, b]) == [a, x, b]
  {
    assert [a, b][1..] == [b];
    assert Insert(x, [b]) == [x, b];
  }

  /** Where each slug sits among three posts with distinct slugs. */
  lemma {:induction false} SlugsOfThree(a: Post, b: Post, c: Post)
    requires a.slug != b.slug && b.slug != c.slug && a.slug != c.slug
    ensures IndexOfSlug([a, b, c], a.slug) == 0
    ensures IndexOfSlug([a, b, c], b.slug) == 1
    ensures IndexOfSlug([a, b, c], c.slug) == 2
  {
    assert [a, b, c][1..] == [b, c];
    assert [b, c][1..] == [c];
    assert IndexOfSlug([c], c.slug) == 0;
    assert IndexOfSlug([b, c], c.slug) == 1;
    assert IndexOfSlug([b, c], b.slug) == 0;
  }

  /** The middle of three posts links back to the oldest and forward to the
      newest. */
  lemma {:induction false} ThreePostsMiddle(newest: Post, middle: Post, oldest: Post, all: seq<Post>)
    requires ThreeInOrder(newest, middle, oldest, all)
    ensures NeighboursOf(middle, all) == Neighbours(Some(oldest), Some(newest))
  {
    ThreeSorted(newest, middle, oldest, all);
    SlugsOfThree(newest, middle, oldest);
  }

  /** The newest of three posts has no "Next" and links back to the middle one. */
  lemma {:induction false} ThreePostsNewest(newest: Post, middle: Post, oldest: Post, all: seq<Post>)
    requires ThreeInOrder(newest, middle, oldest, all)
    ensures NeighboursOf(newest, all) == Neighbours(Some(middle), None)
  {
    ThreeSorted(newest, middle, oldest, all);
    SlugsOfThree(newest, middle, oldest);
  }

  /** The oldest of three posts has no "Previous" and links forward to the
      middle one. */
  lemma {:induction false} ThreePostsOldest(newest: Post, middle: Post, oldest: Post, all: seq<Post>)
    requires ThreeInOrder(newest, middle, oldest, all)
    ensures NeighboursOf(oldest, all) == Neighbours(None, Some(middle))
  {
    ThreeSorted(newest, middle, oldest, all);
    SlugsOfThree(newest, middle, oldest);
  }

  /** An article whose slug is not among the posts gets index -1, so its
      "Previous" link points at the newest post and it has no "Next". */
  lemma {:induction false} AbsentSlugLinksNewest(post: Post, all: seq<Post>)
    requires |all| > 0 && forall k | 0 <= k < |all| :: all[k].slug != post.slug
    ensures NeighboursOf(post, all) == Neighbours(Some(Sort(all)[0]), None)
  {
    var sorted := Sort(all);
    forall k | 0 <= k < |sorted|
      ensures sorted[k].slug != post.slug
    {
      assert sorted[k] in multiset(all);
    }
  }

  // ---------------------------------------------------------------------
  // The link fragments
  // ---------------------------------------------------------------------

  const LinkOpen: string := "<a href=\""
  const PrevMiddle: string := "\"" + " class=\"article-nav-link\">\n            \U{2190} Previous\n            <span>"
  const NextMiddle: string := "\"" + " class=\"article-nav-link\" style=\"text-align: right; margin-left: auto;\">\n            Next \U{2192}\n            <span>"
  const LinkClose: string := "</span>\n        </a>"

  /** The "Previous" link to `q`. */
  function PrevLink(q: Post): string {
    LinkOpen + (q.slug + ".html") + PrevMiddle + q.title + LinkClose
  }

  /** The "Next" link to `q`. */
  function NextLink(q: Post): string {
    LinkOpen + (q.slug + ".html") + NextMiddle + q.title + LinkClose
  }

  /** The slug and title a link points at. */
  function ReadLink(html: string, middle: string): (r: Option<(string, string)>)
    requires |middle| > 0
  {
    match StripTwo(html, LinkOpen, middle, LinkClose)
    case None => None
    case Some((target, title)) =>
      match StripAffixes(target, "", ".html")
      case None => None
      case Some(slug) => Some((slug, title))
  }

  /** Each link names its target's slug and title, which read back from it. */
  lemma {:induction false} LinksRoundTrip(q: Post)
    requires '"' !in q.slug
    ensures ReadLink(PrevLink(q), PrevMiddle) == Some((q.slug, q.title))
    ensures ReadLink(NextLink(q), NextMiddle) == Some((q.slug, q.title))
  {
    assert PrevMiddle[0] == '"' && NextMiddle[0] == '"';
    LinkRoundTrip(q.slug, q.title, PrevMiddle);
    LinkRoundTrip(q.slug, q.title, NextMiddle);
  }

  lemma {:induction false} LinkRoundTrip(slug: string, title: string, middle: string)
    requires '"' !in slug && |middle| > 0 && middle[0] == '"'
    ensures ReadLink(LinkOpen + (slug + ".html") + middle + title + LinkClose, middle) == Some((slug, title))
  {
    var target := slug + ".html";
    assert '"' !in target by {
      assert forall k | 0 <= k < |target| :: target[k] == (if k < |slug| then slug[k] else ".html"[k - |slug|]);
    }
    StripTwoRoundTrip(LinkOpen, target, middle, title, LinkClose);
    assert target == "" + slug + ".html";
  }

  /** The `prev_html` and `next_html` fragments: empty exactly when the
      neighbour is missing. */
  function NavFragments(nb: Neighbours): (r: (string, string))
    ensures r.0 == "" <==> nb.prev.None?
    ensures r.1 == "" <==> nb.next.None?
  {
    (if nb.prev.Some? then PrevLink(nb.prev.value) else "",
     if nb.next.Some? then NextLink(nb.next.value) else "")
  }
}
