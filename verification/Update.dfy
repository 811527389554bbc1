/**
  `update_blog_listing`: the listing page with its cards block replaced by
  the cards of the current posts. Reading and writing the page are left to
  the caller: the page comes in as `None` when `blog.html` does not exist,
  and the new page goes out as `None` when nothing is written.

  As in `Listing`, the properties are stated for any filler `X`; the
  generator's update is the instance `SiteUpdate`.
*/
module Update {
  import opened Common
  import opened Text
  import opened Posts
  import opened Listing
  import opened Splice

  /** The page to write, or `None` when there is no listing page to update. */
  function UpdateListing(X: Filler, page: Option<string>, posts: seq<Post>): (r: Option<string>)
    ensures r.None? <==> page.None?
  {
    match page
    case None => None
    case Some(html) => Some(Sub(html, CardsHtml(Site, X, posts)))
  }

  /** The generator's update of `blog.html`. */
  function SiteUpdate(page: Option<string>, posts: seq<Post>): Option<string> {
    UpdateListing(SiteFiller, page, posts)
  }

  /** On a listing page with one cards block, the update keeps everything
      outside the block and puts the cards of the posts on lines of their own
      between the opening marker and the closing tags. */
  lemma UpdatePage(X: Filler, pre: string, inner: string, w1: string, w2: string, post: string, posts: seq<Post>)
    requires !Contains(pre, ListOpen) && !Contains(post, ListOpen)
    requires AllWs(w1) && AllWs(w2)
    requires forall k {:trigger MatchClose((inner + CloseText(w1, w2) + post)[k..])} | 0 <= k < |inner| :: MatchClose((inner + CloseText(w1, w2) + post)[k..]).None?
    ensures
      UpdateListing(X, Some(pre + ListOpen + inner + CloseText(w1, w2) + post), posts)
      == Some(pre + Opening(ListOpen, CardsHtml(Site, X, posts)) + CloseText(w1, w2) + post)
  {
    SplicePage(pre, inner, w1, w2, post, CardsHtml(Site, X, posts));
  }

  /** A page without the opening marker is written back unchanged. */
  lemma UpdateNoMarker(X: Filler, html: string, posts: seq<Post>)
    requires !Contains(html, ListOpen)
    ensures UpdateListing(X, Some(html), posts) == Some(html)
  {
    NoMarkerUnchanged(html, CardsHtml(Site, X, posts));
  }
}
