/**
  `sorted(posts, key=lambda x: x['date'], reverse=True)`: posts newest first,
  posts with equal dates kept in their input order (Python's sort is stable,
  and `reverse=True` preserves the order of equal elements).

  The sort is written as an insertion sort; its contract and the lemmas below
  state the three properties that determine the result, and `SortCharacterised`
  shows that they do.
*/
module Ordering {
  import opened Dates
  import opened Posts

  /** `a` is no older than `b`. */
  predicate NotOlder(a: Post, b: Post) {
    !Earlier(a.date, b.date)
  }

  predicate NewestFirst(s: seq<Post>) {
    forall i, j | 0 <= i < j < |s| :: NotOlder(s[i], s[j])
  }

  /** The posts of `s` dated exactly `d`, in order. */
  function SameDate(s: seq<Post>, d: DateTime): (r: seq<Post>)
    ensures |r| <= |s|
  {
    if |s| == 0 then []
    else (if s[0].date == d then [s[0]] else []) + SameDate(s[1..], d)
  }

  lemma {:induction false} SameDateAppend(s: seq<Post>, x: Post, d: DateTime)
    ensures SameDate(s + [x], d) == SameDate(s, d) + (if x.date == d then [x] else [])
  {
    if |s| > 0 {
      assert (s + [x])[1..] == s[1..] + [x];
      SameDateAppend(s[1..], x, d);
    }
  }

  lemma {:induction false} SameDateNone(s: seq<Post>, d: DateTime)
    requires forall k | 0 <= k < |s| :: s[k].date != d
    ensures SameDate(s, d) == []
  {
    if |s| > 0 {
      SameDateNone(s[1..], d);
    }
  }

  /** Places `x`, which comes after every post of `s` in the input, after the
      posts of `s` that are not older than it. */
  function Insert(x: Post, s: seq<Post>): (r: seq<Post>)
    ensures |r| == |s| + 1
    ensures multiset(r) == multiset(s) + multiset{x}
    ensures forall k | 0 <= k < |r| :: r[k] == x || r[k] in s
  {
    if |s| == 0 then [x]
    else if Earlier(s[0].date, x.date) then
      assert s == [s[0]] + s[1..];
      [x] + s
    else
      var tail := Insert(x, s[1..]);
      assert s == [s[0]] + s[1..];
      assert forall k | 0 <= k < |tail| :: tail[k] == x || tail[k] in s[1..];
      [s[0]] + tail
  }

  lemma {:induction false} InsertKeepsNewestFirst(x: Post, s: seq<Post>)
    requires NewestFirst(s)
    ensures NewestFirst(Insert(x, s))
  {
    if |s| == 0 {
    } else if Earlier(s[0].date, x.date) {
      var r := Insert(x, s);
      assert r == [x] + s;
      forall k | 0 <= k < |s|
        ensures NotOlder(x, s[k])
      {
        EarlierIsStrictTotalOrder(s[0].date, x.date, s[k].date);
        if k > 0 {
          assert NotOlder(s[0], s[k]);
        }
      }
    } else {
      var tail := Insert(x, s[1..]);
      InsertKeepsNewestFirst(x, s[1..]);
      assert Insert(x, s) == [s[0]] + tail;
      forall k | 0 <= k < |tail|
        ensures NotOlder(s[0], tail[k])
      {
        if tail[k] != x {
          var m :| 0 <= m < |s[1..]| && s[1..][m] == tail[k];
          assert s[1..][m] == s[m + 1];
        }
      }
    }
  }

  lemma {:induction false} InsertKeepsDateGroups(x: Post, s: seq<Post>, d: DateTime)
    requires NewestFirst(s)
    ensures SameDate(Insert(x, s), d) == SameDate(s, d) + (if x.date == d then [x] else [])
  {
    if |s| == 0 {
      assert SameDate([x], d) == (if x.date == d then [x] else []) + SameDate([], d);
    } else if Earlier(s[0].date, x.date) {
      InsertedAtHead(x, s, d);
    } else {
      assert NewestFirst(s[1..]);
      InsertKeepsDateGroups(x, s[1..], d);
      InsertedBelowHead(x, s, d);
    }
  }

  lemma {:induction false} InsertedAtHead(x: Post, s: seq<Post>, d: DateTime)
    requires NewestFirst(s) && |s| > 0 && Earlier(s[0].date, x.date)
    ensures SameDate(Insert(x, s), d) == SameDate(s, d) + (if x.date == d then [x] else [])
  {
    var hx := if x.date == d then [x] else [];
    var r := [x] + s;
    assert Insert(x, s) == r;
    assert r[1..] == s;
    assert SameDate(r, d) == hx + SameDate(s, d);
    if x.date == d {
      OlderThanHead(x, s, d);
      assert SameDate(r, d) == SameDate(s, d) + hx;
    } else {
      assert hx + SameDate(s, d) == SameDate(s, d) + hx;
    }
  }

  lemma {:induction false} InsertedBelowHead(x: Post, s: seq<Post>, d: DateTime)
    requires |s| > 0 && !Earlier(s[0].date, x.date)
    requires SameDate(Insert(x, s[1..]), d) == SameDate(s[1..], d) + (if x.date == d then [x] else [])
    ensures SameDate(Insert(x, s), d) == SameDate(s, d) + (if x.date == d then [x] else [])
  {
    var u := Insert(x, s);
    assert u == [s[0]] + Insert(x, s[1..]);
    assert u[0] == s[0] && u[1..] == Insert(x, s[1..]);
    SameDateCons(u, d);
    SameDateCons(s, d);
    ConcatAssoc(if s[0].date == d then [s[0]] else [], SameDate(s[1..], d), if x.date == d then [x] else []);
  }

  lemma ConcatAssoc(a: seq<Post>, b: seq<Post>, c: seq<Post>)
    ensures a + (b + c) == (a + b) + c
  {
  }

  lemma {:induction false} SameDateCons(s: seq<Post>, d: DateTime)
    requires |s| > 0
    ensures SameDate(s, d) == (if s[0].date == d then [s[0]] else []) + SameDate(s[1..], d)
  {
  }

  /** No post of a newest-first order shares the date of a post newer than
      its head. */
  lemma {:induction false} OlderThanHead(x: Post, s: seq<Post>, d: DateTime)
    requires NewestFirst(s) && |s| > 0 && Earlier(s[0].date, x.date) && x.date == d
    ensures SameDate(s, d) == []
  {
    forall k | 0 <= k < |s|
      ensures s[k].date != d
    {
      if k > 0 {
        assert NotOlder(s[0], s[k]);
        EarlierIsStrictTotalOrder(s[0].date, x.date, s[k].date);
      }
      EarlierIsStrictTotalOrder(s[0].date, x.date, x.date);
    }
    SameDateNone(s, d);
  }

  /** Newest first, equal dates in input order. */
  function Sort(ps: seq<Post>): (r: seq<Post>)
    ensures NewestFirst(r)
    ensures multiset(r) == multiset(ps)
    ensures |r| == |ps|
  {
    if |ps| == 0 then []
    else
      var init := ps[..|ps| - 1];
      assert ps == init + [ps[|ps| - 1]];
      InsertKeepsNewestFirst(ps[|ps| - 1], Sort(init));
      Insert(ps[|ps| - 1], Sort(init))
  }

  /** The sort keeps the posts of each date in their input order. */
  lemma {:induction false} SortIsStable(ps: seq<Post>, d: DateTime)
    ensures SameDate(Sort(ps), d) == SameDate(ps, d)
  {
    if |ps| > 0 {
      var init, last := ps[..|ps| - 1], ps[|ps| - 1];
      assert ps == init + [last];
      SortIsStable(init, d);
      InsertKeepsDateGroups(last, Sort(init), d);
      SameDateAppend(init, last, d);
    }
  }

  lemma {:induction false} DatesEqualWhenNeitherOlder(a: Post, b: Post)
    requires NotOlder(a, b) && NotOlder(b, a)
    ensures a.date == b.date
  {
    EarlierIsStrictTotalOrder(a.date, b.date, b.date);
  }

  /** The newest post of a newest-first order is the first post of its date. */
  lemma {:induction false} SameHead(a: seq<Post>, b: seq<Post>)
    requires NewestFirst(a) && NewestFirst(b) && |a| > 0
    requires multiset(a) == multiset(b)
    requires forall d :: SameDate(a, d) == SameDate(b, d)
    ensures |b| > 0 && a[0] == b[0]
  {
    assert |b| == |multiset(b)| > 0;
    assert a[0] in multiset(b);
    var k :| 0 <= k < |b| && b[k] == a[0];
    var m :| 0 <= m < |a| && a[m] == b[0] by {
      assert b[0] in multiset(a);
    }
    if k > 0 {
      assert NotOlder(b[0], b[k]);
    }
    if m > 0 {
      assert NotOlder(a[0], a[m]);
    }
    DatesEqualWhenNeitherOlder(a[0], b[0]);
    var d0 := a[0].date;
    assert SameDate(a, d0)[0] == a[0];
    assert SameDate(b, d0)[0] == b[0];
  }

  lemma {:induction false} SameDateTail(a: seq<Post>, b: seq<Post>, d: DateTime)
    requires |a| > 0 && |b| > 0 && a[0] == b[0]
    requires SameDate(a, d) == SameDate(b, d)
    ensures SameDate(a[1..], d) == SameDate(b[1..], d)
  {
    var h := if a[0].date == d then [a[0]] else [];
    var x, y := SameDate(a[1..], d), SameDate(b[1..], d);
    assert SameDate(a, d) == h + x;
    assert SameDate(b, d) == h + y;
    assert (h + x)[|h|..] == x;
    assert (h + y)[|h|..] == y;
  }

  lemma {:induction false} TailOf(a: seq<Post>)
    requires NewestFirst(a) && |a| > 0
    ensures NewestFirst(a[1..])
    ensures multiset(a[1..]) == multiset(a) - multiset{a[0]}
  {
    assert a == [a[0]] + a[1..];
  }

  /** Two newest-first orders of the same posts that agree on the order within
      each date are the same order. */
  lemma {:induction false} NewestFirstUnique(a: seq<Post>, b: seq<Post>)
    requires NewestFirst(a) && NewestFirst(b)
    requires multiset(a) == multiset(b)
    requires forall d :: SameDate(a, d) == SameDate(b, d)
    ensures a == b
  {
    if |a| == 0 {
      assert |b| == |multiset(b)| == 0;
    } else {
      SameHead(a, b);
      TailOf(a);
      TailOf(b);
      forall d
        ensures SameDate(a[1..], d) == SameDate(b[1..], d)
      {
        SameDateTail(a, b, d);
      }
      NewestFirstUnique(a[1..], b[1..]);
    }
  }

  /** Any newest-first arrangement of the posts that keeps each date's posts in
      input order is the sort's result: the stable descending sort is unique. */
  lemma {:induction false} SortCharacterised(ps: seq<Post>, s: seq<Post>)
    requires NewestFirst(s) && multiset(s) == multiset(ps)
    requires forall d :: SameDate(s, d) == SameDate(ps, d)
    ensures s == Sort(ps)
  {
    forall d
      ensures SameDate(s, d) == SameDate(Sort(ps), d)
    {
      SortIsStable(ps, d);
    }
    NewestFirstUnique(s, Sort(ps));
  }

  /** Posts already newest first stay where they are; in particular sorting is
      idempotent. */
  lemma {:induction false} SortKeepsSorted(ps: seq<Post>)
    requires NewestFirst(ps)
    ensures Sort(ps) == ps
    ensures Sort(Sort(ps)) == Sort(ps)
  {
    SortCharacterised(ps, ps);
  }
}
