/**
  The reading-time estimate of `parse_markdown_file`: the number of
  whitespace-separated words of the Markdown body, divided by 200 words per
  minute, rounded half-to-even as Python's `round` does, and at least one.
*/
module ReadingTime {
  import opened Text

  const WordsPerMinute: nat := 200

  /** Length of the longest non-whitespace prefix of `u`. */
  function WordSpan(u: string): (n: nat)
    ensures n <= |u|
    ensures forall i | 0 <= i < n :: !IsWs(u[i])
    ensures n == |u| || IsWs(u[n])
  {
    if |u| == 0 || IsWs(u[0]) then 0 else 1 + WordSpan(u[1..])
  }

  /** Python's `s.split()` with no argument: the maximal runs of
      non-whitespace characters, in order. */
  function Words(s: string): (ws: seq<string>)
    ensures forall i | 0 <= i < |ws| :: |ws[i]| > 0
    ensures forall i | 0 <= i < |ws| :: forall k | 0 <= k < |ws[i]| :: !IsWs(ws[i][k])
    decreases |s|
  {
    if |s| == 0 then []
    else if IsWs(s[0]) then Words(s[1..])
    else
      var n := WordSpan(s);
      [s[..n]] + Words(s[n..])
  }

  /** A word starts at `i`: a non-whitespace character at the start of the text
      or right after whitespace. */
  predicate WordStart(s: string, i: nat)
    requires i < |s|
  {
    !IsWs(s[i]) && (i == 0 || IsWs(s[i - 1]))
  }

  /** The number of word starts at or after `i`. */
  function StartsFrom(s: string, i: nat): nat
    requires i <= |s|
    decreases |s| - i
  {
    if i == |s| then 0
    else (if WordStart(s, i) then 1 else 0) + StartsFrom(s, i + 1)
  }

  /** Inside a word there are no word starts. */
  lemma {:induction false} NoStartsInsideWord(s: string, i: nat, j: nat)
    requires 0 < i <= j <= |s|
    requires forall k | i - 1 <= k < j :: !IsWs(s[k])
    ensures StartsFrom(s, i) == StartsFrom(s, j)
    decreases j - i
  {
    if i < j {
      assert !WordStart(s, i);
      NoStartsInsideWord(s, i + 1, j);
    }
  }

  /** Counting the pieces of `split()` and counting word starts agree, from any
      position that is not in the middle of a word. */
  lemma {:induction false} WordsCountStarts(s: string, i: nat)
    requires i <= |s|
    requires i == 0 || i == |s| || IsWs(s[i - 1]) || IsWs(s[i])
    ensures |Words(s[i..])| == StartsFrom(s, i)
    decreases |s| - i, 1
  {
    if i == |s| {
      assert |s[i..]| == 0;
    } else if IsWs(s[i]) {
      CountAfterSpace(s, i);
    } else {
      CountAfterWord(s, i);
    }
  }

  lemma {:induction false} CountAfterSpace(s: string, i: nat)
    requires i < |s| && IsWs(s[i])
    ensures |Words(s[i..])| == StartsFrom(s, i)
    decreases |s| - i, 0
  {
    SpaceStep(s, i);
    WordsCountStarts(s, i + 1);
  }

  lemma {:induction false} CountAfterWord(s: string, i: nat)
    requires i < |s| && !IsWs(s[i]) && (i == 0 || IsWs(s[i - 1]))
    ensures |Words(s[i..])| == StartsFrom(s, i)
    decreases |s| - i, 0
  {
    var n := WordStep(s, i);
    assert i + n == |s| || IsWs(s[i + n]);
    WordsCountStarts(s, i + n);
  }

  /** A whitespace character adds no word and no word start. */
  lemma {:induction false} SpaceStep(s: string, i: nat)
    requires i < |s| && IsWs(s[i])
    ensures |Words(s[i..])| == |Words(s[i + 1..])|
    ensures StartsFrom(s, i) == StartsFrom(s, i + 1)
  {
    var u := s[i..];
    assert u[0] == s[i];
    assert u[1..] == s[i + 1..];
  }

  /** A word of `n` characters starting at `i` adds one piece and one start. */
  lemma {:induction false} WordStep(s: string, i: nat) returns (n: nat)
    requires i < |s| && !IsWs(s[i]) && (i == 0 || IsWs(s[i - 1]))
    ensures 0 < n && i + n <= |s| && (i + n == |s| || IsWs(s[i + n]))
    ensures |Words(s[i..])| == 1 + |Words(s[i + n..])|
    ensures StartsFrom(s, i) == 1 + StartsFrom(s, i + n)
  {
    var u := s[i..];
    assert u[0] == s[i];
    n := WordSpan(u);
    assert |Words(u)| == 1 + |Words(u[n..])|;
    assert u[n..] == s[i + n..];
    assert forall k | i <= k < i + n :: !IsWs(s[k]) by {
      assert forall k | i <= k < i + n :: s[k] == u[k - i];
    }
    StartsOfWord(s, i, n);
    if i + n < |s| {
      assert s[i + n] == u[n];
    }
  }

  /** A word occupying `s[i..i + n]` holds exactly one word start. */
  lemma {:induction false} StartsOfWord(s: string, i: nat, n: nat)
    requires 0 < n && i + n <= |s| && (i == 0 || IsWs(s[i - 1]))
    requires forall k | i <= k < i + n :: !IsWs(s[k])
    ensures StartsFrom(s, i) == 1 + StartsFrom(s, i + n)
  {
    assert WordStart(s, i);
    NoStartsInsideWord(s, i + 1, i + n);
  }

  /** The word count is the number of word starts in the text. */
  lemma {:induction false} WordCountIsStarts(s: string)
    ensures |Words(s)| == StartsFrom(s, 0)
  {
    WordsCountStarts(s, 0);
    assert s[0..] == s;
  }

  /** `r` is a nearest integer to `n / 200`, and on a tie it is even. */
  predicate NearestEven(n: nat, r: nat) {
    && -100 <= WordsPerMinute * r - n <= 100
    && ((WordsPerMinute * r - n == 100 || n - WordsPerMinute * r == 100) ==> r % 2 == 0)
  }

  /** Python's `round(n / 200)`: round half to even. */
  function RoundHalfEven(n: nat): (r: nat)
    ensures NearestEven(n, r)
    ensures forall x: nat | NearestEven(n, x) :: x == r
  {
    var q := n / WordsPerMinute;
    var rem := n % WordsPerMinute;
    if 2 * rem < WordsPerMinute then q
    else if 2 * rem > WordsPerMinute then q + 1
    else if q % 2 == 0 then q
    else q + 1
  }

  /** Minutes shown for a body of `count` words: `max(1, round(count / 200))`. */
  function MinutesFor(count: nat): (r: nat)
    ensures r >= 1
    ensures r == 1 <==> count < 300
    ensures r > 1 ==> NearestEven(count, r)
  {
    var rounded := RoundHalfEven(count);
    if rounded > 1 then rounded else 1
  }

  /** The reading time of a Markdown body. */
  function ReadingTimeOf(body: string): (r: nat)
    ensures r >= 1
    ensures r == 1 <==> |Words(body)| < 300
  {
    MinutesFor(|Words(body)|)
  }

  /** Worked values: 100 words round down to zero and are lifted to one; 300
      and 500 words are ties that go to the even neighbour 2. */
  lemma {:induction false} MinutesExamples()
    ensures MinutesFor(0) == 1 && MinutesFor(100) == 1
    ensures MinutesFor(300) == 2 && MinutesFor(500) == 2
    ensures MinutesFor(700) == 4
  {
  }
}
