/**
  A regular-expression fragment made of literals and greedy `\s*` runs,
  matched at the start of a text. Such a fragment never backtracks when each
  run is followed by a literal that starts with a non-whitespace character:
  the greedy run then stops exactly where the literal begins.
*/
module Pattern {
  import opened Common
  import opened Text

  /** One element of a fragment: a literal, or a greedy `\s*`. */
  datatype Piece = Lit(text: string) | Spaces

  /** The number of `\s*` runs in a fragment. */
  function Gaps(ps: seq<Piece>): nat
    decreases |ps|
  {
    if |ps| == 0 then 0 else (if ps[0].Spaces? then 1 else 0) + Gaps(ps[1..])
  }

  /** Every literal is non-empty and starts with a non-whitespace character,
      and every run is followed by a literal. */
  predicate Shaped(ps: seq<Piece>) {
    forall i | 0 <= i < |ps| :: PieceShaped(ps, i)
  }

  predicate PieceShaped(ps: seq<Piece>, i: nat)
    requires i < |ps|
  {
    match ps[i]
    case Lit(s) => |s| > 0 && !IsWs(s[0])
    case Spaces => i + 1 < |ps| && ps[i + 1].Lit?
  }

  /** How much of `t` one piece takes at the start of `t`. */
  function Step(t: string, p: Piece): (r: Option<nat>)
    ensures r.Some? ==> r.value <= |t|
  {
    match p
    case Lit(s) => if s <= t then Some(|s|) else None
    case Spaces => Some(WsSpan(t))
  }

  /** How much of `t` the fragment `ps` takes at the start of `t`, if it
      matches there. */
  function Match(t: string, ps: seq<Piece>): (r: Option<nat>)
    ensures r.Some? ==> r.value <= |t|
    decreases |ps|
  {
    if |ps| == 0 then Some(0)
    else
      match Step(t, ps[0])
      case None => None
      case Some(k) =>
        match Match(t[k..], ps[1..])
        case None => None
        case Some(n) => Some(k + n)
  }

  /** The first position at or after `from` where `ps` matches, and how much
      it takes there. */
  function Find(s: string, from: nat, ps: seq<Piece>): (r: Option<(nat, nat)>)
    requires from <= |s|
    ensures r.Some? ==> from <= r.value.0 && r.value.0 + r.value.1 <= |s|
    decreases |s| - from
  {
    match Match(s[from..], ps)
    case Some(n) => Some((from, n))
    case None => if from == |s| then None else Find(s, from + 1, ps)
  }

  /** `Find` finds a match, and `ps` matches nowhere between `from` and it;
      when it finds none, `ps` matches nowhere at or after `from`. */
  lemma {:induction false} FindSpec(s: string, from: nat, ps: seq<Piece>)
    requires from <= |s|
    ensures Find(s, from, ps).Some? ==> Match(s[Find(s, from, ps).value.0..], ps) == Some(Find(s, from, ps).value.1)
    ensures forall j {:trigger Match(s[j..], ps)} | from <= j <= |s| && (Find(s, from, ps).None? || j < Find(s, from, ps).value.0) :: Match(s[j..], ps).None?
    decreases |s| - from
  {
    if Match(s[from..], ps).None? && from < |s| {
      FindSpec(s, from + 1, ps);
    }
  }

  /** A match with no match between `from` and it is the one `Find` finds. */
  lemma {:induction false} FindAt(s: string, from: nat, j: nat, n: nat, ps: seq<Piece>)
    requires from <= j <= |s| && Match(s[j..], ps) == Some(n)
    requires forall k {:trigger Match(s[k..], ps)} | from <= k < j :: Match(s[k..], ps).None?
    ensures Find(s, from, ps) == Some((j, n))
    decreases j - from
  {
    if from < j {
      FindAt(s, from + 1, j, n, ps);
    }
  }

  /** The whitespace runs a match takes, in order. */
  function Runs(t: string, ps: seq<Piece>): seq<string>
    decreases |ps|
  {
    if |ps| == 0 then []
    else
      match Step(t, ps[0])
      case None => []
      case Some(k) => (if ps[0].Spaces? then [t[..k]] else []) + Runs(t[k..], ps[1..])
  }

  /** The text the fragment `ps` stands for when its runs are `runs`. */
  function Spell(ps: seq<Piece>, runs: seq<string>): string
    requires |runs| == Gaps(ps)
    decreases |ps|
  {
    if |ps| == 0 then ""
    else
      match ps[0]
      case Lit(s) => s + Spell(ps[1..], runs)
      case Spaces => runs[0] + Spell(ps[1..], runs[1..])
  }

  /** Every run is whitespace. */
  predicate AllRuns(runs: seq<string>) {
    forall i | 0 <= i < |runs| :: AllWs(runs[i])
  }

  lemma {:induction false} WsPrefix(t: string)
    ensures AllWs(t[..WsSpan(t)])
  {
    var w := t[..WsSpan(t)];
    WsSpanRun(t);
    assert forall k | 0 <= k < |w| :: w[k] == t[k];
    AllWsIndex(w);
  }

  /** What a fragment takes is the fragment spelled with the runs it took,
      and those runs are whitespace. */
  lemma {:induction false} MatchSound(t: string, ps: seq<Piece>)
    requires Match(t, ps).Some?
    ensures |Runs(t, ps)| == Gaps(ps) && AllRuns(Runs(t, ps))
    ensures Spell(ps, Runs(t, ps)) <= t && |Spell(ps, Runs(t, ps))| == Match(t, ps).value
    decreases |ps|
  {
    if |ps| > 0 {
      var k := Step(t, ps[0]).value;
      MatchSound(t[k..], ps[1..]);
      if ps[0].Spaces? {
        RunSound(t, ps);
      } else {
        LitSound(t, ps);
      }
    }
  }

  /** Two prefixes laid end to end. */
  lemma PrefixJoin(a: string, b: string, t: string)
    requires a <= t && b <= t[|a|..]
    ensures a + b <= t
  {
    assert forall k | |a| <= k < |a| + |b| :: (a + b)[k] == b[k - |a|] == t[|a|..][k - |a|];
  }

  /** `MatchSound` for a fragment that starts with a literal, given the
      result for the rest of the fragment. */
  lemma LitSound(t: string, ps: seq<Piece>)
    requires |ps| > 0 && ps[0].Lit? && Match(t, ps).Some?
    requires
      var u := t[Step(t, ps[0]).value..];
      && Match(u, ps[1..]).Some?
      && |Runs(u, ps[1..])| == Gaps(ps[1..]) && AllRuns(Runs(u, ps[1..]))
      && Spell(ps[1..], Runs(u, ps[1..])) <= u && |Spell(ps[1..], Runs(u, ps[1..]))| == Match(u, ps[1..]).value
    ensures |Runs(t, ps)| == Gaps(ps) && AllRuns(Runs(t, ps))
    ensures Spell(ps, Runs(t, ps)) <= t && |Spell(ps, Runs(t, ps))| == Match(t, ps).value
  {
    var s := ps[0].text;
    var u := t[|s|..];
    assert Runs(t, ps) == Runs(u, ps[1..]);
    PrefixJoin(s, Spell(ps[1..], Runs(u, ps[1..])), t);
  }

  /** `MatchSound` for a fragment that starts with a run, given the result
      for the rest of the fragment. */
  lemma RunSound(t: string, ps: seq<Piece>)
    requires |ps| > 0 && ps[0].Spaces? && Match(t, ps).Some?
    requires
      var u := t[Step(t, ps[0]).value..];
      && Match(u, ps[1..]).Some?
      && |Runs(u, ps[1..])| == Gaps(ps[1..]) && AllRuns(Runs(u, ps[1..]))
      && Spell(ps[1..], Runs(u, ps[1..])) <= u && |Spell(ps[1..], Runs(u, ps[1..]))| == Match(u, ps[1..]).value
    ensures |Runs(t, ps)| == Gaps(ps) && AllRuns(Runs(t, ps))
    ensures Spell(ps, Runs(t, ps)) <= t && |Spell(ps, Runs(t, ps))| == Match(t, ps).value
  {
    var k := WsSpan(t);
    var u := t[k..];
    var tail := Runs(u, ps[1..]);
    var runs := [t[..k]] + tail;
    assert Runs(t, ps) == runs;
    assert runs[1..] == tail;
    WsPrefix(t);
    assert forall i | 1 <= i < |runs| :: runs[i] == tail[i - 1];
    assert Spell(ps, runs) == t[..k] + Spell(ps[1..], tail);
    PrefixJoin(t[..k], Spell(ps[1..], tail), t);
  }

  /** A spelled fragment that starts with a literal starts with that
      literal's first character. */
  lemma SpellStart(ps: seq<Piece>, runs: seq<string>)
    requires |ps| > 0 && ps[0].Lit? && |ps[0].text| > 0
    requires |runs| == Gaps(ps)
    ensures |Spell(ps, runs)| > 0 && Spell(ps, runs)[0] == ps[0].text[0]
  {
  }

  lemma ShapedTail(ps: seq<Piece>)
    requires |ps| > 0 && Shaped(ps)
    ensures Shaped(ps[1..])
  {
    forall i | 0 <= i < |ps| - 1
      ensures PieceShaped(ps[1..], i)
    {
      assert PieceShaped(ps, i + 1);
      assert ps[1..][i] == ps[i + 1];
      if i + 2 < |ps| {
        assert ps[1..][i + 1] == ps[i + 2];
      }
    }
  }

  /** One step of `Match`: the first piece takes `k` characters and the
      rest of the fragment takes `n` more. */
  lemma MatchThen(t: string, ps: seq<Piece>, k: nat, n: nat)
    requires |ps| > 0 && Step(t, ps[0]) == Some(k)
    requires Match(t[k..], ps[1..]) == Some(n)
    ensures Match(t, ps) == Some(k + n)
  {
  }

  /** A greedy `\s*` at the start of a text that starts with a whitespace
      run and then a non-whitespace character takes exactly the run. */
  lemma {:induction false} WsRunPrefix(w: string, t: string)
    requires w <= t && AllWs(w) && |w| < |t| && !IsWs(t[|w|])
    ensures WsSpan(t) == |w|
    decreases |w|
  {
    if |w| > 0 {
      assert t[0] == w[0];
      assert w[1..] <= t[1..];
      assert t[1..][|w| - 1] == t[|w|];
      WsRunPrefix(w[1..], t[1..]);
    }
  }

  /** A prefix made of two parts. */
  lemma PrefixParts(a: string, b: string, t: string)
    requires a + b <= t
    ensures a <= t && b <= t[|a|..]
  {
    assert forall k | 0 <= k < |b| :: t[|a|..][k] == t[|a| + k] == (a + b)[|a| + k];
  }

  /** `MatchComplete` for a fragment that starts with a literal, given the
      result for the rest of the fragment. */
  lemma LitThen(ps: seq<Piece>, runs: seq<string>, t: string)
    requires |ps| > 0 && ps[0].Lit? && |runs| == Gaps(ps) && Spell(ps, runs) <= t
    requires Spell(ps[1..], runs) <= t[|ps[0].text|..]
    requires Match(t[|ps[0].text|..], ps[1..]) == Some(|Spell(ps[1..], runs)|)
    ensures Match(t, ps) == Some(|Spell(ps, runs)|)
  {
    var s := ps[0].text;
    PrefixParts(s, Spell(ps[1..], runs), t);
    assert Step(t, ps[0]) == Some(|s|);
    MatchThen(t, ps, |s|, |Spell(ps[1..], runs)|);
  }

  /** `MatchComplete` for a fragment that starts with a run, given the
      result for the rest of the fragment. */
  lemma SpacesThen(ps: seq<Piece>, runs: seq<string>, t: string)
    requires |ps| > 1 && ps[0].Spaces? && ps[1].Lit? && |ps[1].text| > 0 && !IsWs(ps[1].text[0])
    requires |runs| == Gaps(ps) && AllWs(runs[0]) && Spell(ps, runs) <= t
    requires Spell(ps[1..], runs[1..]) <= t[|runs[0]|..]
    requires Match(t[|runs[0]|..], ps[1..]) == Some(|Spell(ps[1..], runs[1..])|)
    ensures Match(t, ps) == Some(|Spell(ps, runs)|)
  {
    var w := runs[0];
    var more := Spell(ps[1..], runs[1..]);
    PrefixParts(w, more, t);
    SpellStart(ps[1..], runs[1..]);
    assert t[|w|] == t[|w|..][0] == more[0];
    WsRunPrefix(w, t);
    assert Step(t, ps[0]) == Some(|w|);
    MatchThen(t, ps, |w|, |more|);
  }

  /** A well-shaped fragment spelled with whitespace runs is matched whole
      at the start of any text that starts with it. */
  lemma {:induction false} MatchComplete(ps: seq<Piece>, runs: seq<string>, t: string)
    requires Shaped(ps) && |runs| == Gaps(ps) && AllRuns(runs)
    requires Spell(ps, runs) <= t
    ensures Match(t, ps) == Some(|Spell(ps, runs)|)
    decreases |ps|
  {
    if |ps| > 0 {
      ShapedTail(ps);
      assert PieceShaped(ps, 0);
      if ps[0].Lit? {
        var s := ps[0].text;
        PrefixParts(s, Spell(ps[1..], runs), t);
        MatchComplete(ps[1..], runs, t[|s|..]);
        LitThen(ps, runs, t);
      } else {
        var w := runs[0];
        assert PieceShaped(ps, 1);
        assert AllRuns(runs[1..]) by {
          assert forall i | 0 <= i < |runs[1..]| :: runs[1..][i] == runs[i + 1];
        }
        assert AllWs(w);
        PrefixParts(w, Spell(ps[1..], runs[1..]), t);
        MatchComplete(ps[1..], runs[1..], t[|w|..]);
        SpacesThen(ps, runs, t);
      }
    }
  }
}
