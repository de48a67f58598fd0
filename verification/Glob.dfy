/** The model-name matcher of the routing constraint: `*` matches any run of characters. */
module Glob {
  import opened Prelude

  /** What a pattern means. */
  predicate Matches(p: string, t: string)
    decreases |p|, |t|
  {
    if p == "" then t == ""
    else if p[0] == '*' then Matches(p[1..], t) || (t != "" && Matches(p, t[1..]))
    else t != "" && t[0] == p[0] && Matches(p[1..], t[1..])
  }

  /** The matcher's loop from one of its states: `star` is the last `*` passed, `resume` where its run ends so far. */
  function Scan(p: string, t: string, pi: nat, ti: nat, star: Option<nat>, resume: nat): bool
    requires pi <= |p| && resume <= ti <= |t|
    requires star.Some? ==> star.value < pi
    decreases |t| - resume, |p| - pi
  {
    if ti == |t| then OnlyStars(p[pi..])
    else if pi < |p| && p[pi] == t[ti] then Scan(p, t, pi + 1, ti + 1, star, resume)
    else if pi < |p| && p[pi] == '*' then Scan(p, t, pi + 1, ti, Some(pi), ti)
    else if star.Some? then Scan(p, t, star.value + 1, resume + 1, star, resume + 1)
    else false
  }

  predicate OnlyStars(p: string) {
    forall i :: 0 <= i < |p| ==> p[i] == '*'
  }

  function GlobMatches(p: string, t: string): bool {
    Scan(p, t, 0, 0, None, 0)
  }

  method GlobMatch(p: string, t: string) returns (matched: bool)
    ensures matched == GlobMatches(p, t)
  {
    var pi, ti := 0, 0;
    var star: Option<nat> := None;
    var resume := 0;
    while ti < |t|
      invariant 0 <= pi <= |p| && 0 <= resume <= ti <= |t|
      invariant star.Some? ==> star.value < pi
      invariant Scan(p, t, pi, ti, star, resume) == GlobMatches(p, t)
      decreases |t| - resume, |p| - pi
    {
      if pi < |p| && p[pi] == t[ti] {
        pi, ti := pi + 1, ti + 1;
      } else if pi < |p| && p[pi] == '*' {
        star, resume, pi := Some(pi), ti, pi + 1;
      } else if star.Some? {
        pi, resume := star.value + 1, resume + 1;
        ti := resume;
      } else {
        return false;
      }
    }
    ghost var rest := pi;
    while pi < |p| && p[pi] == '*'
      invariant rest <= pi <= |p|
      invariant forall i :: rest <= i < pi ==> p[i] == '*'
    {
      pi := pi + 1;
    }
    assert OnlyStars(p[rest..]) <==> pi == |p| by {
      if pi < |p| {
        assert p[rest..][pi - rest] != '*';
      }
    }
    return pi == |p|;
  }

  lemma {:induction false} MatchesEmpty(p: string)
    ensures Matches(p, "") <==> OnlyStars(p)
  {
    if p != "" {
      MatchesEmpty(p[1..]);
      assert OnlyStars(p) <==> p[0] == '*' && OnlyStars(p[1..]) by {
        if p[0] == '*' && OnlyStars(p[1..]) {
          assert forall i :: 1 <= i < |p| ==> p[i] == p[1..][i - 1];
        }
      }
    }
  }

  /** A leading `*` absorbs any run of text. */
  lemma {:induction false} StarAbsorbs(p: string, t: string, i: nat)
    requires p != "" && p[0] == '*' && i <= |t|
    requires Matches(p, t[i..])
    ensures Matches(p, t)
  {
    if i > 0 {
      assert t[1..][i - 1..] == t[i..];
      StarAbsorbs(p, t[1..], i - 1);
    } else {
      assert t[0..] == t;
    }
  }

  /** Characters that are equal on both sides can be consumed, a `*` in the text by a `*` in the pattern included. */
  lemma ConsumeSound(p: string, t: string)
    requires p != "" && t != "" && p[0] == t[0]
    requires Matches(p[1..], t[1..])
    ensures Matches(p, t)
  {
    if p[0] == '*' {
      assert Matches(p, t[1..]);
    }
  }

  /** The matcher never accepts a text its pattern does not mean. */
  lemma {:induction false} ScanSound(p: string, t: string, pi: nat, ti: nat, star: Option<nat>, resume: nat)
    requires pi <= |p| && resume <= ti <= |t|
    requires star.Some? ==> star.value < pi && p[star.value] == '*'
    requires Matches(p[pi..], t[ti..]) ==> Matches(p, t)
    requires star.Some? && Matches(p[star.value..], t[resume..]) ==> Matches(p, t)
    requires Scan(p, t, pi, ti, star, resume)
    ensures Matches(p, t)
    decreases |t| - resume, |p| - pi
  {
    if ti == |t| {
      MatchesEmpty(p[pi..]);
      assert t[ti..] == "";
    } else {
      var q, u := p[pi..], t[ti..];
      assert u[1..] == t[ti + 1..];
      if pi < |p| {
        assert q[1..] == p[pi + 1..];
      }
      if pi < |p| && p[pi] == t[ti] {
        if Matches(q[1..], u[1..]) {
          ConsumeSound(q, u);
        }
        ScanSound(p, t, pi + 1, ti + 1, star, resume);
      } else if pi < |p| && p[pi] == '*' {
        ScanSound(p, t, pi + 1, ti, Some(pi), ti);
      } else {
        var s := star.value;
        assert p[s..][1..] == p[s + 1..];
        assert t[resume..][1..] == t[resume + 1..];
        if Matches(p[s + 1..], t[resume + 1..]) {
          StarThenRest(p[s..], t[resume + 1..]);
        }
        ScanSound(p, t, s + 1, resume + 1, star, resume + 1);
      }
    }
  }

  lemma StarThenRest(p: string, t: string)
    requires p != "" && p[0] == '*' && Matches(p[1..], t)
    ensures Matches(p, t)
  {
  }

  lemma GlobSound(p: string, t: string)
    requires GlobMatches(p, t)
    ensures Matches(p, t)
  {
    assert p[0..] == p && t[0..] == t;
    ScanSound(p, t, 0, 0, None, 0);
  }

  /** A pattern that starts with literal text only matches texts starting with it. */
  lemma {:induction false} LiteralPrefix(seg: string, q: string, t: string)
    requires '*' !in seg
    ensures Matches(seg + q, t) <==> seg <= t && Matches(q, t[|seg|..])
  {
    if seg == "" {
      assert seg + q == q && t[0..] == t;
    } else {
      assert (seg + q)[1..] == seg[1..] + q;
      if t != "" {
        LiteralPrefix(seg[1..], q, t[1..]);
        if |seg| <= |t| {
          assert t[1..][|seg| - 1..] == t[|seg|..];
        }
        assert seg <= t <==> t[0] == seg[0] && seg[1..] <= t[1..] by {
          if t[0] == seg[0] && seg[1..] <= t[1..] {
            assert seg == [seg[0]] + seg[1..] && t == [t[0]] + t[1..];
          }
        }
      }
    }
  }

  lemma {:induction false} StarUnfold(p: string, t: string) returns (j: nat)
    requires p != "" && p[0] == '*' && Matches(p, t)
    ensures j <= |t| && Matches(p[1..], t[j..])
  {
    if Matches(p[1..], t) {
      j := 0;
      assert t[0..] == t;
    } else {
      j := StarUnfold(p, t[1..]);
      assert t[1..][j..] == t[j + 1..];
      j := j + 1;
    }
  }

  /** The segment between two stars may be taken at its first occurrence. */
  lemma EarliestSegment(seg: string, q: string, t: string, u: string)
    requires '*' !in seg && q != "" && q[0] == '*' && t == seg + u
    requires Matches("*" + (seg + q), t)
    ensures Matches(q, u)
  {
    var j := StarUnfold("*" + (seg + q), t);
    assert ("*" + (seg + q))[1..] == seg + q;
    LiteralPrefix(seg, q, t[j..]);
    assert t[j..][|seg|..] == u[j..];
    StarAbsorbs(q, u, j);
  }

  lemma {:induction false} MatchesLoneStar(q: string)
    requires Matches(q, "*")
    ensures Matches(q, "")
  {
    if q != "" && q[0] == '*' {
      assert "*"[1..] == "";
      if Matches(q[1..], "*") {
        MatchesLoneStar(q[1..]);
      }
    }
  }

  /** No `*` inside the text, a final one apart. */
  predicate InnerStarFree(t: string) {
    forall i :: 0 <= i < |t| - 1 ==> t[i] != '*'
  }

  /** What the loop knows: nothing matched so far is lost by never going back before the last star. */
  ghost predicate StillPossible(p: string, t: string, pi: nat, ti: nat, star: Option<nat>, resume: nat)
    requires pi <= |p| && resume <= ti <= |t|
  {
    match star
    case None => Matches(p[pi..], t[ti..])
    case Some(s) =>
      && s < pi && p[s] == '*'
      && '*' !in p[s + 1..pi]
      && p[s + 1..pi] == t[resume..ti]
      && Matches(p[s..], t[resume..])
  }

  lemma AtStar(p: string, t: string, pi: nat, ti: nat, star: Option<nat>, resume: nat)
    requires pi < |p| && resume <= ti <= |t| && p[pi] == '*'
    requires StillPossible(p, t, pi, ti, star, resume)
    ensures Matches(p[pi..], t[ti..])
  {
    if star.Some? {
      var seg := p[star.value + 1..pi];
      assert p[star.value..] == "*" + (seg + p[pi..]);
      assert t[resume..] == seg + t[ti..];
      EarliestSegment(seg, p[pi..], t[resume..], t[ti..]);
    }
  }

  lemma {:induction false} ScanComplete(p: string, t: string, pi: nat, ti: nat, star: Option<nat>, resume: nat)
    requires pi <= |p| && resume <= ti <= |t|
    requires InnerStarFree(t)
    requires StillPossible(p, t, pi, ti, star, resume)
    ensures Scan(p, t, pi, ti, star, resume)
    decreases |t| - resume, |p| - pi
  {
    var q, u := p[pi..], t[ti..];
    if ti == |t| {
      FinishedScan(p, t, pi, star, resume);
    } else if pi < |p| && p[pi] == t[ti] {
      assert q[1..] == p[pi + 1..] && u[1..] == t[ti + 1..];
      if p[pi] == '*' {
        AtStar(p, t, pi, ti, star, resume);
        assert u == "*";
        if Matches(q[1..], "*") {
          MatchesLoneStar(q[1..]);
        }
        assert u[1..] == "";
        MatchesEmpty(q[1..]);
      } else {
        if star.Some? {
          assert p[star.value + 1..pi + 1] == p[star.value + 1..pi] + [p[pi]];
          assert t[resume..ti + 1] == t[resume..ti] + [t[ti]];
        }
        ScanComplete(p, t, pi + 1, ti + 1, star, resume);
      }
    } else if pi < |p| && p[pi] == '*' {
      AtStar(p, t, pi, ti, star, resume);
      ScanComplete(p, t, pi + 1, ti, Some(pi), ti);
    } else if star.Some? {
      var s := star.value;
      var seg := p[s + 1..pi];
      assert p[s..][1..] == p[s + 1..] == seg + q;
      assert t[resume..] == seg + u;
      LiteralPrefix(seg, q, t[resume..]);
      assert t[resume..][|seg|..] == u;
      assert t[resume..][1..] == t[resume + 1..];
      ScanComplete(p, t, s + 1, resume + 1, star, resume + 1);
    }
  }

  lemma FinishedScan(p: string, t: string, pi: nat, star: Option<nat>, resume: nat)
    requires pi <= |p| && resume <= |t|
    requires StillPossible(p, t, pi, |t|, star, resume)
    ensures OnlyStars(p[pi..])
  {
    var q := p[pi..];
    if star.Some? {
      var s := star.value;
      var seg := p[s + 1..pi];
      assert p[s..][1..] == seg + q;
      var j := StarUnfold(p[s..], t[resume..]);
      LiteralPrefix(seg, q, t[resume..][j..]);
      assert t[resume..][j..][|seg|..] == "";
    } else {
      assert t[|t|..] == "";
    }
    MatchesEmpty(q);
  }

  /** On such texts the matcher accepts exactly what the pattern means. */
  lemma GlobComplete(p: string, t: string)
    requires InnerStarFree(t) && Matches(p, t)
    ensures GlobMatches(p, t)
  {
    assert p[0..] == p && t[0..] == t;
    ScanComplete(p, t, 0, 0, None, 0);
  }

  lemma {:induction false} LiteralRun(t: string, k: nat, i: nat)
    requires k < |t| - 1 && i <= k + 1
    ensures !Scan(t[..k + 1], t, i, i, None, 0)
    decreases k + 1 - i
  {
    if i <= k {
      LiteralRun(t, k, i + 1);
    }
  }

  lemma {:induction false} PrefixThenStar(t: string, k: nat)
    requires k < |t| && t[k] == '*'
    ensures Matches(t[..k + 1], t)
  {
    var p := t[..k + 1];
    if k == 0 {
      assert p[1..] == "";
      assert t[|t|..] == "";
      StarAbsorbs(p, t, |t|);
    } else {
      assert p[1..] == t[1..][..k];
      PrefixThenStar(t[1..], k - 1);
      ConsumeSound(p, t);
    }
  }

  /**
   * The matcher tries a literal match before the wildcard, so a `*` in the text uses up a `*` of
   * the pattern. It is right for every pattern exactly on the texts with no `*` before the last character.
   */
  lemma GlobExactOn(t: string)
    ensures (forall p: string :: GlobMatches(p, t) == Matches(p, t)) <==> InnerStarFree(t)
  {
    if InnerStarFree(t) {
      forall p: string ensures GlobMatches(p, t) == Matches(p, t) {
        if GlobMatches(p, t) { GlobSound(p, t); }
        if Matches(p, t) { GlobComplete(p, t); }
      }
    } else {
      var k :| 0 <= k < |t| - 1 && t[k] == '*';
      LiteralRun(t, k, 0);
      PrefixThenStar(t, k);
      assert GlobMatches(t[..k + 1], t) != Matches(t[..k + 1], t);
    }
  }

  /** The smallest such text: `*` does not match `*a`. */
  lemma GlobStarInText()
    ensures Matches("*", "*a") && !GlobMatches("*", "*a")
  {
    PrefixThenStar("*a", 0);
    LiteralRun("*a", 0, 0);
    assert "*a"[..1] == "*";
  }
}
