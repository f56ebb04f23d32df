// The pattern matcher of KEYS: a loop that goes back to the last star. What it accepts, how that
// relates to the meaning of the pattern, and why it ends.

module Globs {

  // What a pattern means: '?' stands for one character, '*' for any number of them.
  ghost predicate Matches(p: string, t: string)
    decreases |p|
  {
    if p == "" then t == ""
    else if p[0] == '*' then exists k :: 0 <= k <= |t| && Matches(p[1..], t[k..])
    else t != "" && (p[0] == '?' || p[0] == t[0]) && Matches(p[1..], t[1..])
  }

  // One character of the pattern takes one character of the text. A star takes a star.
  predicate Takes(c: char, d: char) {
    c == '?' || c == d
  }

  // What the loop accepts: an equal character is taken before the star is looked at.
  ghost predicate Accepts(p: string, t: string)
    decreases |p|
  {
    if p == "" then t == ""
    else if t != "" && Takes(p[0], t[0]) then Accepts(p[1..], t[1..])
    else p[0] == '*' && exists k :: 0 <= k <= |t| && Accepts(p[1..], t[k..])
  }

  // ---------- Meaning ----------

  lemma {:induction false} AcceptedIsMatch(p: string, t: string)
    requires Accepts(p, t)
    ensures Matches(p, t)
    decreases |p|
  {
    if p != "" {
      if t != "" && Takes(p[0], t[0]) {
        AcceptedIsMatch(p[1..], t[1..]);
        if p[0] == '*' {
          assert Matches(p[1..], t[1..]);
        }
      } else {
        var k :| 0 <= k <= |t| && Accepts(p[1..], t[k..]);
        AcceptedIsMatch(p[1..], t[k..]);
      }
    }
  }

  predicate Plain(s: string) {
    forall i :: 0 <= i < |s| ==> s[i] != '*'
  }

  // Where the pattern or the text has no star, the loop accepts exactly what the pattern means.
  lemma {:induction false} PlainMatchIsAccepted(p: string, t: string)
    requires Matches(p, t) && (Plain(t) || Plain(p))
    ensures Accepts(p, t)
    decreases |p|
  {
    if p != "" {
      if p[0] == '*' {
        var k :| 0 <= k <= |t| && Matches(p[1..], t[k..]);
        PlainMatchIsAccepted(p[1..], t[k..]);
      } else {
        PlainMatchIsAccepted(p[1..], t[1..]);
      }
    }
  }

  // A star in the text can use up the wildcard.
  lemma StarInTextIsMissed()
    ensures Matches("*a", "*ba") && !Accepts("*a", "*ba")
  {
    var p, t := "*a", "*ba";
    assert p[1..] == "a" && t[2..] == "a" && t[1..] == "ba" && "ba"[1..] == "a" && "a"[1..] == "";
    assert Matches("a", "a");
    assert Matches(p[1..], t[2..]);
  }

  // ---------- Which texts and patterns the loop serves ----------

  function Marks(n: nat): (p: string)
    ensures |p| == n && forall i :: 0 <= i < n ==> p[i] == '?'
  {
    if n == 0 then "" else "?" + Marks(n - 1)
  }

  lemma {:induction false} MarksCount(n: nat, t: string)
    ensures Matches(Marks(n), t) <==> |t| == n
    ensures Accepts(Marks(n), t) <==> |t| == n
  {
    if n > 0 && t != "" {
      assert Marks(n)[1..] == Marks(n - 1);
      MarksCount(n - 1, t[1..]);
    }
  }

  // For a text with a star: question marks up to its first one, then a star, which the loop
  // matches with that one, and a question mark for each remaining character.
  function PatternMissing(t: string): (p: string)
    requires !Plain(t)
  {
    if t[0] == '*' then "*" + Marks(|t|) else "?" + PatternMissing(t[1..])
  }

  lemma {:induction false} TextIsMissed(t: string)
    requires !Plain(t)
    ensures Matches(PatternMissing(t), t) && !Accepts(PatternMissing(t), t)
  {
    var p := PatternMissing(t);
    if t[0] == '*' {
      assert p[1..] == Marks(|t|) && t[0..] == t;
      MarksCount(|t|, t);
      MarksCount(|t|, t[1..]);
    } else {
      assert p[1..] == PatternMissing(t[1..]);
      TextIsMissed(t[1..]);
    }
  }

  // The loop finds a text under every pattern that means it exactly if the text has no star.
  lemma TextServedIffPlain(t: string)
    ensures (forall p :: Matches(p, t) ==> Accepts(p, t)) <==> Plain(t)
  {
    if Plain(t) {
      forall p | Matches(p, t) ensures Accepts(p, t) {
        PlainMatchIsAccepted(p, t);
      }
    } else {
      TextIsMissed(t);
    }
  }

  // What a pattern says behind its last star.
  function BehindLastStar(p: string): (v: string)
    requires !Plain(p)
  {
    if Plain(p[1..]) then p[1..] else BehindLastStar(p[1..])
  }

  lemma {:induction false} MatchesItself(p: string)
    ensures Matches(p, p)
  {
    if p != "" {
      MatchesItself(p[1..]);
    }
  }

  // The last star can take everything up to the second copy of what stands behind it.
  lemma {:induction false} RepeatMatches(p: string)
    requires !Plain(p)
    ensures Matches(p, p + "a" + BehindLastStar(p))
  {
    var v := BehindLastStar(p);
    var t := p + "a" + v;
    if Plain(p[1..]) {
      assert p[0] == '*';
      assert t[|p| + 1..] == v;
      MatchesItself(v);
    } else {
      assert t[1..] == p[1..] + "a" + v;
      RepeatMatches(p[1..]);
    }
  }

  // The loop takes the pattern character by character from the text and has text left over.
  lemma PatternMisses(p: string)
    requires !Plain(p)
    ensures Matches(p, p + "a" + BehindLastStar(p)) && !Accepts(p, p + "a" + BehindLastStar(p))
  {
    var t := p + "a" + BehindLastStar(p);
    RepeatMatches(p);
    assert Run(p, t, 0, |p|, 0);
    AlongRun(p, t, 0, |p|, 0);
    assert p[0..] == p && t[0..] == t && p[|p|..] == "";
  }

  // A pattern finds every text that it means exactly if it has no star.
  lemma PatternServesIffPlain(p: string)
    ensures (forall t :: Matches(p, t) ==> Accepts(p, t)) <==> Plain(p)
  {
    if Plain(p) {
      forall t | Matches(p, t) ensures Accepts(p, t) {
        PlainMatchIsAccepted(p, t);
      }
    } else {
      PatternMisses(p);
    }
  }

  // ---------- Runs of taken characters ----------

  // The pattern from a to b takes the text from i on, one by one.
  predicate Run(p: string, t: string, a: nat, b: nat, i: nat) {
    a <= b <= |p| && i + (b - a) <= |t| && forall x :: a <= x < b ==> Takes(p[x], t[i + (x - a)])
  }

  lemma {:induction false} AlongRun(p: string, t: string, a: nat, b: nat, i: nat)
    requires Run(p, t, a, b, i)
    ensures Accepts(p[a..], t[i..]) == Accepts(p[b..], t[i + (b - a)..])
    decreases b - a
  {
    if a < b {
      assert p[a..][1..] == p[a + 1..] && t[i..][1..] == t[i + 1..];
      AlongRun(p, t, a + 1, b, i + 1);
    }
  }

  // Acceptance of p from a on somewhere at or behind j.
  ghost predicate Later(p: string, t: string, a: nat, j: nat)
    requires a <= |p|
  {
    exists q :: j <= q <= |t| && Accepts(p[a..], t[q..])
  }

  // Starting later than a run never comes out before its end: with equal positions the run itself
  // decides, and until then a star gives up at most the lead.
  lemma {:induction false} LaterThanRun(p: string, t: string, a: nat, b: nat, i: nat, q: nat)
    requires Run(p, t, a, b, i) && i <= q <= |t| && Accepts(p[a..], t[q..])
    ensures Later(p, t, b, i + (b - a))
    decreases b - a
  {
    if a < b {
      var rest, here := p[a..], t[q..];
      assert rest[1..] == p[a + 1..];
      if here != "" && Takes(rest[0], here[0]) {
        assert here[1..] == t[q + 1..];
        LaterThanRun(p, t, a + 1, b, i + 1, q + 1);
      } else {
        assert q != i;
        var k :| 0 <= k <= |here| && Accepts(rest[1..], here[k..]);
        assert here[k..] == t[q + k..];
        LaterThanRun(p, t, a + 1, b, i + 1, q + k);
      }
    }
  }

  // ---------- The loop's case analysis ----------

  // A star met at the end of the run takes over from the star before it.
  lemma NewStar(p: string, t: string, a: nat, b: nat, i: nat)
    requires Run(p, t, a, b, i) && b < |p| && p[b] == '*'
    requires var si := i + (b - a); si < |t| && !Takes(p[b], t[si])
    ensures Later(p, t, a, i) <==> Later(p, t, b + 1, i + (b - a))
  {
    var si := i + (b - a);
    if Later(p, t, a, i) {
      var q :| i <= q <= |t| && Accepts(p[a..], t[q..]);
      LaterThanRun(p, t, a, b, i, q);
      var y :| si <= y <= |t| && Accepts(p[b..], t[y..]);
      StarMovesOn(p, t, b, y);
    }
    if Later(p, t, b + 1, si) {
      FirstStar(p, t, b, si);
      AlongRun(p, t, a, b, i);
    }
  }

  lemma FirstStar(p: string, t: string, b: nat, si: nat)
    requires b < |p| && p[b] == '*' && si < |t| && !Takes(p[b], t[si])
    ensures Accepts(p[b..], t[si..]) <==> Later(p, t, b + 1, si)
  {
    var rest, here := p[b..], t[si..];
    assert rest[1..] == p[b + 1..];
    if Later(p, t, b + 1, si) {
      var q :| si <= q <= |t| && Accepts(p[b + 1..], t[q..]);
      assert here[q - si..] == t[q..];
    }
    if Accepts(rest, here) {
      var k :| 0 <= k <= |here| && Accepts(rest[1..], here[k..]);
      assert here[k..] == t[si + k..];
    }
  }

  lemma StarMovesOn(p: string, t: string, b: nat, y: nat)
    requires b < |p| && p[b] == '*' && y <= |t| && Accepts(p[b..], t[y..])
    ensures Later(p, t, b + 1, y)
  {
    var rest, here := p[b..], t[y..];
    assert rest[1..] == p[b + 1..];
    if here != "" && Takes(rest[0], here[0]) {
      assert here[1..] == t[y + 1..];
    } else {
      var k :| 0 <= k <= |here| && Accepts(rest[1..], here[k..]);
      assert here[k..] == t[y + k..];
    }
  }

  // Where the run stops without a star, the position it started from is lost.
  lemma StartLost(p: string, t: string, a: nat, b: nat, i: nat)
    requires Run(p, t, a, b, i) && i + (b - a) < |t|
    requires b == |p| || (p[b] != '*' && !Takes(p[b], t[i + (b - a)]))
    ensures !Accepts(p[b..], t[i + (b - a)..])
    ensures Later(p, t, a, i) <==> Later(p, t, a, i + 1)
  {
    AlongRun(p, t, a, b, i);
  }

  predicate Stars(p: string) {
    forall i :: 0 <= i < |p| ==> p[i] == '*'
  }

  lemma {:induction false} StarsAcceptNothing(p: string)
    ensures Accepts(p, "") <==> Stars(p)
    decreases |p|
  {
    if p != "" {
      StarsAcceptNothing(p[1..]);
      assert ""[0..] == "";
      if p[0] == '*' {
        assert Stars(p) <==> Stars(p[1..]) by {
          assert forall i :: 0 <= i < |p| - 1 ==> p[1..][i] == p[i + 1];
          if Stars(p[1..]) {
            assert forall i :: 1 <= i < |p| ==> p[i] == p[1..][i - 1];
          }
        }
      }
    }
  }

  // At the end of the text only stars may be left of the pattern.
  lemma TextEnds(p: string, t: string, a: nat, b: nat, i: nat)
    requires Run(p, t, a, b, i) && i + (b - a) == |t|
    ensures Later(p, t, a, i) <==> Accepts(p[b..], "")
  {
    AlongRun(p, t, a, b, i);
    assert t[|t|..] == "";
    if Later(p, t, a, i) {
      var q :| i <= q <= |t| && Accepts(p[a..], t[q..]);
      LaterThanRun(p, t, a, b, i, q);
    }
  }

  // ---------- The loop ----------

  method GlobMatch(pattern: string, str: string) returns (matched: bool)
    ensures matched == Accepts(pattern, str)
    ensures matched ==> Matches(pattern, str)
    ensures Matches(pattern, str) && (Plain(pattern) || Plain(str)) ==> matched
  {
    hide Accepts;
    hide Matches;
    hide Later;
    var pi, si := 0, 0;
    var starP, starS := -1, 0;
    assert pattern[0..] == pattern && str[0..] == str;
    ghost var goal := Accepts(pattern, str);
    if Matches(pattern, str) && (Plain(pattern) || Plain(str)) {
      PlainMatchIsAccepted(pattern, str);
    }
    if goal {
      AcceptedIsMatch(pattern, str);
    }
    while si < |str|
      invariant -1 <= starP < pi <= |pattern| || (starP == -1 && pi == 0)
      invariant 0 <= starS <= si <= |str|
      invariant starP == -1 ==> starS == 0
      invariant Run(pattern, str, starP + 1, pi, starS) && si == starS + (pi - (starP + 1))
      invariant goal == if starP == -1 then Accepts(pattern, str) else Later(pattern, str, starP + 1, starS)
      decreases |pattern| - starP, |str| - starS, |str| - si
    {
      if pi < |pattern| && (pattern[pi] == '?' || pattern[pi] == str[si]) {
        pi := pi + 1;
        si := si + 1;
      } else if pi < |pattern| && pattern[pi] == '*' {
        FirstStar(pattern, str, pi, si);
        if starP == -1 {
          AlongRun(pattern, str, 0, pi, 0);
        } else {
          NewStar(pattern, str, starP + 1, pi, starS);
        }
        starP := pi;
        starS := si;
        pi := pi + 1;
      } else if starP != -1 {
        StartLost(pattern, str, starP + 1, pi, starS);
        pi := starP + 1;
        starS := starS + 1;
        si := starS;
      } else {
        StartLost(pattern, str, 0, pi, 0);
        AlongRun(pattern, str, 0, pi, 0);
        return false;
      }
    }
    assert str[si..] == "";
    if starP == -1 {
      AlongRun(pattern, str, 0, pi, 0);
    } else {
      TextEnds(pattern, str, starP + 1, pi, starS);
    }
    assert goal == Accepts(pattern[pi..], "");
    StarsAcceptNothing(pattern[pi..]);
    ghost var rest := pattern[pi..];
    ghost var from := pi;
    while pi < |pattern| && pattern[pi] == '*'
      invariant from <= pi <= |pattern| && forall x :: from <= x < pi ==> pattern[x] == '*'
    {
      pi := pi + 1;
    }
    if pi < |pattern| {
      assert rest[pi - from] == pattern[pi];
    }
    matched := pi == |pattern|;
  }
}
