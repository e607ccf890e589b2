/**
 The `*` / `?` matcher that asset groups, rules, collectors and asset profiles share.
 The loop remembers only the last star it met.  It tests literal equality before the star,
 so a star in the text can swallow a star of the pattern.
 */
module Wildcard {
  import opened Text

  /** What pattern `p[i..]` means: the texts `t[j..]` it denotes. */
  ghost predicate Denotes(p: string, t: string, i: nat, j: nat)
    requires i <= |p| && j <= |t|
    decreases |p| - i, 0
  {
    if i == |p| then j == |t|
    else if p[i] == '*' then DenotesLater(p, t, i + 1, j)
    else j < |t| && (p[i] == '?' || p[i] == t[j]) && Denotes(p, t, i + 1, j + 1)
  }

  /** `p[i..]` denotes some suffix of `t[j..]`: what a star in front of it allows. */
  ghost predicate DenotesLater(p: string, t: string, i: nat, j: nat)
    requires i <= |p|
    decreases |p| - i, 1
  {
    exists k: nat :: j <= k <= |t| && Denotes(p, t, i, k)
  }

  /** The case-insensitive meaning of a pattern. */
  ghost predicate Meaning(pattern: string, text: string) {
    Denotes(Lower(pattern), Lower(text), 0, 0)
  }

  function SkipStars(p: string, pi: nat): (r: nat)
    requires pi <= |p|
    ensures pi <= r <= |p|
    decreases |p| - pi
  {
    if pi < |p| && p[pi] == '*' then SkipStars(p, pi + 1) else pi
  }

  /** The loop from the state (pi, ti, star, mark); star is -1 for npos. */
  function Run(p: string, t: string, pi: nat, ti: nat, star: int, mark: nat): bool
    requires pi <= |p| && mark <= ti <= |t| && -1 <= star < pi
    decreases |t| - mark, |t| - ti, |p| - pi
  {
    if ti == |t| then SkipStars(p, pi) == |p|
    else if pi < |p| && (p[pi] == '?' || p[pi] == t[ti]) then Run(p, t, pi + 1, ti + 1, star, mark)
    else if pi < |p| && p[pi] == '*' then Run(p, t, pi + 1, ti, pi, ti)
    else if star != -1 then Run(p, t, star + 1, mark + 1, star, mark + 1)
    else false
  }

  function WildcardMatch(pattern: string, text: string): bool {
    Run(Lower(pattern), Lower(text), 0, 0, -1, 0)
  }

  method Match(pattern: string, text: string) returns (r: bool)
    ensures r == WildcardMatch(pattern, text)
    ensures r ==> Meaning(pattern, text)
    ensures '*' !in text ==> (r <==> Meaning(pattern, text))
  {
    var p, t := Lower(pattern), Lower(text);
    var pi, ti, star, mark := 0, 0, -1, 0;
    Sound(pattern, text);
    if '*' !in text { Complete(pattern, text); }
    while ti < |t|
      invariant pi <= |p| && mark <= ti <= |t| && -1 <= star < pi
      invariant Run(p, t, pi, ti, star, mark) == WildcardMatch(pattern, text)
      decreases |t| - mark, |t| - ti, |p| - pi
    {
      if pi < |p| && (p[pi] == '?' || p[pi] == t[ti]) {
        pi, ti := pi + 1, ti + 1;
      } else if pi < |p| && p[pi] == '*' {
        star, pi, mark := pi, pi + 1, ti;
      } else if star != -1 {
        mark := mark + 1;
        pi, ti := star + 1, mark;
      } else {
        return false;
      }
    }
    while pi < |p| && p[pi] == '*'
      invariant pi <= |p| && SkipStars(p, pi) == |p| <==> WildcardMatch(pattern, text)
    {
      pi := pi + 1;
    }
    return pi == |p|;
  }

  /** The collectors' own matcher, which folds the case of each pair of characters it compares. */
  method GlobMatch(pattern: string, text: string) returns (r: bool)
    ensures r == WildcardMatch(pattern, text)
  {
    hide LowerChar;
    ghost var p, t := Lower(pattern), Lower(text);
    var pi, ti, star, mark := 0, 0, -1, 0;
    while ti < |text|
      invariant pi <= |pattern| && mark <= ti <= |text| && -1 <= star < pi
      invariant Run(p, t, pi, ti, star, mark) == WildcardMatch(pattern, text)
      decreases |text| - mark, |text| - ti, |pattern| - pi
    {
      if pi < |pattern| && (pattern[pi] == '?' || LowerChar(pattern[pi]) == LowerChar(text[ti])) {
        pi, ti := pi + 1, ti + 1;
      } else if pi < |pattern| && pattern[pi] == '*' {
        star, pi, mark := pi, pi + 1, ti;
      } else if star != -1 {
        mark := mark + 1;
        pi, ti := star + 1, mark;
      } else {
        return false;
      }
    }
    while pi < |pattern| && pattern[pi] == '*'
      invariant pi <= |pattern| && SkipStars(p, pi) == |p| <==> WildcardMatch(pattern, text)
    {
      pi := pi + 1;
    }
    return pi == |pattern|;
  }

  // ---------- the loop against the meaning ----------

  /** Some later restart of the last star still matches. */
  ghost predicate Restarts(p: string, t: string, star: int, mark: nat)
    requires -1 <= star < |p|
  {
    star != -1 && DenotesLater(p, t, star + 1, mark + 1)
  }

  lemma {:induction false} SkipStarsDenotes(p: string, t: string, pi: nat)
    requires pi <= |p|
    ensures SkipStars(p, pi) == |p| <==> Denotes(p, t, pi, |t|)
    decreases |p| - pi
  {
    if pi < |p| && p[pi] == '*' {
      SkipStarsDenotes(p, t, pi + 1);
      if Denotes(p, t, pi + 1, |t|) {
        assert |t| <= |t| && Denotes(p, t, pi + 1, |t|);
      }
    }
  }

  lemma {:induction false} RunSound(p: string, t: string, pi: nat, ti: nat, star: int, mark: nat)
    requires pi <= |p| && mark <= ti <= |t| && -1 <= star < pi
    requires Run(p, t, pi, ti, star, mark)
    ensures Denotes(p, t, pi, ti) || Restarts(p, t, star, mark)
    decreases |t| - mark, |t| - ti, |p| - pi
  {
    if ti == |t| {
      SkipStarsDenotes(p, t, pi);
    } else if pi < |p| && (p[pi] == '?' || p[pi] == t[ti]) {
      RunSound(p, t, pi + 1, ti + 1, star, mark);
    } else if pi < |p| && p[pi] == '*' {
      RunSound(p, t, pi + 1, ti, pi, ti);
      assert Denotes(p, t, pi, ti);
    } else {
      RunSound(p, t, star + 1, mark + 1, star, mark + 1);
    }
  }

  /** A pattern without stars between `i` and `i + len` eats exactly `len` characters. */
  lemma {:induction false} StarFreeSegment(p: string, t: string, i: nat, k: nat, len: nat)
    requires i + len <= |p| && k <= |t|
    requires forall x :: i <= x < i + len ==> p[x] != '*'
    requires Denotes(p, t, i, k)
    ensures k + len <= |t| && Denotes(p, t, i + len, k + len)
    decreases len
  {
    if len > 0 {
      StarFreeSegment(p, t, i + 1, k + 1, len - 1);
    }
  }

  /**
   On a star-free text nothing is lost by forgetting every star but the last: whatever an
   earlier restart could still match, the newer star matches too.
   */
  lemma {:induction false} RunComplete(p: string, t: string, pi: nat, ti: nat, star: int, mark: nat)
    requires pi <= |p| && mark <= ti <= |t| && -1 <= star < pi
    requires '*' !in t
    requires star != -1 ==> ti - mark == pi - (star + 1) && forall x :: star < x < pi ==> p[x] != '*'
    requires Denotes(p, t, pi, ti) || Restarts(p, t, star, mark)
    ensures Run(p, t, pi, ti, star, mark)
    decreases |t| - mark, |t| - ti, |p| - pi
  {
    if Restarts(p, t, star, mark) {
      var k: nat :| mark < k <= |t| && Denotes(p, t, star + 1, k);
      StarFreeSegment(p, t, star + 1, k, pi - (star + 1));
      var there := k + (pi - (star + 1));
      assert ti < there <= |t| && Denotes(p, t, pi, there);
      if pi < |p| && p[pi] == '*' {
        assert Denotes(p, t, pi, ti);
        AfterStar(p, t, pi, ti);
        RunComplete(p, t, pi + 1, ti, pi, ti);
      } else if pi < |p| && (p[pi] == '?' || p[pi] == t[ti]) {
        RunComplete(p, t, pi + 1, ti + 1, star, mark);
      } else {
        AfterRestart(p, t, star, mark, k);
        RunComplete(p, t, star + 1, mark + 1, star, mark + 1);
      }
    } else if ti == |t| {
      SkipStarsDenotes(p, t, pi);
    } else if p[pi] == '*' {
      AfterStar(p, t, pi, ti);
      RunComplete(p, t, pi + 1, ti, pi, ti);
    } else {
      RunComplete(p, t, pi + 1, ti + 1, star, mark);
    }
  }

  lemma {:induction false} AfterStar(p: string, t: string, pi: nat, ti: nat)
    requires pi < |p| && ti <= |t| && p[pi] == '*' && Denotes(p, t, pi, ti)
    ensures Denotes(p, t, pi + 1, ti) || Restarts(p, t, pi, ti)
  {
    var k: nat :| ti <= k <= |t| && Denotes(p, t, pi + 1, k);
    if k != ti {
      assert ti < k;
    }
  }

  lemma {:induction false} AfterRestart(p: string, t: string, star: int, mark: nat, k: nat)
    requires 0 <= star < |p| && mark < k <= |t| && Denotes(p, t, star + 1, k)
    ensures Denotes(p, t, star + 1, mark + 1) || Restarts(p, t, star, mark + 1)
  {
    if k != mark + 1 {
      assert mark + 1 < k;
    }
  }

  lemma {:induction false} Sound(pattern: string, text: string)
    ensures WildcardMatch(pattern, text) ==> Meaning(pattern, text)
  {
    if WildcardMatch(pattern, text) {
      RunSound(Lower(pattern), Lower(text), 0, 0, -1, 0);
    }
  }

  lemma {:induction false} Complete(pattern: string, text: string)
    requires '*' !in text
    ensures Meaning(pattern, text) ==> WildcardMatch(pattern, text)
  {
    if Meaning(pattern, text) {
      RunComplete(Lower(pattern), Lower(text), 0, 0, -1, 0);
    }
  }

  // ---------- exactly where the loop meets the meaning ----------

  /** While pattern and text agree letter by letter the loop just walks over them. */
  lemma {:induction false} RunLiteral(p: string, t: string, i: nat, n: nat)
    requires i <= n <= |p| && n <= |t| && p[..n] == t[..n]
    ensures Run(p, t, i, i, -1, 0) == Run(p, t, n, n, -1, 0)
    decreases n - i
  {
    if i < n {
      assert p[i] == p[..n][i] == t[..n][i] == t[i];
      RunLiteral(p, t, i + 1, n);
    }
  }

  lemma {:induction false} LiteralDenotes(p: string, t: string, i: nat, n: nat)
    requires i <= n <= |p| && n <= |t| && p[..n] == t[..n] && '*' !in p[..n]
    requires Denotes(p, t, n, n)
    ensures Denotes(p, t, i, i)
    decreases n - i
  {
    if i < n {
      assert p[i] == p[..n][i] == t[..n][i] == t[i];
      LiteralDenotes(p, t, i + 1, n);
    }
  }

  function FirstStar(t: string): (n: nat)
    ensures n <= |t| && '*' !in t[..n] && (n < |t| ==> t[n] == '*')
  {
    if t == "" || t[0] == '*' then 0
    else
      var n := FirstStar(t[1..]);
      assert t[..n + 1] == [t[0]] + t[1..][..n];
      n + 1
  }

  /** A pattern on which the loop rejects a text that the pattern denotes. */
  function Breaking(t: string): string
    requires '*' in t
  {
    t[..FirstStar(t)] + (if FirstStar(t) + 1 < |t| then "*" else "*?")
  }

  lemma {:induction false} BreakingBreaks(t: string)
    requires '*' in t && Lower(t) == t
    ensures Meaning(Breaking(t), t) && !WildcardMatch(Breaking(t), t)
  {
    var n, p := FirstStar(t), Breaking(t);
    assert Lower(p) == p;
    assert p[..n] == t[..n];
    RunLiteral(p, t, 0, n);
    if n + 1 < |t| {
      assert Denotes(p, t, n + 1, |t|);
      assert Denotes(p, t, n, n);
    } else {
      assert Denotes(p, t, n + 2, n + 1);
      assert Denotes(p, t, n + 1, n);
      assert Denotes(p, t, n, n);
      assert Run(p, t, n, n, -1, 0) == Run(p, t, n + 1, n + 1, -1, 0);
    }
    LiteralDenotes(p, t, 0, n);
  }

  /** The loop agrees with the meaning of every pattern on exactly the texts without a star. */
  lemma {:induction false} ExactlyOnStarFreeTexts(text: string)
    ensures (forall pattern: string :: WildcardMatch(pattern, text) <==> Meaning(pattern, text)) <==> '*' !in text
  {
    if '*' !in text {
      forall pattern: string
        ensures WildcardMatch(pattern, text) <==> Meaning(pattern, text)
      {
        Sound(pattern, text);
        Complete(pattern, text);
      }
    } else {
      var t := Lower(text);
      var i :| 0 <= i < |text| && text[i] == '*';
      assert t[i] == '*';
      LowerIdempotent(text);
      BreakingBreaks(t);
      assert !(WildcardMatch(Breaking(t), text) <==> Meaning(Breaking(t), text));
    }
  }

  /** A pattern without wildcards matches exactly the texts equal to it up to case. */
  lemma {:induction false} PlainPatternFrom(p: string, t: string, i: nat)
    requires i <= |p| && i <= |t|
    requires '*' !in p && '?' !in p && p[..i] == t[..i]
    ensures Run(p, t, i, i, -1, 0) <==> p == t
    decreases |p| - i
  {
    if i < |t| && i < |p| && p[i] == t[i] {
      assert p[..i + 1] == t[..i + 1];
      PlainPatternFrom(p, t, i + 1);
    }
    if i == |t| && i < |p| {
      assert p[i] != '*';
    }
  }

  lemma {:induction false} PlainPattern(pattern: string, text: string)
    requires '*' !in pattern && '?' !in pattern
    ensures WildcardMatch(pattern, text) <==> Lower(pattern) == Lower(text)
  {
    PlainPatternFrom(Lower(pattern), Lower(text), 0);
  }
}
