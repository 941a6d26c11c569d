/** How much work the matcher does: exactly when its loops go round at most pattern length times text
    length times, and what they cost otherwise. */
module GlobCost {
  import opened Basics
  import opened Glob

  // ----- arithmetic

  lemma Spread(a: nat, b: nat, c: nat)
    ensures (a + b) * c == a * c + b * c && a * (b + c) == a * b + a * c
  {
  }

  lemma AtLeast(a: nat, b: nat)
    requires a >= 1
    ensures a * b >= b && b * a >= b
  {
    Spread(a - 1, 1, b);
    assert (a - 1) * b >= 0;
  }

  // ----- from the first star on

  /** The most a scan still does, counted from the text position its star's run ends at: n characters
      follow the star, of which some is not a star, and k of the text are left. */
  function MostLeft(n: nat, k: nat): int { k * (n + 1) - 1 }

  lemma MostLeftDrops(n: nat, k: nat, d: nat)
    requires k >= 2 && d <= n
    ensures 1 + d + MostLeft(n, k - 1) <= MostLeft(n, k)
  {
    Spread(k - 1, 1, n + 1);
  }

  lemma MostLeftNests(n: nat, k: nat, d: nat)
    requires 1 <= d < n && d < k
    ensures d + 1 + MostLeft(n - d - 1, k - d) <= MostLeft(n, k)
    ensures k + 1 <= MostLeft(n, k) && n + k - d <= MostLeft(n, k)
  {
    Spread(k - d, d, n + 1);
    Spread(k - d, n - d, d + 1);
    AtLeast(k - d, d + 1);
    AtLeast(d, n + 1);
    Spread(k - 1, 1, n + 1);
    AtLeast(k - 1, n + 1);
  }

  /** Where a scan can be once it has taken a star: as far into the text as into the pattern since. The
      character after that star is not a star, unless the scan stands before it and before a text
      character that is none. */
  predicate AfterStar(p: string, s: string, pi: nat, si: nat, star: nat, resume: nat) {
    && star < pi <= |p| && resume <= si <= |s| && pi - star - 1 == si - resume
    && p[star] == '*'
    && (star + 1 < |p| && p[star + 1] == '*' ==> pi == star + 1 && si < |s| && s[si] != '*')
  }

  lemma RestStars(p: string, i: nat)
    requires i <= |p|
    ensures AllStars(p[i..]) <==> forall j :: i <= j < |p| ==> p[j] == '*'
    ensures i == |p| || p[i] != '*' ==> LeadingStars(p[i..]) == 0
  {
    forall j | i <= j < |p| ensures p[i..][j - i] == p[j] {}
  }

  /** r rounds are left, d characters past where the star's run ends; `stars` when only stars follow. */
  predicate Within(stars: bool, n: nat, k: nat, d: nat, r: nat) {
    if stars then r == n + k else if k == 0 then r == 0 else r + d <= MostLeft(n, k)
  }

  lemma TextEnds(n: nat, k: nat, r: nat)
    requires k >= 1 && k <= n && r <= n - k
    ensures Within(false, n, k, k, r)
  {
    AtLeast(k, n + 1);
  }

  lemma StarFollows(stars: bool, n: nat, k: nat, r: nat)
    requires n >= 1 && k >= 1 && Within(stars, n - 1, k, 0, r)
    ensures Within(stars, n, k, 0, 1 + r)
  {
    Spread(k, n, 1);
  }

  lemma StarFurtherOn(stars: bool, n: nat, k: nat, d: nat, r: nat)
    requires 1 <= d < n && d < k && Within(stars, n - d - 1, k - d, 0, r)
    ensures Within(false, n, k, d, 1 + r)
  {
    MostLeftNests(n, k, d);
  }

  lemma RunGrows(stars: bool, n: nat, k: nat, d: nat, r: nat)
    requires k >= 1 && d <= n && d < k && (stars ==> n == 0) && (!stars ==> n >= 1) && Within(stars, n, k - 1, 0, r)
    ensures Within(stars, n, k, d, 1 + r)
  {
    if !stars && k >= 2 { MostLeftDrops(n, k, d); }
  }

  lemma {:induction false} RoundsAfterStar(p: string, s: string, pi: nat, si: nat, star: nat, resume: nat)
    requires AfterStar(p, s, pi, si, star, resume)
    ensures Within(AllStars(p[star + 1..]), |p| - star - 1, |s| - resume, si - resume, Rounds(p, s, pi, si, star, resume))
    decreases |s| - resume, |p| - star, |s| - si
  {
    var n, k, d := |p| - star - 1, |s| - resume, si - resume;
    var stars := AllStars(p[star + 1..]);
    RestStars(p, star + 1);
    if si == |s| {
      RestStars(p, pi);
      if k >= 1 && !stars { TextEnds(n, k, Rounds(p, s, pi, si, star, resume)); }
    } else {
      RoundsTurn(p, s, pi, si, star, resume);
      if pi < |p| && (p[pi] == '?' || p[pi] == s[si]) {
        RoundsAfterStar(p, s, pi + 1, si + 1, star, resume);
      } else if pi < |p| && p[pi] == '*' {
        RoundsAfterStar(p, s, pi + 1, si, pi, si);
        RestStars(p, pi + 1);
        var r := Rounds(p, s, pi + 1, si, pi, si);
        if d == 0 { StarFollows(stars, n, k, r); } else { StarFurtherOn(AllStars(p[pi + 1..]), n, k, d, r); }
      } else {
        RoundsAfterStar(p, s, star + 1, resume + 1, star, resume + 1);
        RunGrows(stars, n, k, d, Rounds(p, s, star + 1, resume + 1, star, resume + 1));
      }
    }
  }

  // ----- from the start

  /** Where the shorter bound fails: no pattern for some text, no text for a pattern that begins with a
      star, or nothing but stars with one of the two a single character, before a text that does not
      begin with a star itself. */
  predicate CostsMore(p: string, s: string) {
    || (p == "" && s != "")
    || (p != "" && s == "" && p[0] == '*')
    || (p != "" && s != "" && s[0] != '*' && AllStars(p) && (|p| == 1 || |s| == 1))
  }

  /** The scan before its first star, f characters along, when every one so far was met literally. */
  lemma {:induction false} RoundsBeforeStar(p: string, s: string, f: nat)
    requires f <= |p| && f <= |s| && (f == 0 ==> !CostsMore(p, s))
    ensures f + Rounds(p, s, f, f, -1, 0) <= |p| * |s|
    decreases |s| - f
  {
    if f == |s| {
      RestStars(p, f);
      if |s| >= 1 { AtLeast(|s|, |p|); }
    } else {
      RoundsTurn(p, s, f, f, -1, 0);
      if f < |p| && (p[f] == '?' || p[f] == s[f]) {
        RoundsBeforeStar(p, s, f + 1);
      } else if f < |p| && p[f] == '*' {
        RoundsAfterStar(p, s, f + 1, f, f, f);
        RestStars(p, f + 1);
        FirstStar(p, s, f);
      } else if |p| >= 1 {
        AtLeast(|p|, |s|);
        AtLeast(|s|, |p|);
        if f == |p| { Spread(|p|, |p|, |s| - |p|); AtLeast(|p|, |p|); AtLeast(|p|, |s| - |p|); }
      }
    }
  }

  /** What the first star and everything after it costs fits beside the f characters before it. */
  lemma FirstStar(p: string, s: string, f: nat)
    requires f < |p| && f < |s| && p[f] == '*' && s[f] != '*' && (f == 0 ==> !CostsMore(p, s))
    ensures var n, k := |p| - f - 1, |s| - f;
            f + 1 + (if AllStars(p[f + 1..]) then n + k else MostLeft(n, k)) <= |p| * |s|
  {
    var n, k := |p| - f - 1, |s| - f;
    RestStars(p, f + 1);
    if f == 0 {
      if AllStars(p[1..]) { assert AllStars(p); }
      AtTheFront(AllStars(p[1..]), n, k);
    } else {
      FurtherIn(f, n, k);
    }
    assert (f + n + 1) * (f + k) == |p| * |s|;
  }

  lemma AtTheFront(stars: bool, n: nat, k: nat)
    requires k >= 1 && (stars ==> n >= 1 && k >= 2)
    ensures 1 + (if stars then n + k else MostLeft(n, k)) <= (n + 1) * k
  {
    if stars {
      Spread(n, 1, k);
      Spread(k - 1, 1, n);
      AtLeast(k - 1, n);
      AtLeast(n, k - 1);
      assert n * k == (k - 1) * n + n;
    }
  }

  lemma FurtherIn(f: nat, n: nat, k: nat)
    requires f >= 1 && k >= 1
    ensures f + 1 + n + k <= (f + n + 1) * (f + k) && f + 1 + MostLeft(n, k) <= (f + n + 1) * (f + k)
  {
    Spread(f, n + 1, f + k);
    Spread(n + 1, f, k);
    AtLeast(f, f + k);
    AtLeast(f, n + 1);
    AtLeast(k, n + 1);
  }

  lemma {:induction false} OnlyStars(p: string, s: string, i: nat)
    requires AllStars(p) && i < |p| && s != "" && s[0] != '*'
    ensures Rounds(p, s, i, 0, i - 1, 0) == |p| - i + |s|
  {
    RoundsTurn(p, s, i, 0, i - 1, 0);
    RoundsAfterStar(p, s, i + 1, 0, i, 0);
    RestStars(p, i + 1);
  }

  lemma OneStarOneCharacter()
    ensures Rounds("*", "a", 0, 0, -1, 0) == 2
  {
    OnlyStars("*", "a", 0);
  }

  /** Exactly when the loops go round at most pattern length times text length times. */
  lemma CostWithinProductExactlyWhen(p: string, s: string)
    ensures Rounds(p, s, 0, 0, -1, 0) <= |p| * |s| <==> !CostsMore(p, s)
  {
    if !CostsMore(p, s) {
      RoundsBeforeStar(p, s, 0);
    } else if p == "" {
      RoundsTurn(p, s, 0, 0, -1, 0);
    } else if s == "" {
      assert p[0..] == p;
    } else {
      OnlyStars(p, s, 0);
    }
  }

  /** Where it is more, it is at most the two lengths together, so the work is never of a higher order. */
  lemma CostOtherwise(p: string, s: string)
    requires CostsMore(p, s)
    ensures Rounds(p, s, 0, 0, -1, 0) <= |p| + |s|
  {
    if p == "" {
      RoundsTurn(p, s, 0, 0, -1, 0);
    } else if s != "" {
      OnlyStars(p, s, 0);
    }
  }
}
