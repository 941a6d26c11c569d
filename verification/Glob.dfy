/** The IAM wildcard matcher: `*` is any run of characters, `?` is one character,
    letter case is ignored. The matcher is an iterative backtracking scan; its
    meaning is the recursive predicate Matches. */
module Glob {

  function LowerChar(c: char): char {
    if 'A' <= c <= 'Z' then c - 'A' + 'a' else c
  }

  function Lower(s: string): (r: string)
    ensures |r| == |s|
    ensures forall i :: 0 <= i < |s| ==> r[i] == LowerChar(s[i])
  {
    if s == "" then "" else [LowerChar(s[0])] + Lower(s[1..])
  }

  /** What a pattern means, independent of any matching algorithm. */
  predicate Matches(p: string, s: string)
    decreases |p| + |s|
  {
    if p == "" then s == ""
    else if p[0] == '*' then Matches(p[1..], s) || (s != "" && Matches(p, s[1..]))
    else s != "" && (p[0] == '?' || p[0] == s[0]) && Matches(p[1..], s[1..])
  }

  /** The scan's result from any point of its loop: `star` is the last star taken
      (-1 when none) and `resume` the text position its run currently ends at. */
  function Scan(p: string, s: string, pi: nat, si: nat, star: int, resume: nat): bool
    requires -1 <= star < pi <= |p| && resume <= si <= |s|
    decreases |s| - resume, |p| - star, |s| - si
  {
    if si < |s| then
      if pi < |p| && (p[pi] == '?' || p[pi] == s[si]) then Scan(p, s, pi + 1, si + 1, star, resume)
      else if pi < |p| && p[pi] == '*' then Scan(p, s, pi + 1, si, pi, si)
      else if star != -1 then Scan(p, s, star + 1, resume + 1, star, resume + 1)
      else false
    else
      AllStars(p[pi..])
  }

  predicate AllStars(p: string) {
    forall i :: 0 <= i < |p| ==> p[i] == '*'
  }

  /** The result of the matcher, as a function of its two arguments. */
  function GlobMatch(pattern: string, text: string): bool {
    Scan(Lower(pattern), Lower(text), 0, 0, -1, 0)
  }

  lemma ScanTurn(p: string, s: string, pi: nat, si: nat, star: int, resume: nat)
    requires -1 <= star < pi <= |p| && resume <= si < |s|
    ensures Scan(p, s, pi, si, star, resume)
         == if pi < |p| && (p[pi] == '?' || p[pi] == s[si]) then Scan(p, s, pi + 1, si + 1, star, resume)
            else if pi < |p| && p[pi] == '*' then Scan(p, s, pi + 1, si, pi, si)
            else if star != -1 then Scan(p, s, star + 1, resume + 1, star, resume + 1)
            else false
  {
  }

  /** How often a loop goes round from any point of the scan, the trailing loop over stars included. */
  function Rounds(p: string, s: string, pi: nat, si: nat, star: int, resume: nat): nat
    requires -1 <= star < pi <= |p| && resume <= si <= |s|
    decreases |s| - resume, |p| - star, |s| - si
  {
    if si < |s| then
      if pi < |p| && (p[pi] == '?' || p[pi] == s[si]) then 1 + Rounds(p, s, pi + 1, si + 1, star, resume)
      else if pi < |p| && p[pi] == '*' then 1 + Rounds(p, s, pi + 1, si, pi, si)
      else if star != -1 then 1 + Rounds(p, s, star + 1, resume + 1, star, resume + 1)
      else 1
    else
      LeadingStars(p[pi..])
  }

  function LeadingStars(p: string): (n: nat)
    ensures n <= |p|
  {
    if p != "" && p[0] == '*' then 1 + LeadingStars(p[1..]) else 0
  }

  lemma RoundsTurn(p: string, s: string, pi: nat, si: nat, star: int, resume: nat)
    requires -1 <= star < pi <= |p| && resume <= si < |s|
    ensures Rounds(p, s, pi, si, star, resume)
         == 1 + if pi < |p| && (p[pi] == '?' || p[pi] == s[si]) then Rounds(p, s, pi + 1, si + 1, star, resume)
                else if pi < |p| && p[pi] == '*' then Rounds(p, s, pi + 1, si, pi, si)
                else if star != -1 then Rounds(p, s, star + 1, resume + 1, star, resume + 1)
                else 0
  {
  }

  method GlobMatchLoop(pattern: string, text: string) returns (r: bool, ghost rounds: nat)
    ensures r == GlobMatch(pattern, text)
    ensures rounds == Rounds(Lower(pattern), Lower(text), 0, 0, -1, 0)
  {
    r, rounds := ScanLoop(Lower(pattern), Lower(text));
  }

  /** Both loops, over lower-cased strings. `rounds` is how often they go round. */
  method ScanLoop(p: string, s: string) returns (r: bool, ghost rounds: nat)
    ensures r == Scan(p, s, 0, 0, -1, 0)
    ensures rounds == Rounds(p, s, 0, 0, -1, 0)
  {
    var pi, si: nat := 0, 0;
    var star: int, resume: nat := -1, 0;
    rounds := 0;
    while si < |s|
      invariant -1 <= star < pi <= |p| && resume <= si <= |s|
      invariant Scan(p, s, pi, si, star, resume) == Scan(p, s, 0, 0, -1, 0)
      invariant rounds + Rounds(p, s, pi, si, star, resume) == Rounds(p, s, 0, 0, -1, 0)
      decreases |s| - resume, |p| - star, |s| - si
    {
      ScanTurn(p, s, pi, si, star, resume);
      RoundsTurn(p, s, pi, si, star, resume);
      rounds := rounds + 1;
      if pi < |p| && (p[pi] == '?' || p[pi] == s[si]) {
        pi, si := pi + 1, si + 1;
      } else if pi < |p| && p[pi] == '*' {
        star, pi, resume := pi, pi + 1, si;
      } else if star != -1 {
        pi, resume := star + 1, resume + 1;
        si := resume;
      } else {
        return false, rounds;
      }
    }
    ghost var more;
    r, more := OnlyStarsLeft(p, pi);
    rounds := rounds + more;
  }

  /** The trailing loop: nothing but stars may be left of the pattern. */
  method OnlyStarsLeft(p: string, from: nat) returns (r: bool, ghost rounds: nat)
    requires from <= |p|
    ensures r == AllStars(p[from..]) && rounds == LeadingStars(p[from..])
  {
    var pi := from;
    rounds := 0;
    while pi < |p| && p[pi] == '*'
      invariant from <= pi <= |p|
      invariant forall i :: from <= i < pi ==> p[i] == '*'
      invariant rounds + LeadingStars(p[pi..]) == LeadingStars(p[from..])
    {
      assert p[pi..][1..] == p[pi + 1..];
      pi, rounds := pi + 1, rounds + 1;
    }
    r := pi == |p|;
    if pi < |p| { assert p[from..][pi - from] != '*'; }
  }

  // ----- facts about the meaning

  lemma {:induction false} StarsMatchEmpty(p: string)
    ensures Matches(p, "") == AllStars(p)
    decreases |p|
  {
    if p != "" && p[0] == '*' {
      StarsMatchEmpty(p[1..]);
      assert forall i :: 1 <= i < |p| ==> p[i] == p[1..][i - 1];
    }
  }

  lemma {:induction false} StarAbsorbs(p: string, s: string, k: nat)
    requires p != "" && p[0] == '*' && k <= |s| && Matches(p, s[k..])
    ensures Matches(p, s)
    decreases k
  {
    if k > 0 {
      assert s[1..][k - 1..] == s[k..];
      StarAbsorbs(p, s[1..], k - 1);
    } else {
      assert s[0..] == s;
    }
  }

  lemma {:induction false} StarSplits(p: string, s: string) returns (k: nat)
    requires p != "" && p[0] == '*' && Matches(p, s)
    ensures k <= |s| && Matches(p[1..], s[k..])
    decreases |s|
  {
    if Matches(p[1..], s) {
      k := 0;
      assert s[0..] == s;
    } else {
      k := StarSplits(p, s[1..]);
      assert s[1..][k..] == s[k + 1..];
      k := k + 1;
    }
  }

  /** A pattern made of two parts matches exactly the texts that split into two matched parts. */
  lemma {:induction false} MatchesConcat(p: string, q: string, s: string) returns (k: nat)
    requires Matches(p + q, s)
    ensures k <= |s| && Matches(p, s[..k]) && Matches(q, s[k..])
    decreases |p| + |s|
  {
    if p == "" {
      k := 0;
      assert p + q == q && s[0..] == s;
    } else {
      assert (p + q)[1..] == p[1..] + q;
      if p[0] == '*' {
        if Matches((p + q)[1..], s) {
          k := MatchesConcat(p[1..], q, s);
        } else {
          k := MatchesConcat(p, q, s[1..]);
          assert s[1..][k..] == s[k + 1..] && s[..k + 1][1..] == s[1..][..k];
          k := k + 1;
        }
      } else {
        k := MatchesConcat(p[1..], q, s[1..]);
        assert s[1..][k..] == s[k + 1..] && s[..k + 1][1..] == s[1..][..k];
        k := k + 1;
      }
    }
  }

  lemma {:induction false} ConcatMatches(p: string, q: string, s: string, t: string)
    requires Matches(p, s) && Matches(q, t)
    ensures Matches(p + q, s + t)
    decreases |p| + |s|
  {
    if p == "" {
      assert p + q == q && s + t == t;
    } else {
      assert (p + q)[1..] == p[1..] + q;
      if p[0] == '*' && Matches(p[1..], s) {
        ConcatMatches(p[1..], q, s, t);
      } else {
        assert (s + t)[1..] == s[1..] + t;
        if p[0] == '*' { ConcatMatches(p, q, s[1..], t); } else { ConcatMatches(p[1..], q, s[1..], t); }
      }
    }
  }

  lemma {:induction false} StarMatchesAll(s: string)
    ensures Matches("*", s)
    decreases |s|
  {
    if s != "" { StarMatchesAll(s[1..]); }
  }

  // ----- the scan is always sound, and complete when the text has no star of its own

  /** Text position si faces pattern position pi within the attempt that began after `star`. */
  ghost predicate InAttempt(p: string, s: string, pi: nat, si: nat, star: int, resume: nat) {
    && -1 <= star < pi <= |p| && resume <= si <= |s|
    && (star == -1 ==> pi == si && resume == 0)
    && (star != -1 ==> p[star] == '*' && pi - star - 1 == si - resume)
    && (forall i :: star < i < pi ==> Literal(p[i], s[si - (pi - i)]))
  }

  predicate Literal(a: char, b: char) {
    a != '*' && (a == '?' || a == b)
  }

  /** Walking over matched literal characters changes nothing. */
  lemma {:induction false} SkipLiterals(p: string, s: string, n: nat)
    requires n <= |p| && n <= |s|
    requires forall i :: 0 <= i < n ==> Literal(p[i], s[i])
    ensures Matches(p, s) == Matches(p[n..], s[n..])
    decreases n
  {
    if n == 0 {
      assert p[0..] == p && s[0..] == s;
    } else {
      assert Literal(p[0], s[0]);
      assert forall i :: 0 <= i < n - 1 ==> p[1..][i] == p[i + 1] && s[1..][i] == s[i + 1];
      SkipLiterals(p[1..], s[1..], n - 1);
      assert p[1..][n - 1..] == p[n..] && s[1..][n - 1..] == s[n..];
    }
  }

  lemma AttemptMeaning(p: string, s: string, pi: nat, si: nat, star: int, resume: nat)
    requires InAttempt(p, s, pi, si, star, resume)
    ensures Matches(p[star + 1..], s[resume..]) == Matches(p[pi..], s[si..])
  {
    var n := pi - star - 1;
    var a, b := p[star + 1..], s[resume..];
    assert si - resume == n;
    forall i | 0 <= i < n ensures Literal(a[i], b[i]) {
      assert Literal(p[star + 1 + i], s[si - (pi - (star + 1 + i))]);
    }
    SkipLiterals(a, b, n);
    assert a[n..] == p[pi..] && b[n..] == s[si..];
  }

  lemma TailIsLiteral(p: string, s: string, pi: nat, si: nat, star: nat, resume: nat)
    requires InAttempt(p, s, pi, si, star, resume)
    ensures forall i :: star < i < pi ==> p[i] != '*'
  {
    forall i | star < i < pi ensures p[i] != '*' {
      assert Literal(p[i], s[si - (pi - i)]);
    }
  }

  /** The star's real run is `k` longer than the one tried, and what is left of the pattern matches there. */
  lemma LaterRun(p: string, s: string, pi: nat, si: nat, star: nat, resume: nat) returns (k: nat)
    requires InAttempt(p, s, pi, si, star, resume)
    requires Matches(p[star..], s[resume..])
    ensures si + k <= |s| && Matches(p[pi..], s[si + k..])
  {
    var n := pi - star - 1;
    k := StarSplits(p[star..], s[resume..]);
    assert p[star..][1..] == p[star + 1..] && s[resume..][k..] == s[resume + k..];
    TailIsLiteral(p, s, pi, si, star, resume);
    ConsumeLiterals(p[star + 1..], s[resume + k..], n);
    assert p[star + 1..][n..] == p[pi..] && s[resume + k..][n..] == s[si + k..];
  }

  /** A run longer than the one tried leaves too little or a suffix for the rest of the pattern. */
  lemma LaterRunStillReaches(p: string, s: string, pi: nat, si: nat, star: nat, resume: nat)
    requires InAttempt(p, s, pi, si, star, resume)
    requires Matches(p[star..], s[resume..])
    ensures si == |s| ==> Matches(p[pi..], s[si..])
    ensures pi < |p| && p[pi] == '*' ==> Matches(p[pi..], s[si..])
  {
    var k := LaterRun(p, s, pi, si, star, resume);
    if si < |s| && pi < |p| && p[pi] == '*' {
      assert s[si..][k..] == s[si + k..];
      StarAbsorbs(p[pi..], s[si..], k);
    }
  }

  lemma {:induction false} ConsumeLiterals(p: string, s: string, n: nat)
    requires n <= |p| && Matches(p, s) && forall i :: 0 <= i < n ==> p[i] != '*'
    ensures n <= |s| && Matches(p[n..], s[n..])
    decreases n
  {
    if n == 0 {
      assert p[0..] == p && s[0..] == s;
    } else {
      ConsumeLiterals(p[1..], s[1..], n - 1);
      assert p[1..][n - 1..] == p[n..] && s[1..][n - 1..] == s[n..];
    }
  }

  lemma AttemptGrows(p: string, s: string, pi: nat, si: nat, star: int, resume: nat)
    requires InAttempt(p, s, pi, si, star, resume) && pi < |p| && si < |s| && Literal(p[pi], s[si])
    ensures InAttempt(p, s, pi + 1, si + 1, star, resume)
  {
    forall i | star < i < pi + 1 ensures Literal(p[i], s[si + 1 - (pi + 1 - i)]) {
      if i < pi { assert Literal(p[i], s[si - (pi - i)]); }
    }
  }

  /** What is asked while `star` was the last star taken: whether the pattern from it matches there. */
  predicate Asked(p: string, s: string, star: int, resume: nat)
    requires (star == -1 || 0 <= star < |p|) && resume <= |s|
  {
    if star == -1 then Matches(p, s) else Matches(p[star..], s[resume..])
  }

  /** The attempt under way decides the question, except that a failed one may be tried again from
      the next text position. */
  lemma AttemptDecides(p: string, s: string, pi: nat, si: nat, star: int, resume: nat)
    requires InAttempt(p, s, pi, si, star, resume)
    ensures Matches(p[pi..], s[si..]) ==> Asked(p, s, star, resume)
    ensures star == -1 || si == |s| || (pi < |p| && p[pi] == '*') ==> Asked(p, s, star, resume) == Matches(p[pi..], s[si..])
    ensures star != -1 && resume < |s| && !Matches(p[pi..], s[si..]) ==>
              Asked(p, s, star, resume) == Asked(p, s, star, resume + 1)
  {
    AttemptMeaning(p, s, pi, si, star, resume);
    if star == -1 {
      assert p[0..] == p && s[0..] == s;
    } else {
      assert p[star..][1..] == p[star + 1..];
      if resume < |s| { assert s[resume..][1..] == s[resume + 1..]; }
      if Matches(p[star..], s[resume..]) { LaterRunStillReaches(p, s, pi, si, star, resume); }
    }
  }

  /** What the scan answers at any point of its loop, for texts without a star. */
  lemma {:induction false} ScanIsMatches(p: string, s: string, pi: nat, si: nat, star: int, resume: nat)
    requires '*' !in s && InAttempt(p, s, pi, si, star, resume)
    ensures Scan(p, s, pi, si, star, resume) == Asked(p, s, star, resume)
    decreases |s| - resume, |p| - star, |s| - si
  {
    AttemptDecides(p, s, pi, si, star, resume);
    if si < |s| {
      ScanTurn(p, s, pi, si, star, resume);
      assert s[si] in s;
      if pi < |p| && (p[pi] == '?' || p[pi] == s[si]) {
        assert Literal(p[pi], s[si]);
        AttemptGrows(p, s, pi, si, star, resume);
        ScanIsMatches(p, s, pi + 1, si + 1, star, resume);
      } else if pi < |p| && p[pi] == '*' {
        ScanIsMatches(p, s, pi + 1, si, pi, si);
      } else {
        assert !Matches(p[pi..], s[si..]);
        if star != -1 { ScanIsMatches(p, s, star + 1, resume + 1, star, resume + 1); }
      }
    } else {
      assert s[si..] == "";
      StarsMatchEmpty(p[pi..]);
    }
  }

  /** Whatever the text, a scan that says yes is right: a star met literally still matches itself. */
  lemma {:induction false} ScanSound(p: string, s: string, pi: nat, si: nat, star: int, resume: nat)
    requires -1 <= star < pi <= |p| && resume <= si <= |s|
    requires Scan(p, s, pi, si, star, resume)
    ensures Matches(p[pi..], s[si..])
         || (star != -1 && exists k :: resume < k <= |s| && Matches(p[star + 1..], s[k..]))
    decreases |s| - resume, |p| - star, |s| - si
  {
    if si < |s| {
      assert p[pi..] != "" ==> p[pi..][1..] == p[pi + 1..];
      assert s[si..][1..] == s[si + 1..];
      if pi < |p| && (p[pi] == '?' || p[pi] == s[si]) {
        ScanSound(p, s, pi + 1, si + 1, star, resume);
        if p[pi] == '*' && Matches(p[pi + 1..], s[si + 1..]) {
          assert s[si..][1..] == s[si + 1..];
          assert Matches(p[pi..], s[si + 1..]);
        }
      } else if pi < |p| && p[pi] == '*' {
        ScanSound(p, s, pi + 1, si, pi, si);
        if !Matches(p[pi + 1..], s[si..]) {
          var k :| si < k <= |s| && Matches(p[pi + 1..], s[k..]);
          assert Matches(p[pi..], s[k..]);
          assert s[si..][k - si..] == s[k..];
          StarAbsorbs(p[pi..], s[si..], k - si);
        }
      } else {
        ScanSound(p, s, star + 1, resume + 1, star, resume + 1);
      }
    } else {
      assert s[si..] == "";
      StarsMatchEmpty(p[pi..]);
    }
  }

  lemma LowerKeepsStars(s: string)
    ensures '*' in Lower(s) <==> '*' in s
  {
    forall i | 0 <= i < |s| ensures Lower(s)[i] == '*' <==> s[i] == '*' {}
    if '*' in s { var i :| 0 <= i < |s| && s[i] == '*'; assert Lower(s)[i] == '*'; }
  }

  /** The matcher never says yes wrongly. */
  lemma GlobMatchSound(pattern: string, text: string)
    requires GlobMatch(pattern, text)
    ensures Matches(Lower(pattern), Lower(text))
  {
    var p, s := Lower(pattern), Lower(text);
    ScanSound(p, s, 0, 0, -1, 0);
    assert p[0..] == p && s[0..] == s;
  }

  /** On a text without stars the matcher decides the meaning exactly. */
  lemma GlobMatchExact(pattern: string, text: string)
    requires '*' !in text
    ensures GlobMatch(pattern, text) == Matches(Lower(pattern), Lower(text))
  {
    LowerKeepsStars(text);
    ScanIsMatches(Lower(pattern), Lower(text), 0, 0, -1, 0);
  }

  function Repeat(c: char, n: nat): (r: string)
    ensures |r| == n && forall i :: 0 <= i < n ==> r[i] == c
  {
    seq(n, _ => c)
  }

  /** A text with a star defeats this pattern: one `?` for each character before
      the star, the star, and a `?` more when the star ends the text. */
  function Witness(text: string, at: nat): string
    requires at < |text|
  {
    Repeat('?', at) + (if at + 1 == |text| then "*?" else "*")
  }

  lemma {:induction false} ScanSkipsQuestions(p: string, s: string, n: nat, i: nat)
    requires i <= n <= |p| && n <= |s|
    requires forall j :: 0 <= j < n ==> p[j] == '?'
    ensures Scan(p, s, i, i, -1, 0) == Scan(p, s, n, n, -1, 0)
    decreases n - i
  {
    if i < n { ScanSkipsQuestions(p, s, n, i + 1); }
  }

  lemma {:induction false} QuestionsMatch(s: string)
    ensures Matches(Repeat('?', |s|), s)
    decreases |s|
  {
    if s != "" {
      assert Repeat('?', |s|)[1..] == Repeat('?', |s[1..]|);
      QuestionsMatch(s[1..]);
    }
  }

  lemma WitnessMissed(text: string, at: nat)
    requires at < |text| && text[at] == '*'
    ensures !GlobMatch(Witness(text, at), text)
  {
    var p, s := Lower(Witness(text, at)), Lower(text);
    ScanSkipsQuestions(p, s, at, 0);
    assert s[at] == '*' && p[at] == '*';
    assert !Scan(p, s, at + 1, at + 1, -1, 0) by {
      if at + 1 == |text| { assert p[at + 1..][0] == '?'; }
    }
  }

  lemma TailMatches(s: string)
    requires s != "" && s[0] == '*'
    ensures Matches(if |s| == 1 then "*?" else "*", s)
  {
    if |s| == 1 {
      assert "*?"[1..] == "?" && "?"[1..] == "" && s[1..] == "";
      assert Matches("?", s);
    } else {
      StarMatchesAll(s);
    }
  }

  lemma LowerWitness(text: string, at: nat)
    requires at < |text|
    ensures Lower(Witness(text, at)) == Witness(text, at)
  {
    var w := Witness(text, at);
    forall i | 0 <= i < |w| ensures Lower(w)[i] == w[i] {
      assert w[i] == '?' || w[i] == '*';
    }
  }

  lemma WitnessMatchesItself(s: string, at: nat)
    requires at < |s| && s[at] == '*'
    ensures Matches(Witness(s, at), s)
  {
    var head, rest := s[..at], s[at..];
    QuestionsMatch(head);
    TailMatches(rest);
    ConcatMatches(Repeat('?', at), if |rest| == 1 then "*?" else "*", head, rest);
    assert head + rest == s;
  }

  lemma WitnessMatches(text: string, at: nat)
    requires at < |text| && text[at] == '*'
    ensures Matches(Lower(Witness(text, at)), Lower(text))
  {
    LowerWitness(text, at);
    assert Witness(text, at) == Witness(Lower(text), at);
    WitnessMatchesItself(Lower(text), at);
  }

  /** Exactly when the matcher means what it says: for a given text it agrees with
      the wildcard meaning on every pattern if and only if the text has no star. */
  lemma GlobMatchExactlyWhen(text: string)
    ensures (forall pattern :: GlobMatch(pattern, text) == Matches(Lower(pattern), Lower(text)))
       <==> '*' !in text
  {
    if '*' in text {
      var at :| 0 <= at < |text| && text[at] == '*';
      WitnessMatches(text, at);
      WitnessMissed(text, at);
    } else {
      forall pattern ensures GlobMatch(pattern, text) == Matches(Lower(pattern), Lower(text)) {
        GlobMatchExact(pattern, text);
      }
    }
  }

  /** Every text matches itself as a pattern, stars included. */
  lemma {:induction false} ScanReflexive(p: string, i: nat)
    requires i <= |p|
    ensures Scan(p, p, i, i, -1, 0)
    decreases |p| - i
  {
    if i < |p| { ScanReflexive(p, i + 1); } else { assert p[i..] == ""; }
  }

  lemma GlobMatchReflexive(text: string)
    ensures GlobMatch(text, text)
  {
    ScanReflexive(Lower(text), 0);
  }

  lemma {:induction false} LowerConcat(a: string, b: string)
    ensures Lower(a + b) == Lower(a) + Lower(b)
  {
    if a == "" {
      assert a + b == b;
    } else {
      assert (a + b)[1..] == a[1..] + b;
      LowerConcat(a[1..], b);
    }
  }

  lemma LowerTwice(a: string)
    ensures Lower(Lower(a)) == Lower(a)
  {
    forall i | 0 <= i < |a| ensures Lower(Lower(a))[i] == Lower(a)[i] {}
  }
}
