/** What the matcher answers, said of the characters of pattern and text: `?` stands for any one
    character, `*` for any run, every other character for itself in either case. */
module GlobMeaning {
  import opened Glob
  import opened Policy

  /** The same character, or the two cases of one ASCII letter. */
  predicate SameLetter(c: char, d: char) {
    || c == d
    || ('A' <= c <= 'Z' && d as int == c as int + 32)
    || ('A' <= d <= 'Z' && c as int == d as int + 32)
  }

  /** Texts that differ at most in the case of ASCII letters. */
  predicate SameText(a: string, b: string) { |a| == |b| && forall i :: 0 <= i < |a| ==> SameLetter(a[i], b[i]) }

  lemma LetterSays(c: char, d: char)
    ensures LowerChar(c) == LowerChar(d) <==> SameLetter(c, d)
  {
    assert 'A' as int == 65 && 'Z' as int == 90 && 'a' as int == 97 && 'z' as int == 122;
  }

  lemma TextSays(a: string, b: string)
    ensures Lower(a) == Lower(b) <==> SameText(a, b)
  {
    forall i | 0 <= i < |a| && i < |b| ensures Lower(a)[i] == Lower(b)[i] <==> SameLetter(a[i], b[i]) { LetterSays(a[i], b[i]); }
  }

  /** Case does not matter, in the pattern or in the text. */
  lemma CaseDoesNotMatter(pattern: string, pattern': string, text: string, text': string)
    requires SameText(pattern, pattern') && SameText(text, text')
    ensures GlobMatch(pattern, text) == GlobMatch(pattern', text')
    ensures IsActionMatched(pattern, text) == IsActionMatched(pattern', text')
  {
    TextSays(pattern, pattern');
    TextSays(text, text');
    forall i | 0 <= i < |pattern| ensures (pattern[i] == '*' <==> pattern'[i] == '*') && (pattern[i] == ':' <==> pattern'[i] == ':') {
      assert '*' as int == 42 && ':' as int == 58 && 'A' as int == 65 && 'Z' as int == 90;
    }
  }

  /** Without `*`, a pattern matches exactly the texts of its length that agree with it everywhere but at
      its question marks. */
  predicate AgreesAt(p: char, c: char) { p == '?' || SameLetter(p, c) }

  lemma {:induction false} StarFreeMatches(p: string, s: string)
    requires '*' !in p
    ensures Matches(p, s) <==> |p| == |s| && forall i :: 0 <= i < |p| ==> p[i] == '?' || p[i] == s[i]
    decreases |p|
  {
    if p != "" && s != "" {
      assert p[0] in p;
      StarFreeMatches(p[1..], s[1..]);
      if |p| == |s| && forall i :: 0 <= i < |p| ==> p[i] == '?' || p[i] == s[i] {
        forall i | 0 <= i < |p[1..]| ensures p[1..][i] == '?' || p[1..][i] == s[1..][i] { assert p[1..][i] == p[i + 1]; }
      }
      if Matches(p, s) {
        forall i | 0 <= i < |p| ensures p[i] == '?' || p[i] == s[i] {
          if i > 0 { assert p[i] == p[1..][i - 1] && s[i] == s[1..][i - 1]; }
        }
      }
    } else if p != "" {
      assert p[0] in p;
    }
  }

  lemma OneAgrees(p: char, c: char)
    ensures LowerChar(p) == '?' || LowerChar(p) == LowerChar(c) <==> AgreesAt(p, c)
  {
    LetterSays(p, c);
    assert '?' as int == 63 && 'a' as int == 97;
  }

  /** The lower-cased texts agree at every place up to question marks. */
  predicate Agree(p: string, s: string)
    requires |p| == |s|
  {
    forall i :: 0 <= i < |p| ==> p[i] == '?' || p[i] == s[i]
  }

  predicate AllAgree(p: string, s: string)
    requires |p| == |s|
  {
    forall i :: 0 <= i < |s| ==> AgreesAt(p[i], s[i])
  }

  lemma LowerAgrees(p: string, s: string)
    requires |p| == |s|
    ensures Agree(Lower(p), Lower(s)) <==> AllAgree(p, s)
  {
    var lp, ls := Lower(p), Lower(s);
    forall i | 0 <= i < |p| ensures lp[i] == '?' || lp[i] == ls[i] <==> AgreesAt(p[i], s[i]) { OneAgrees(p[i], s[i]); }
  }

  lemma StarFreeExactlyWhen(pattern: string, text: string)
    requires '*' !in pattern && '*' !in text
    ensures GlobMatch(pattern, text) <==> |pattern| == |text| && forall i :: 0 <= i < |text| ==> AgreesAt(pattern[i], text[i])
  {
    GlobMatchExact(pattern, text);
    LowerKeepsStars(pattern);
    StarFreeMatches(Lower(pattern), Lower(text));
    if |pattern| == |text| { LowerAgrees(pattern, text); }
  }

  /** A `*` stands for any run: what is before it matches a beginning, what is after it an end. */
  lemma StarExactlyWhen(before: string, after: string, text: string)
    requires '*' !in text
    ensures GlobMatch(before + "*" + after, text)
       <==> exists i, j :: 0 <= i <= j <= |text| && GlobMatch(before, text[..i]) && GlobMatch(after, text[j..])
  {
    var p, q, s := Lower(before), Lower(after), Lower(text);
    GlobMatchExact(before + "*" + after, text);
    StarLowered(before, after);
    forall i, j | 0 <= i <= j <= |text|
      ensures GlobMatch(before, text[..i]) == Matches(p, s[..i]) && GlobMatch(after, text[j..]) == Matches(q, s[j..])
    {
      PartsExact(before, text[..i]);
      PartsExact(after, text[j..]);
      assert Lower(text[..i]) == s[..i] && Lower(text[j..]) == s[j..];
    }
    if Matches(p + "*" + q, s) {
      var i, j := StarCuts(p, q, s);
      assert GlobMatch(before, text[..i]) && GlobMatch(after, text[j..]);
    }
    if i, j :| 0 <= i <= j <= |text| && GlobMatch(before, text[..i]) && GlobMatch(after, text[j..]) { StarJoins(p, q, s, i, j); }
  }

  lemma PartsExact(pattern: string, part: string)
    requires '*' !in part
    ensures GlobMatch(pattern, part) == Matches(Lower(pattern), Lower(part))
  {
    GlobMatchExact(pattern, part);
  }

  lemma StarLowered(before: string, after: string)
    ensures Lower(before + "*" + after) == Lower(before) + "*" + Lower(after)
  {
    LowerConcat(before + "*", after);
    LowerConcat(before, "*");
    assert Lower("*") == "*" by { assert "*"[1..] == ""; }
  }

  lemma StarCuts(p: string, q: string, s: string) returns (i: nat, j: nat)
    requires Matches(p + "*" + q, s)
    ensures i <= j <= |s| && Matches(p, s[..i]) && Matches(q, s[j..])
  {
    j := MatchesConcat(p + "*", q, s);
    i := MatchesConcat(p, "*", s[..j]);
    assert s[..j][..i] == s[..i];
  }

  lemma StarJoins(p: string, q: string, s: string, i: nat, j: nat)
    requires i <= j <= |s| && Matches(p, s[..i]) && Matches(q, s[j..])
    ensures Matches(p + "*" + q, s)
  {
    StarMatchesAll(s[i..j]);
    ConcatMatches(p, "*", s[..i], s[i..j]);
    ConcatMatches(p + "*", q, s[..i] + s[i..j], s[j..]);
    assert s[..i] + s[i..j] + s[j..] == s;
  }

  // ----- the matchers of the policies

  /** A resource pattern on a resource without `*`: everything for a bare star, else the same. */
  lemma ResourceMatchMeaning(pattern: string, resource: string)
    requires '*' !in resource
    ensures IsResourceMatched(pattern, resource) <==> pattern == "*" || Matches(Lower(pattern), Lower(resource))
    ensures '*' !in pattern ==>
              (IsResourceMatched(pattern, resource)
               <==> |pattern| == |resource| && forall i :: 0 <= i < |resource| ==> AgreesAt(pattern[i], resource[i]))
  {
    GlobMatchExact(pattern, resource);
    if '*' !in pattern { StarFreeExactlyWhen(pattern, resource); }
  }

  lemma ActionIsGlob(pattern: string, action: string)
    requires pattern != "*" && pattern != "*:*"
    ensures IsActionMatched(pattern, action) == GlobMatch(pattern, action)
  {
    LowerTwice(pattern);
    LowerTwice(action);
  }

  lemma OnlyEmpty(text: string)
    requires '*' !in text
    ensures GlobMatch("", text) <==> text == ""
  {
    StarFreeExactlyWhen("", text);
  }

  lemma LiteralExactlyWhen(literal: string, text: string)
    requires '*' !in literal && '?' !in literal && '*' !in text
    ensures GlobMatch(literal, text) <==> SameText(literal, text)
  {
    StarFreeExactlyWhen(literal, text);
    forall i | 0 <= i < |literal| ensures literal[i] != '?' { assert literal[i] in literal; }
  }

  /** `head*` matches exactly what begins with `head`, in either case. */
  lemma PrefixExactlyWhen(head: string, text: string)
    requires '*' !in head && '?' !in head && '*' !in text
    ensures IsResourceMatched(head + "*", text) <==> |head| <= |text| && SameText(head, text[..|head|])
    ensures IsActionMatched(head + "*", text) <==> |head| <= |text| && SameText(head, text[..|head|])
  {
    assert head + "*" + "" == head + "*";
    StarExactlyWhen(head, "", text);
    forall i | 0 <= i <= |text| ensures GlobMatch(head, text[..i]) <==> SameText(head, text[..i]) { LiteralExactlyWhen(head, text[..i]); }
    forall j | 0 <= j <= |text| ensures GlobMatch("", text[j..]) <==> j == |text| { OnlyEmpty(text[j..]); }
    if |head| <= |text| && SameText(head, text[..|head|]) { assert GlobMatch(head, text[..|head|]) && GlobMatch("", text[|text|..]); }
    if head != "" {
      assert (head + "*")[0] == head[0] && head[0] in head;
      ActionIsGlob(head + "*", text);
    }
  }
}
