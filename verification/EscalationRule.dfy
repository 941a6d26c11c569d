/** Escalation through trust, said of the fields of edges and roles and of the texts of ARNs. */
module EscalationRule {
  import opened Basics
  import opened Policy
  import opened Escalation

  // ----- the wanted account

  predicate AllDigits(s: string) { forall c :: c in s ==> '0' <= c <= '9' }

  /** The ARN shows these digits, all there are, where IAM ARNs show the account. */
  ghost predicate ShowsAccount(arn: string, digits: string) {
    digits != "" && AllDigits(digits) && exists rest :: arn == "arn:aws:iam::" + digits + rest && !BeginsWithDigit(rest)
  }

  predicate BeginsWithDigit(s: string) { s != "" && '0' <= s[0] <= '9' }

  lemma {:induction false} RunOf(digits: string, rest: string)
    requires AllDigits(digits) && !BeginsWithDigit(rest)
    ensures DigitRun(digits + rest) == digits
    decreases |digits|
  {
    if digits == "" {
      assert digits + rest == rest;
    } else {
      forall c | c in digits[1..] ensures '0' <= c <= '9' { assert c in digits; }
      assert (digits + rest)[1..] == digits[1..] + rest && digits[0] in digits;
      RunOf(digits[1..], rest);
      assert digits == [digits[0]] + digits[1..];
    }
  }

  lemma {:induction false} RestOf(s: string) returns (rest: string)
    ensures s == DigitRun(s) + rest && AllDigits(DigitRun(s)) && !BeginsWithDigit(rest)
    decreases |s|
  {
    if s != "" && IsDigit(s[0]) {
      rest := RestOf(s[1..]);
      OneBefore(s, DigitRun(s[1..]), rest);
    } else {
      rest := s;
    }
  }

  lemma OneBefore(s: string, run: string, rest: string)
    requires s != "" && s[1..] == run + rest
    ensures s == [s[0]] + run + rest
  {
    assert s == [s[0]] + s[1..];
  }

  lemma ShownIsRun(arn: string, digits: string)
    ensures ShowsAccount(arn, digits)
       <==> "arn:aws:iam::" <= arn && digits != "" && DigitRun(arn[13..]) == digits
  {
    var prefix := "arn:aws:iam::";
    if ShowsAccount(arn, digits) {
      var rest :| arn == prefix + digits + rest && !BeginsWithDigit(rest);
      assert arn[13..] == digits + rest && arn[..13] == prefix;
      RunOf(digits, rest);
    }
    if prefix <= arn && digits != "" && DigitRun(arn[13..]) == digits {
      var rest := RestOf(arn[13..]);
      assert arn == arn[..13] + arn[13..];
      assert arn == prefix + digits + rest;
    }
  }

  /** A source is kept exactly when no account is asked for, or every account its ARN shows is that one:
      an ARN that shows none is kept. */
  lemma WantedExactlyWhen(source: string, sourceAccount: Option<string>)
    ensures Wanted(source, sourceAccount)
       <==> sourceAccount == None || sourceAccount == Some("")
            || forall digits :: ShowsAccount(source, digits) ==> Some(digits) == sourceAccount
  {
    forall digits ensures ShowsAccount(source, digits)
                     <==> "arn:aws:iam::" <= source && digits != "" && DigitRun(source[13..]) == digits
    {
      ShownIsRun(source, digits);
    }
    if "arn:aws:iam::" <= source { assert ShowsAccount(source, DigitRun(source[13..])) <==> DigitRun(source[13..]) != ""; }
  }

  // ----- which roles matter, and what is reported

  /** An admin role, or one that is not and may do some escalation action. */
  predicate Matters(role: Role, kind: Kind) {
    match kind
    case Admin => role.isAdmin
    case PrivilegeEscalation =>
      !role.isAdmin && exists a, pa :: a in role.allowedActions && pa in PRIVILEGE_ESCALATION_ACTIONS && IsActionMatched(pa, a)
  }

  lemma MattersSays(role: Role, kind: Kind)
    ensures Matters(role, kind) <==> Relevant(role, kind)
  {
    if kind.PrivilegeEscalation? {
      if a, pa :| a in role.allowedActions && pa in PRIVILEGE_ESCALATION_ACTIONS && IsActionMatched(pa, a) { assert EscalatesBy(a); }
      if a :| a in role.allowedActions && EscalatesBy(a) {
        var pa :| pa in PRIVILEGE_ESCALATION_ACTIONS && IsActionMatched(pa, a);
      }
    }
  }

  /** A chain of trust: the first edge is into the target, each next one into where the last came from, and
      the last comes from the source. */
  predicate ChainOf(edges: seq<TrustEdge>, path: seq<TrustEdge>, source: string, target: string) {
    && |path| > 0 && path[0].to == target && path[|path| - 1].from == source
    && (forall i :: 0 <= i < |path| ==> path[i] in edges)
    && (forall i :: 0 < i < |path| ==> path[i].to == path[i - 1].from)
  }

  lemma ChainSays(edges: seq<TrustEdge>, path: seq<TrustEdge>, source: string, target: string)
    ensures ChainOf(edges, path, source, target) <==> path != [] && IsChain(edges, path, target) && EndOf(path, target) == source
  {
    if path != [] && IsChain(edges, path, target) {
      forall i | 0 < i < |path| ensures path[i].to == path[i - 1].from { assert path[(i - 1) + 1].to == path[i - 1].from; }
    }
  }

  /** Every detected path is a chain of at most maxHops trusts from a wanted source into a role that
      matters, under the kind it matters by. */
  lemma DetectedIsReal(edges: seq<TrustEdge>, roles: seq<Role>, sourceAccount: Option<string>, maxHops: int, p: EscalationPath)
    requires p in Detected(edges, roles, sourceAccount, maxHops)
    ensures ChainOf(edges, p.path, p.source, p.target) && |p.path| <= maxHops
    ensures sourceAccount == None || sourceAccount == Some("")
            || forall digits :: ShowsAccount(p.source, digits) ==> Some(digits) == sourceAccount
    ensures exists role :: role in roles && role.arn == p.target && Matters(role, p.kind)
  {
    DetectionIsSound(edges, roles, sourceAccount, maxHops, p);
    ChainSays(edges, p.path, p.source, p.target);
    WantedExactlyWhen(p.source, sourceAccount);
    var role :| role in roles && role.arn == p.target && Relevant(role, p.kind);
    MattersSays(role, p.kind);
  }

  /** With a bound of at least the number of ARNs, exactly the wanted principals with any chain of trust
      into a role that matters are detected, each once. */
  lemma AllDetected(edges: seq<TrustEdge>, roles: seq<Role>, sourceAccount: Option<string>, maxHops: int,
                    source: string, role: Role, kind: Kind, path: seq<TrustEdge>)
    requires maxHops >= |Arns(edges)| && role in roles && Matters(role, kind) && ChainOf(edges, path, source, role.arn)
    requires sourceAccount == None || sourceAccount == Some("")
             || forall digits :: ShowsAccount(source, digits) ==> Some(digits) == sourceAccount
    ensures exists p :: p in Detected(edges, roles, sourceAccount, maxHops)
                     && p.source == source && p.target == role.arn && p.kind == kind
  {
    ChainSays(edges, path, source, role.arn);
    MattersSays(role, kind);
    WantedExactlyWhen(source, sourceAccount);
    SearchIsComplete(edges, role.arn, maxHops, source);
    DetectedOnceExactlyWhen(edges, roles, sourceAccount, maxHops, source, role.arn, kind);
    var d := Detected(edges, roles, sourceAccount, maxHops);
    var i :| 0 <= i < |d| && KeyOf(d[i]) == (source, role.arn, kind);
    assert d[i] in d;
  }

  /** Of several paths for one source, target and kind the first is kept, and no other. */
  lemma {:induction false} FirstIsKept(paths: seq<EscalationPath>, p: EscalationPath)
    ensures p in Deduplicated(paths) <==> exists i :: 0 <= i < |paths| && paths[i] == p && FirstOfItsKey(paths, i)
    decreases |paths|
  {
    if paths != [] {
      var front, n := paths[..|paths| - 1], |paths| - 1;
      FirstIsKept(front, p);
      KeysSeen(front, paths[n]);
      if i :| 0 <= i < |paths| && paths[i] == p && FirstOfItsKey(paths, i) {
        if i < n { assert front[i] == p && FirstOfItsKey(front, i); }
      }
      if i :| 0 <= i < |front| && front[i] == p && FirstOfItsKey(front, i) {
        assert paths[i] == p && FirstOfItsKey(paths, i);
      }
    }
  }

  predicate FirstOfItsKey(paths: seq<EscalationPath>, i: int)
    requires 0 <= i < |paths|
  {
    forall j :: 0 <= j < i ==> !SameKey(paths[j], paths[i])
  }

  lemma KeysSeen(front: seq<EscalationPath>, last: EscalationPath)
    ensures HasPath(Deduplicated(front), KeyOf(last)) <==> exists j :: 0 <= j < |front| && SameKey(front[j], last)
  {
    DeduplicatedKeys(front);
    if k :| 0 <= k < |Deduplicated(front)| && KeyOf(Deduplicated(front)[k]) == KeyOf(last) {
      var p := Deduplicated(front)[k];
      assert p in Deduplicated(front);
      var j :| 0 <= j < |front| && front[j] == p;
      assert SameKey(front[j], last);
    }
    if j :| 0 <= j < |front| && SameKey(front[j], last) { assert front[j] in front && KeyOf(front[j]) == KeyOf(last); }
  }

  predicate SameKey(p: EscalationPath, q: EscalationPath) { p.source == q.source && p.target == q.target && p.kind == q.kind }
}
