/** Pass-role escalation, said of the fields of statements and of the texts of ARNs: which actions count
    as allowed, what a statement lets its principal pass, and when a path is reported. */
module PassRoleRule {
  import opened Basics
  import opened Glob
  import opened Policy
  import opened PassRole

  // ----- actions

  /** A statement that lists what it does not cover covers the rest. */
  predicate Applies(s: Statement, action: string) {
    match s.notActions
    case None => exists p :: p in s.actions && IsActionMatched(p, action)
    case Some(excluded) => forall p :: p in excluded ==> !IsActionMatched(p, action)
  }

  /** A Deny without conditions, on every resource. */
  predicate DeniesAll(s: Statement, action: string) {
    s.effect == Deny && s.conditions == [] && s.notResources == None && "*" in s.resources && Applies(s, action)
  }

  predicate AllowsUnconditionally(s: Statement, action: string) {
    s.effect == Allow && s.conditions == [] && Applies(s, action)
  }

  predicate Blocked(statements: seq<Statement>, action: string) { exists s :: s in statements && DeniesAll(s, action) }

  predicate Granted(statements: seq<Statement>, action: string) { exists s :: s in statements && AllowsUnconditionally(s, action) }

  lemma AppliesSays(s: Statement, action: string)
    ensures Applies(s, action) <==> CoversAction(s, action)
  {
  }

  /** An action counts as allowed exactly when an Allow without conditions applies to it and no Deny
      without conditions does on every resource. */
  lemma ActionCountsExactlyWhen(statements: seq<Statement>, action: string)
    ensures ActionAllowed(statements, action) <==> Granted(statements, action) && !Blocked(statements, action)
  {
    forall s | s in statements
      ensures DeniesAll(s, action) <==> BlocksEverywhere(s, action)
      ensures AllowsUnconditionally(s, action) <==> AllowsPlainly(s, action)
    {
      AppliesSays(s, action);
    }
  }

  /** Some set of actions that starts the service's compute is granted throughout and nowhere blocked. */
  predicate CanStart(statements: seq<Statement>, service: string) {
    exists c, actions :: c in PASS_ROLE_COMPUTE && c.service == service && actions in c.actionSets
                      && forall a :: a in actions ==> Granted(statements, a) && !Blocked(statements, a)
  }

  lemma SetAllowed(statements: seq<Statement>, actions: seq<string>)
    ensures AllAllowed(statements, actions) <==> forall a :: a in actions ==> Granted(statements, a) && !Blocked(statements, a)
  {
    forall a | a in actions ensures ActionAllowed(statements, a) <==> Granted(statements, a) && !Blocked(statements, a) {
      ActionCountsExactlyWhen(statements, a);
    }
  }

  lemma StartsSays(statements: seq<Statement>, service: string)
    ensures Launches(statements, service) <==> CanStart(statements, service)
  {
    if c :| c in PASS_ROLE_COMPUTE && c.service == service && CanLaunch(statements, c) {
      var actions :| actions in c.actionSets && AllAllowed(statements, actions);
      SetAllowed(statements, actions);
    }
    if c, actions :| c in PASS_ROLE_COMPUTE && c.service == service && actions in c.actionSets
                     && forall a :: a in actions ==> Granted(statements, a) && !Blocked(statements, a) {
      SetAllowed(statements, actions);
      assert CanLaunch(statements, c);
    }
  }

  // ----- conditions

  /** The only condition understood: the service the role is passed to. */
  predicate AboutService(c: Condition) {
    (c.operator == "StringEquals" || c.operator == "StringLike") && forall k :: k in c.keys ==> Lower(k.key) == "iam:passedtoservice"
  }

  ghost predicate NamesService(conditions: seq<Condition>, service: string) {
    exists c, k, v :: c in conditions && k in c.keys && v in k.values && IsResourceMatched(v, service)
  }

  /** No conditions, or only ones about the service, one of whose values is this one. */
  ghost predicate ConditionsAllow(conditions: seq<Condition>, service: string) {
    conditions == [] || ((forall c :: c in conditions ==> AboutService(c)) && NamesService(conditions, service))
  }

  lemma {:induction false} KeyValuesListed(keys: seq<ConditionKey>, v: string)
    ensures v in KeyValues(keys) <==> exists k :: k in keys && v in k.values
    decreases |keys|
  {
    if keys != [] {
      KeyValuesListed(keys[..|keys| - 1], v);
      assert forall k :: k in keys <==> k in keys[..|keys| - 1] || k == keys[|keys| - 1];
    }
  }

  lemma {:induction false} ConditionValuesListed(conditions: seq<Condition>, v: string)
    ensures v in ConditionValues(conditions) <==> exists c, k :: c in conditions && k in c.keys && v in k.values
    decreases |conditions|
  {
    if conditions != [] {
      var front, last := conditions[..|conditions| - 1], conditions[|conditions| - 1];
      ConditionValuesListed(front, v);
      KeyValuesListed(last.keys, v);
      assert forall c :: c in conditions <==> c in front || c == last;
    }
  }

  lemma LimitSays(conditions: seq<Condition>, service: string)
    ensures ConditionsAllow(conditions, service)
       <==> match LimitOf(conditions)
            case AnyService => true
            case Only(services) => exists p :: p in services && IsResourceMatched(p, service)
            case Unmodelled => false
  {
    forall c | c in conditions ensures AboutService(c) <==> ReadsOnlyService(c) {}
    if p :| p in ConditionValues(conditions) && IsResourceMatched(p, service) {
      ConditionValuesListed(conditions, p);
      assert NamesService(conditions, service);
    }
    if c, k, v :| c in conditions && k in c.keys && v in k.values && IsResourceMatched(v, service) {
      ConditionValuesListed(conditions, v);
    }
  }

  // ----- resources

  predicate Reaches(s: Statement, arn: string) {
    match s.notResources
    case None => exists p :: p in s.resources && IsResourceMatched(p, arn)
    case Some(excluded) => forall p :: p in excluded ==> !IsResourceMatched(p, arn)
  }

  /** An Allow of iam:PassRole that reaches the role and whose conditions admit the service. */
  ghost predicate MayPass(s: Statement, role: AdminRole, service: string) {
    s.effect == Allow && Applies(s, "iam:PassRole") && Reaches(s, role.passArn) && ConditionsAllow(s.conditions, service)
  }

  /** A Deny of iam:PassRole without conditions that names the role. */
  predicate MayNotPass(s: Statement, role: AdminRole) {
    && s.effect == Deny && s.conditions == [] && s.notResources == None && Applies(s, "iam:PassRole")
    && exists p :: p in s.resources && IsResourceMatched(p, role.passArn)
  }

  // ----- the account of an ARN

  predicate WordOrHyphen(c: char) { c == '_' || c == '-' || '0' <= c <= '9' || 'A' <= c <= 'Z' || 'a' <= c <= 'z' }

  predicate AllWord(s: string) { forall c :: c in s ==> WordOrHyphen(c) }

  predicate TwelveDigits(s: string) { |s| == 12 && forall c :: c in s ==> '0' <= c <= '9' }

  /** The ARN of an IAM identity of that account, in any partition. */
  ghost predicate IsIamArn(arn: string, account: string) {
    TwelveDigits(account) && exists partition, rest :: AllWord(partition) && arn == "arn:aws" + partition + ":iam::" + account + ":" + rest
  }

  lemma {:induction false} SkipsWord(word: string, rest: string)
    requires AllWord(word) && (rest == "" || !WordOrHyphen(rest[0]))
    ensures SkipWord(word + rest) == rest
    decreases |word|
  {
    if word == "" {
      assert word + rest == rest;
    } else {
      assert (word + rest)[1..] == word[1..] + rest && word[0] in word;
      SkipsWord(word[1..], rest);
    }
  }

  lemma {:induction false} WordBefore(s: string) returns (word: string)
    ensures AllWord(word) && s == word + SkipWord(s)
    decreases |s|
  {
    if s != "" && IsWordOrHyphen(s[0]) {
      var rest := WordBefore(s[1..]);
      word := [s[0]] + rest;
      OneBefore(s, rest, SkipWord(s[1..]));
    } else {
      word := "";
      assert s == "" + s;
    }
  }

  lemma OneBefore(s: string, word: string, tail: string)
    requires s != "" && s[1..] == word + tail
    ensures s == [s[0]] + word + tail
  {
    assert s == [s[0]] + s[1..];
  }

  lemma AccountTail(account: string, rest: string)
    requires TwelveDigits(account)
    ensures var t := ":iam::" + account + ":" + rest;
            && ":iam::" <= t && |t| > 18 && t[6..18] == account && t[18] == ':'
            && forall i :: 6 <= i < 18 ==> IsDigit(t[i])
  {
    var t := ":iam::" + account + ":" + rest;
    assert t[6..18] == account;
    forall i | 6 <= i < 18 ensures IsDigit(t[i]) { assert t[i] == account[i - 6] && account[i - 6] in account; }
  }

  lemma TailAccount(t: string) returns (account: string, rest: string)
    requires ":iam::" <= t && |t| > 18 && (forall i :: 6 <= i < 18 ==> IsDigit(t[i])) && t[18] == ':'
    ensures TwelveDigits(account) && account == t[6..18] && t == ":iam::" + account + ":" + rest
  {
    account, rest := t[6..18], t[19..];
    assert t == t[..6] + t[6..18] + t[18..19] + t[19..];
  }

  lemma AccountRead(arn: string, account: string)
    requires AccountOf(arn) == Some(account)
    ensures IsIamArn(arn, account)
  {
    var word := WordBefore(arn[7..]);
    var t := SkipWord(arn[7..]);
    var a, rest := TailAccount(t);
    assert arn == "arn:aws" + (word + t);
    assert arn == "arn:aws" + word + ":iam::" + account + ":" + rest;
  }

  lemma AccountShown(partition: string, account: string, rest: string)
    requires AllWord(partition) && TwelveDigits(account)
    ensures AccountOf("arn:aws" + partition + ":iam::" + account + ":" + rest) == Some(account)
  {
    var t := ":iam::" + account + ":" + rest;
    AccountTail(account, rest);
    var arn := "arn:aws" + partition + ":iam::" + account + ":" + rest;
    assert arn == "arn:aws" + (partition + t);
    assert arn[7..] == partition + t;
    SkipsWord(partition, t);
  }

  lemma AccountExactlyWhen(arn: string, account: string)
    ensures AccountOf(arn) == Some(account) <==> IsIamArn(arn, account)
  {
    if AccountOf(arn) == Some(account) {
      AccountRead(arn, account);
    }
    if IsIamArn(arn, account) {
      var partition, rest :| AllWord(partition) && arn == "arn:aws" + partition + ":iam::" + account + ":" + rest;
      AccountShown(partition, account, rest);
    }
  }

  // ----- the rule

  /** The rule in full. */
  ghost predicate CanBecome(principalArn: string, statements: seq<Statement>, role: AdminRole, service: string) {
    && IsIamArn(principalArn, role.accountId) && role.arn != principalArn && service in role.trustedServices
    && (exists s :: s in statements && MayPass(s, role, service))
    && (forall s :: s in statements ==> !MayNotPass(s, role))
    && CanStart(statements, service)
  }

  lemma RuleSays(principalArn: string, statements: seq<Statement>, role: AdminRole, service: string)
    ensures Escalates(principalArn, statements, role, service) <==> CanBecome(principalArn, statements, role, service)
  {
    AccountExactlyWhen(principalArn, role.accountId);
    StartsSays(statements, service);
    forall s | s in statements
      ensures LetsPass(s, role, service) <==> MayPass(s, role, service)
      ensures ForbidsPass(s, role) <==> MayNotPass(s, role)
    {
      AppliesSays(s, "iam:PassRole");
      LimitSays(s.conditions, service);
    }
  }

  /** What the two phases report, for every principal, role and service: exactly what the rule says. */
  lemma ReportedExactlyWhen(principals: seq<Principal>, roles: seq<AdminRole>, principalArn: string, roleArn: string, service: string)
    ensures (exists p :: p in AllPaths(Summaries(principals), roles) && p.source == principalArn && p.target == roleArn && service in p.via)
       <==> exists p, role :: p in principals && role in roles && p.arn == principalArn && role.arn == roleArn
                           && CanBecome(p.arn, StatementsOf(p.documents), role, service)
  {
    DetectionRefinesRule(principals, roles, principalArn, roleArn, service);
    forall p, role | p in principals && role in roles
      ensures Escalates(p.arn, StatementsOf(p.documents), role, service) <==> CanBecome(p.arn, StatementsOf(p.documents), role, service)
    {
      RuleSays(p.arn, StatementsOf(p.documents), role, service);
    }
  }

  /** Each way to start the service has an action that is denied everywhere. */
  predicate NoWayToStart(statements: seq<Statement>, service: string) {
    forall c, actions :: c in PASS_ROLE_COMPUTE && c.service == service && actions in c.actionSets ==> SomeBlocked(statements, actions)
  }

  predicate SomeBlocked(statements: seq<Statement>, actions: seq<string>) { exists a :: a in actions && Blocked(statements, a) }

  /** Then no path from the principal names the service. */
  lemma DeniedServiceNeverReported(principals: seq<Principal>, roles: seq<AdminRole>, path: PassRolePath, service: string)
    requires path in AllPaths(Summaries(principals), roles)
    requires forall p :: p in principals && p.arn == path.source ==> NoWayToStart(StatementsOf(p.documents), service)
    ensures service !in path.via
  {
    forall p, role | p in principals && role in roles && p.arn == path.source
      ensures !CanBecome(p.arn, StatementsOf(p.documents), role, service)
    {
      CannotStart(StatementsOf(p.documents), service);
    }
    ReportedExactlyWhen(principals, roles, path.source, path.target, service);
  }

  lemma CannotStart(statements: seq<Statement>, service: string)
    requires NoWayToStart(statements, service)
    ensures !CanStart(statements, service)
  {
    forall c, actions | c in PASS_ROLE_COMPUTE && c.service == service && actions in c.actionSets
      ensures !forall a :: a in actions ==> Granted(statements, a) && !Blocked(statements, a)
    {
      assert SomeBlocked(statements, actions);
    }
  }

  /** What a document that parses says is there, and nothing else. */
  lemma {:induction false} StatementsListed(documents: seq<Document>, s: Statement)
    ensures s in StatementsOf(documents) <==> exists d :: d in documents && d.Parsed? && s in d.statements
    decreases |documents|
  {
    if documents != [] {
      var front, last := documents[..|documents| - 1], documents[|documents| - 1];
      StatementsListed(front, s);
      assert forall d :: d in documents <==> d in front || d == last;
    }
  }
}
