/** Running code as an admin role by passing it to a service. The detector works in two phases,
    a summary per principal and then a join with the roles; the direct rule reads the statements. */
module PassRole {
  import opened Basics
  import opened Glob
  import opened Policy

  // ----- compute a principal can launch with a passed role

  const PASS_ROLE := "iam:PassRole"

  datatype Compute = Compute(service: string, actionSets: seq<seq<string>>)

  const PASS_ROLE_COMPUTE: seq<Compute> := [
    Compute("lambda.amazonaws.com", [["lambda:CreateFunction", "lambda:InvokeFunction"],
                                     ["lambda:CreateFunction", "lambda:CreateEventSourceMapping"],
                                     ["lambda:CreateFunction", "lambda:AddPermission"]]),
    Compute("ec2.amazonaws.com", [["ec2:RunInstances"]]),
    Compute("cloudformation.amazonaws.com", [["cloudformation:CreateStack"], ["cloudformation:UpdateStack"]]),
    Compute("glue.amazonaws.com", [["glue:CreateDevEndpoint"], ["glue:CreateJob", "glue:StartJobRun"]]),
    Compute("sagemaker.amazonaws.com", [["sagemaker:CreateNotebookInstance"], ["sagemaker:CreateTrainingJob"],
                                        ["sagemaker:CreateProcessingJob"]]),
    Compute("codebuild.amazonaws.com", [["codebuild:CreateProject", "codebuild:StartBuild"]]),
    Compute("ecs-tasks.amazonaws.com", [["ecs:RegisterTaskDefinition", "ecs:RunTask"]])]

  // ----- ARNs

  predicate IsWordOrHyphen(c: char) {
    'a' <= c <= 'z' || 'A' <= c <= 'Z' || IsDigit(c) || c == '_' || c == '-'
  }

  function SkipWord(s: string): string {
    if s != "" && IsWordOrHyphen(s[0]) then SkipWord(s[1..]) else s
  }

  /** The account of an IAM ARN of any partition. */
  function AccountOf(arn: string): Option<string> {
    if !("arn:aws" <= arn) then None else
      var rest := SkipWord(arn[7..]);
      if ":iam::" <= rest && |rest| > 18 && (forall i :: 6 <= i < 18 ==> IsDigit(rest[i])) && rest[18] == ':'
      then Some(rest[6..18]) else None
  }

  // ----- reading one statement

  predicate CoversAction(s: Statement, action: string) {
    if s.notActions.Some? then !exists p :: p in s.notActions.value && IsActionMatched(p, action)
    else exists p :: p in s.actions && IsActionMatched(p, action)
  }

  predicate HasConditions(s: Statement) { s.conditions != [] }

  /** Which services an Allow is limited to, when that is all its conditions say. */
  datatype Limit = AnyService | Only(services: seq<string>) | Unmodelled

  predicate ReadsOnlyService(c: Condition) {
    (c.operator == "StringEquals" || c.operator == "StringLike")
    && forall k :: k in c.keys ==> Lower(k.key) == "iam:passedtoservice"
  }

  function KeyValues(keys: seq<ConditionKey>): seq<string> {
    if keys == [] then [] else KeyValues(keys[..|keys| - 1]) + keys[|keys| - 1].values
  }

  function ConditionValues(conditions: seq<Condition>): seq<string> {
    if conditions == [] then [] else
      ConditionValues(conditions[..|conditions| - 1]) + KeyValues(conditions[|conditions| - 1].keys)
  }

  function LimitOf(conditions: seq<Condition>): Limit {
    if conditions == [] then AnyService
    else if forall c :: c in conditions ==> ReadsOnlyService(c) then Only(ConditionValues(conditions))
    else Unmodelled
  }

  method ReadKeys(keys: seq<ConditionKey>) returns (values: Option<seq<string>>)
    ensures values == if forall k :: k in keys ==> Lower(k.key) == "iam:passedtoservice" then Some(KeyValues(keys)) else None
  {
    var services: seq<string> := [];
    for k := 0 to |keys|
      invariant forall j :: 0 <= j < k ==> Lower(keys[j].key) == "iam:passedtoservice"
      invariant services == KeyValues(keys[..k])
    {
      assert keys[..k + 1][..k] == keys[..k];
      if Lower(keys[k].key) != "iam:passedtoservice" {
        assert keys[k] in keys;
        return None;
      }
      services := services + keys[k].values;
    }
    assert keys[..|keys|] == keys;
    values := Some(services);
  }

  lemma ConditionValuesMore(conditions: seq<Condition>, i: nat)
    requires i < |conditions|
    ensures ConditionValues(conditions[..i + 1]) == ConditionValues(conditions[..i]) + KeyValues(conditions[i].keys)
  {
    assert conditions[..i + 1][..i] == conditions[..i];
  }

  /** One condition that says anything else makes the whole block unmodelled. */
  lemma OneUnmodelled(conditions: seq<Condition>, c: Condition)
    requires c in conditions && !ReadsOnlyService(c)
    ensures LimitOf(conditions) == Unmodelled
  {
  }

  lemma AllRead(conditions: seq<Condition>)
    requires conditions != [] && forall c :: c in conditions ==> ReadsOnlyService(c)
    ensures LimitOf(conditions) == Only(ConditionValues(conditions))
  {
  }

  method PassedToServices(conditions: seq<Condition>) returns (r: Limit)
    ensures r == LimitOf(conditions)
  {
    if |conditions| == 0 { return AnyService; }
    var services: seq<string> := [];
    for i := 0 to |conditions|
      invariant forall j :: 0 <= j < i ==> ReadsOnlyService(conditions[j])
      invariant services == ConditionValues(conditions[..i])
    {
      var c := conditions[i];
      var values := ReadCondition(c);
      if values.None? {
        OneUnmodelled(conditions, c);
        return Unmodelled;
      }
      ConditionValuesMore(conditions, i);
      services := services + values.value;
    }
    assert conditions[..|conditions|] == conditions;
    AllRead(conditions);
    r := Only(services);
  }

  /** The services one condition names, None when it is about anything else. */
  method ReadCondition(c: Condition) returns (values: Option<seq<string>>)
    ensures values == if ReadsOnlyService(c) then Some(KeyValues(c.keys)) else None
  {
    if c.operator != "StringEquals" && c.operator != "StringLike" { return None; }
    values := ReadKeys(c.keys);
  }

  predicate BlocksEverywhere(s: Statement, action: string) {
    s.effect.Deny? && !HasConditions(s) && CoversAction(s, action) && s.notResources.None? && "*" in s.resources
  }

  predicate AllowsPlainly(s: Statement, action: string) {
    s.effect.Allow? && !HasConditions(s) && CoversAction(s, action)
  }

  predicate ActionAllowed(statements: seq<Statement>, action: string) {
    && (forall s :: s in statements ==> !BlocksEverywhere(s, action))
    && (exists s :: s in statements && AllowsPlainly(s, action))
  }

  predicate CanLaunch(statements: seq<Statement>, compute: Compute) {
    exists actions :: actions in compute.actionSets && AllAllowed(statements, actions)
  }

  predicate AllAllowed(statements: seq<Statement>, actions: seq<string>) {
    forall a :: a in actions ==> ActionAllowed(statements, a)
  }

  // ----- phase one: the summary of a principal

  datatype PassRoleGrant = PassRoleGrant(resources: seq<string>, notResources: Option<seq<string>>, services: Option<seq<string>>)

  datatype Capability = Capability(principalArn: string, accountId: string, grants: seq<PassRoleGrant>,
                                   denied: seq<string>, services: seq<string>)

  predicate GrantsPassing(s: Statement) {
    CoversAction(s, PASS_ROLE) && s.effect.Allow? && !LimitOf(s.conditions).Unmodelled?
  }

  function GrantOf(s: Statement): PassRoleGrant
    requires GrantsPassing(s)
  {
    PassRoleGrant(if s.notResources.Some? then ["*"] else s.resources, s.notResources,
                  if LimitOf(s.conditions).Only? then Some(LimitOf(s.conditions).services) else None)
  }

  predicate DeniesPassing(s: Statement) {
    CoversAction(s, PASS_ROLE) && s.effect.Deny? && !HasConditions(s) && s.notResources.None?
  }

  function GrantsOf(statements: seq<Statement>): seq<PassRoleGrant> {
    if statements == [] then [] else
      var rest := GrantsOf(statements[..|statements| - 1]);
      var last := statements[|statements| - 1];
      if GrantsPassing(last) then rest + [GrantOf(last)] else rest
  }

  function DeniedOf(statements: seq<Statement>): seq<string> {
    if statements == [] then [] else
      var rest := DeniedOf(statements[..|statements| - 1]);
      var last := statements[|statements| - 1];
      if DeniesPassing(last) then rest + last.resources else rest
  }

  function ServicesOf(table: seq<Compute>, statements: seq<Statement>): seq<string> {
    if table == [] then [] else
      var rest := ServicesOf(table[..|table| - 1], statements);
      var last := table[|table| - 1];
      if CanLaunch(statements, last) then rest + [last.service] else rest
  }

  function CapabilityOf(principalArn: string, documents: seq<Document>): Option<Capability> {
    var statements := StatementsOf(documents);
    var services := ServicesOf(PASS_ROLE_COMPUTE, statements);
    if AccountOf(principalArn).None? || GrantsOf(statements) == [] || services == [] then None
    else Some(Capability(principalArn, AccountOf(principalArn).value, GrantsOf(statements), DeniedOf(statements), services))
  }

  method PassRoleCapability(principalArn: string, documents: seq<Document>) returns (r: Option<Capability>)
    ensures r == CapabilityOf(principalArn, documents)
  {
    var account := AccountOf(principalArn);
    if account.None? { return None; }
    var statements: seq<Statement> := [];
    for i := 0 to |documents|
      invariant statements == StatementsOf(documents[..i])
    {
      assert documents[..i + 1][..i] == documents[..i];
      if documents[i].Parsed? { statements := statements + documents[i].statements; }
    }
    assert documents[..|documents|] == documents;
    var grants, denied := CollectGrants(statements);
    if |grants| == 0 { return None; }
    var services := CollectServices(statements);
    if |services| == 0 { return None; }
    r := Some(Capability(principalArn, account.value, grants, denied, services));
  }

  method CollectGrants(statements: seq<Statement>) returns (grants: seq<PassRoleGrant>, denied: seq<string>)
    ensures grants == GrantsOf(statements) && denied == DeniedOf(statements)
  {
    grants, denied := [], [];
    for i := 0 to |statements|
      invariant grants == GrantsOf(statements[..i]) && denied == DeniedOf(statements[..i])
    {
      assert statements[..i + 1][..i] == statements[..i];
      var s := statements[i];
      if CoversAction(s, PASS_ROLE) {
        if s.effect.Deny? {
          if !HasConditions(s) && s.notResources.None? { denied := denied + s.resources; }
        } else {
          var services := PassedToServices(s.conditions);
          if !services.Unmodelled? {
            grants := grants + [PassRoleGrant(if s.notResources.Some? then ["*"] else s.resources, s.notResources,
                                              if services.Only? then Some(services.services) else None)];
          }
        }
      }
    }
    assert statements[..|statements|] == statements;
  }

  method CollectServices(statements: seq<Statement>) returns (services: seq<string>)
    ensures services == ServicesOf(PASS_ROLE_COMPUTE, statements)
  {
    var table := PASS_ROLE_COMPUTE;
    services := [];
    for i := 0 to |table|
      invariant services == ServicesOf(table[..i], statements)
    {
      assert table[..i + 1][..i] == table[..i];
      if CanLaunch(statements, table[i]) { services := services + [table[i].service]; }
    }
    assert table[..|table|] == table;
  }

  // ----- phase two: the join with the admin roles

  datatype AdminRole = AdminRole(arn: string, accountId: string, passArn: string, trustedServices: seq<string>)

  /** `via` lists the services that make the path, in the order the role trusts them. */
  datatype PassRolePath = PassRolePath(source: string, target: string, via: seq<string>)

  predicate GrantAllows(g: PassRoleGrant, role: AdminRole, service: string) {
    && (exists p :: p in g.resources && IsResourceMatched(p, role.passArn))
    && (g.notResources.Some? ==> !exists p :: p in g.notResources.value && IsResourceMatched(p, role.passArn))
    && (g.services.None? || exists p :: p in g.services.value && IsResourceMatched(p, service))
  }

  predicate Passable(c: Capability, role: AdminRole, service: string) {
    service in c.services && exists g :: g in c.grants && GrantAllows(g, role, service)
  }

  function ViaOf(c: Capability, role: AdminRole, trusted: seq<string>): seq<string> {
    if trusted == [] then [] else
      var rest := ViaOf(c, role, trusted[..|trusted| - 1]);
      var last := trusted[|trusted| - 1];
      if Passable(c, role, last) then rest + [last] else rest
  }

  predicate Joined(c: Capability, role: AdminRole) {
    && role.accountId == c.accountId && role.arn != c.principalArn
    && !exists p :: p in c.denied && IsResourceMatched(p, role.passArn)
  }

  function PathsFor(c: Capability, roles: seq<AdminRole>): seq<PassRolePath> {
    if roles == [] then [] else
      var rest := PathsFor(c, roles[..|roles| - 1]);
      var role := roles[|roles| - 1];
      var via := ViaOf(c, role, role.trustedServices);
      if Joined(c, role) && via != [] then rest + [PassRolePath(c.principalArn, role.arn, via)] else rest
  }

  function AllPaths(capabilities: seq<Capability>, roles: seq<AdminRole>): seq<PassRolePath> {
    if capabilities == [] then [] else
      AllPaths(capabilities[..|capabilities| - 1], roles) + PathsFor(capabilities[|capabilities| - 1], roles)
  }

  method PathsOfCapability(c: Capability, roles: seq<AdminRole>) returns (paths: seq<PassRolePath>)
    ensures paths == PathsFor(c, roles)
  {
    paths := [];
    for i := 0 to |roles|
      invariant paths == PathsFor(c, roles[..i])
    {
      assert roles[..i + 1][..i] == roles[..i];
      var role := roles[i];
      var denied := exists p :: p in c.denied && IsResourceMatched(p, role.passArn);
      if role.accountId == c.accountId && role.arn != c.principalArn && !denied {
        var via := ViaOf(c, role, role.trustedServices);
        if |via| > 0 { paths := paths + [PassRolePath(c.principalArn, role.arn, via)]; }
      }
    }
    assert roles[..|roles|] == roles;
  }

  method DetectPassRoleEscalations(capabilities: seq<Capability>, roles: seq<AdminRole>) returns (paths: seq<PassRolePath>)
    ensures paths == AllPaths(capabilities, roles)
  {
    paths := [];
    for i := 0 to |capabilities|
      invariant paths == AllPaths(capabilities[..i], roles)
    {
      assert capabilities[..i + 1][..i] == capabilities[..i];
      var more := PathsOfCapability(capabilities[i], roles);
      paths := paths + more;
    }
    assert capabilities[..|capabilities|] == capabilities;
  }

  // ----- the direct rule, statement by statement

  predicate ReachesArn(s: Statement, arn: string) {
    if s.notResources.Some? then !exists p :: p in s.notResources.value && IsResourceMatched(p, arn)
    else exists p :: p in s.resources && IsResourceMatched(p, arn)
  }

  /** An Allow of iam:PassRole for this role, unconditional or limited only by the service. */
  predicate LetsPass(s: Statement, role: AdminRole, service: string) {
    && s.effect.Allow? && CoversAction(s, PASS_ROLE) && ReachesArn(s, role.passArn)
    && match LimitOf(s.conditions)
       case AnyService => true
       case Only(services) => exists p :: p in services && IsResourceMatched(p, service)
       case Unmodelled => false
  }

  predicate ForbidsPass(s: Statement, role: AdminRole) {
    s.effect.Deny? && CoversAction(s, PASS_ROLE) && !HasConditions(s) && s.notResources.None?
    && exists p :: p in s.resources && IsResourceMatched(p, role.passArn)
  }

  predicate Launches(statements: seq<Statement>, service: string) {
    exists c :: c in PASS_ROLE_COMPUTE && c.service == service && CanLaunch(statements, c)
  }

  predicate Escalates(principalArn: string, statements: seq<Statement>, role: AdminRole, service: string) {
    && AccountOf(principalArn) == Some(role.accountId) && role.arn != principalArn
    && service in role.trustedServices
    && (exists s :: s in statements && LetsPass(s, role, service))
    && (forall s :: s in statements ==> !ForbidsPass(s, role))
    && Launches(statements, service)
  }

  // ----- refinement

  ghost predicate GrantedBySome(statements: seq<Statement>, g: PassRoleGrant) {
    exists s :: s in statements && GrantsPassing(s) && GrantOf(s) == g
  }

  lemma GrantedByMore(statements: seq<Statement>, g: PassRoleGrant)
    requires statements != []
    ensures var last := statements[|statements| - 1];
            GrantedBySome(statements, g)
            <==> GrantedBySome(statements[..|statements| - 1], g) || (GrantsPassing(last) && GrantOf(last) == g)
  {
    var front, last := statements[..|statements| - 1], statements[|statements| - 1];
    assert forall s :: s in statements <==> s in front || s == last;
  }

  lemma {:induction false} GrantsListed(statements: seq<Statement>, g: PassRoleGrant)
    ensures g in GrantsOf(statements) <==> GrantedBySome(statements, g)
    decreases |statements|
  {
    if statements != [] {
      GrantsListed(statements[..|statements| - 1], g);
      GrantedByMore(statements, g);
    }
  }

  lemma {:induction false} DeniedListed(statements: seq<Statement>, p: string)
    ensures p in DeniedOf(statements) <==> exists s :: s in statements && DeniesPassing(s) && p in s.resources
    decreases |statements|
  {
    if statements != [] {
      var front, last := statements[..|statements| - 1], statements[|statements| - 1];
      DeniedListed(front, p);
      assert forall s :: s in statements <==> s in front || s == last;
    }
  }

  lemma {:induction false} ServicesListed(table: seq<Compute>, statements: seq<Statement>, service: string)
    ensures service in ServicesOf(table, statements)
       <==> exists c :: c in table && c.service == service && CanLaunch(statements, c)
    decreases |table|
  {
    if table != [] {
      var front, last := table[..|table| - 1], table[|table| - 1];
      ServicesListed(front, statements, service);
      assert forall c :: c in table <==> c in front || c == last;
    }
  }

  lemma {:induction false} ViaListed(c: Capability, role: AdminRole, trusted: seq<string>, service: string)
    ensures service in ViaOf(c, role, trusted) <==> service in trusted && Passable(c, role, service)
    decreases |trusted|
  {
    if trusted != [] {
      ViaListed(c, role, trusted[..|trusted| - 1], service);
      assert trusted == trusted[..|trusted| - 1] + [trusted[|trusted| - 1]];
    }
  }

  lemma GrantMeansStatement(s: Statement, role: AdminRole, service: string)
    requires GrantsPassing(s)
    ensures GrantAllows(GrantOf(s), role, service) <==> LetsPass(s, role, service)
  {
    if s.notResources.Some? { assert "*" in GrantOf(s).resources; }
  }

  /** The second phase reports the service for the role. */
  predicate SummaryAccepts(c: Option<Capability>, role: AdminRole, service: string) {
    c.Some? && Joined(c.value, role) && service in ViaOf(c.value, role, role.trustedServices)
  }

  /** One principal's summary loses nothing the rule needs. */
  lemma SummaryRefinesRule(principalArn: string, documents: seq<Document>, role: AdminRole, service: string)
    ensures SummaryAccepts(CapabilityOf(principalArn, documents), role, service)
       <==> Escalates(principalArn, StatementsOf(documents), role, service)
  {
    var statements := StatementsOf(documents);
    LaunchesListed(statements, service);
    PassableMeansSome(statements, role, service);
    DeniedMeansForbidden(statements, role);
    var c := CapabilityOf(principalArn, documents);
    if c.Some? { ViaListed(c.value, role, role.trustedServices, service); }
  }

  lemma LaunchesListed(statements: seq<Statement>, service: string)
    ensures service in ServicesOf(PASS_ROLE_COMPUTE, statements) <==> Launches(statements, service)
  {
    ServicesListed(PASS_ROLE_COMPUTE, statements, service);
  }

  lemma PassableMeansSome(statements: seq<Statement>, role: AdminRole, service: string)
    ensures (exists g :: g in GrantsOf(statements) && GrantAllows(g, role, service))
       <==> exists s :: s in statements && LetsPass(s, role, service)
  {
    if g :| g in GrantsOf(statements) && GrantAllows(g, role, service) {
      GrantsListed(statements, g);
      var s :| s in statements && GrantsPassing(s) && GrantOf(s) == g;
      GrantMeansStatement(s, role, service);
    }
    if s :| s in statements && LetsPass(s, role, service) {
      GrantsListed(statements, GrantOf(s));
      GrantMeansStatement(s, role, service);
    }
  }

  lemma DeniedMeansForbidden(statements: seq<Statement>, role: AdminRole)
    ensures (exists p :: p in DeniedOf(statements) && IsResourceMatched(p, role.passArn))
       <==> exists s :: s in statements && ForbidsPass(s, role)
  {
    if p :| p in DeniedOf(statements) && IsResourceMatched(p, role.passArn) {
      DeniedListed(statements, p);
      var s :| s in statements && DeniesPassing(s) && p in s.resources;
      assert ForbidsPass(s, role);
    }
    if s :| s in statements && ForbidsPass(s, role) {
      var p :| p in s.resources && IsResourceMatched(p, role.passArn);
      DeniedListed(statements, p);
    }
  }

  datatype Principal = Principal(arn: string, documents: seq<Document>)

  function Summaries(principals: seq<Principal>): seq<Capability> {
    if principals == [] then [] else
      var rest := Summaries(principals[..|principals| - 1]);
      var last := principals[|principals| - 1];
      var c := CapabilityOf(last.arn, last.documents);
      if c.Some? then rest + [c.value] else rest
  }

  lemma {:induction false} SummariesListed(principals: seq<Principal>, c: Capability)
    ensures c in Summaries(principals) <==> exists p :: p in principals && CapabilityOf(p.arn, p.documents) == Some(c)
    decreases |principals|
  {
    if principals != [] {
      SummariesListed(principals[..|principals| - 1], c);
      assert principals == principals[..|principals| - 1] + [principals[|principals| - 1]];
    }
  }

  lemma {:induction false} PathsForListed(c: Capability, roles: seq<AdminRole>, p: PassRolePath)
    ensures p in PathsFor(c, roles)
       <==> exists role :: role in roles && PathOf(c, role, p)
    decreases |roles|
  {
    if roles != [] {
      var front, last := roles[..|roles| - 1], roles[|roles| - 1];
      PathsForListed(c, front, p);
      assert p in PathsFor(c, roles) <==> p in PathsFor(c, front) || PathOf(c, last, p);
      assert forall role :: role in roles <==> role in front || role == last;
    }
  }

  predicate PathOf(c: Capability, role: AdminRole, p: PassRolePath) {
    Joined(c, role) && p == PassRolePath(c.principalArn, role.arn, ViaOf(c, role, role.trustedServices)) && p.via != []
  }

  lemma {:induction false} AllPathsListed(capabilities: seq<Capability>, roles: seq<AdminRole>, p: PassRolePath)
    ensures p in AllPaths(capabilities, roles) <==> exists c :: c in capabilities && p in PathsFor(c, roles)
    decreases |capabilities|
  {
    if capabilities != [] {
      var front, last := capabilities[..|capabilities| - 1], capabilities[|capabilities| - 1];
      AllPathsListed(front, roles, p);
      assert p in AllPaths(capabilities, roles) <==> p in AllPaths(front, roles) || p in PathsFor(last, roles);
      assert capabilities == front + [last];
      if c :| c in front && p in PathsFor(c, roles) { assert c in capabilities; }
      if p in PathsFor(last, roles) { assert last in capabilities; }
    }
  }

  ghost predicate Reported(paths: seq<PassRolePath>, principalArn: string, roleArn: string, service: string) {
    exists p :: p in paths && p.source == principalArn && p.target == roleArn && service in p.via
  }

  ghost predicate RuleAccepts(principals: seq<Principal>, roles: seq<AdminRole>, principalArn: string, roleArn: string, service: string) {
    exists p, role :: p in principals && role in roles && p.arn == principalArn && role.arn == roleArn
                   && Escalates(p.arn, StatementsOf(p.documents), role, service)
  }

  /** Two-phase detection refines the direct rule: a principal, role and service are reported
      exactly when the statement-by-statement check accepts them. */
  lemma DetectionRefinesRule(principals: seq<Principal>, roles: seq<AdminRole>, principalArn: string, roleArn: string, service: string)
    ensures Reported(AllPaths(Summaries(principals), roles), principalArn, roleArn, service)
       <==> RuleAccepts(principals, roles, principalArn, roleArn, service)
  {
    var paths := AllPaths(Summaries(principals), roles);
    if Reported(paths, principalArn, roleArn, service) {
      var path :| path in paths && path.source == principalArn && path.target == roleArn && service in path.via;
      AllPathsListed(Summaries(principals), roles, path);
      var c :| c in Summaries(principals) && path in PathsFor(c, roles);
      PathsForListed(c, roles, path);
      var role :| role in roles && PathOf(c, role, path);
      SummariesListed(principals, c);
      var p :| p in principals && CapabilityOf(p.arn, p.documents) == Some(c);
      SummaryRefinesRule(p.arn, p.documents, role, service);
    }
    if RuleAccepts(principals, roles, principalArn, roleArn, service) {
      var p, role :| p in principals && role in roles && p.arn == principalArn && role.arn == roleArn
                  && Escalates(p.arn, StatementsOf(p.documents), role, service);
      SummaryRefinesRule(p.arn, p.documents, role, service);
      var c := CapabilityOf(p.arn, p.documents).value;
      SummariesListed(principals, c);
      var path := PassRolePath(c.principalArn, role.arn, ViaOf(c, role, role.trustedServices));
      assert PathOf(c, role, path);
      PathsForListed(c, roles, path);
      AllPathsListed(Summaries(principals), roles, path);
    }
  }

  // ----- monotonicity

  ghost predicate Adds(before: seq<Statement>, after: seq<Statement>, s: Statement) {
    forall x :: x in after <==> x in before || x == s
  }

  lemma AllowedGrows(before: seq<Statement>, after: seq<Statement>, s: Statement, action: string)
    requires Adds(before, after, s)
    ensures s.effect.Allow? && ActionAllowed(before, action) ==> ActionAllowed(after, action)
    ensures s.effect.Deny? && ActionAllowed(after, action) ==> ActionAllowed(before, action)
  {
    if s.effect.Deny? && ActionAllowed(after, action) {
      var x :| x in after && AllowsPlainly(x, action);
    }
  }

  lemma LaunchesGrows(before: seq<Statement>, after: seq<Statement>, s: Statement, service: string)
    requires Adds(before, after, s)
    ensures s.effect.Allow? && Launches(before, service) ==> Launches(after, service)
    ensures s.effect.Deny? && Launches(after, service) ==> Launches(before, service)
  {
    if s.effect.Allow? && Launches(before, service) {
      var c :| c in PASS_ROLE_COMPUTE && c.service == service && CanLaunch(before, c);
      var actions :| actions in c.actionSets && AllAllowed(before, actions);
      forall a | a in actions ensures ActionAllowed(after, a) { AllowedGrows(before, after, s, a); }
      assert AllAllowed(after, actions) && CanLaunch(after, c);
    }
    if s.effect.Deny? && Launches(after, service) {
      var c :| c in PASS_ROLE_COMPUTE && c.service == service && CanLaunch(after, c);
      var actions :| actions in c.actionSets && AllAllowed(after, actions);
      forall a | a in actions ensures ActionAllowed(before, a) { AllowedGrows(before, after, s, a); }
      assert AllAllowed(before, actions) && CanLaunch(before, c);
    }
  }

  /** Adding an Allow never hides an escalation, and adding a Deny never creates one. */
  lemma AllowAddsDenyRemoves(principalArn: string, before: seq<Statement>, after: seq<Statement>, s: Statement,
                             role: AdminRole, service: string)
    requires Adds(before, after, s)
    ensures s.effect.Allow? && Escalates(principalArn, before, role, service) ==> Escalates(principalArn, after, role, service)
    ensures s.effect.Deny? && Escalates(principalArn, after, role, service) ==> Escalates(principalArn, before, role, service)
  {
    LaunchesGrows(before, after, s, service);
    if s.effect.Deny? && Escalates(principalArn, after, role, service) {
      var x :| x in after && LetsPass(x, role, service);
      assert x in before;
    }
  }
}
