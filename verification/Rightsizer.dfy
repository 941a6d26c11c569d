/** The least-privilege rewriter: keeps the allowed patterns that were used
    recently (or only read), and merges the kept ones per service. */
module Rightsizer {
  import opened Glob
  import opened Policy

  datatype UsedAction = UsedAction(principal: string, eventSource: string, eventName: string, lastUsed: int)

  datatype Risk = Low | Medium | High

  datatype Recommendation = Recommendation(
    currentPolicy: seq<Statement>,
    recommended: seq<string>,
    removed: seq<string>,
    kept: seq<string>,
    risk: Risk,
    confidence: real)

  // ----- names

  const DOMAIN := ".amazonaws.com"

  /** The text without the first occurrence of the service domain. */
  function StripDomain(s: string): string {
    if s == "" then ""
    else if DOMAIN <= s then s[|DOMAIN|..]
    else [s[0]] + StripDomain(s[1..])
  }

  function UsedName(entry: UsedAction): (u: string)
    ensures ':' in u
  {
    StripDomain(entry.eventSource) + ":" + entry.eventName
  }

  /** Length of the part before the first colon, or of the whole text. */
  function ColonAt(a: string): (n: nat)
    ensures n <= |a| && ':' !in a[..n]
    ensures n < |a| ==> a[n] == ':'
  {
    if a == "" || a[0] == ':' then 0 else
      var n := ColonAt(a[1..]);
      assert a[..n + 1] == [a[0]] + a[1..][..n];
      n + 1
  }

  function ServiceOf(a: string): string { a[..ColonAt(a)] }

  function OpOf(a: string): string { if ColonAt(a) < |a| then a[ColonAt(a) + 1..] else "" }

  lemma ServiceAndOp(a: string)
    requires ':' in a
    ensures a == ServiceOf(a) + ":" + OpOf(a)
  {
    assert a[..|a|] == a;
  }

  // ----- the prefix an operation collapses to

  predicate IsUpper(c: char) { 'A' <= c <= 'Z' }
  predicate IsLower(c: char) { 'a' <= c <= 'z' }
  predicate IsLineBreak(c: char) { c == '\n' || c == '\r' || c == '\U{2028}' || c == '\U{2029}' }

  predicate OneLine(s: string) { forall c :: c in s ==> !IsLineBreak(c) }

  function FirstUpper(s: string): (n: nat)
    ensures n <= |s|
  {
    if s == "" || IsUpper(s[0]) then 0 else 1 + FirstUpper(s[1..])
  }

  function LowerRun(s: string): (n: nat)
    ensures n <= |s|
  {
    if s == "" || !IsLower(s[0]) then 0 else 1 + LowerRun(s[1..])
  }

  function LineLength(s: string): (n: nat)
    ensures n <= |s|
    ensures OneLine(s) ==> n == |s|
  {
    if s == "" || IsLineBreak(s[0]) then 0 else 1 + LineLength(s[1..])
  }

  /** Length up to the end of the first camel-case word. */
  function WordEnd(op: string): (n: nat)
    ensures n <= |op|
  {
    var i := FirstUpper(op);
    if i == |op| then i else i + 1 + LowerRun(op[i + 1..])
  }

  /** Everything up to the end of the first camel-case word; text on later lines survives. */
  function PrefixOf(op: string): string {
    if WordEnd(op) == |op| then op else SkipLine(op[..WordEnd(op)], op[WordEnd(op)..])
  }

  function SkipLine(word: string, tail: string): string { word + tail[LineLength(tail)..] }

  lemma WholeLine(word: string, tail: string)
    requires OneLine(tail)
    ensures SkipLine(word, tail) == word
  {
    assert tail[|tail|..] == "" && word + "" == word;
  }

  lemma PrefixIsPrefix(op: string)
    requires OneLine(op)
    ensures PrefixOf(op) <= op
  {
    var w := WordEnd(op);
    forall c | c in op[w..] ensures !IsLineBreak(c) { assert c in op; }
    WholeLine(op[..w], op[w..]);
  }

  // ----- which patterns stay

  const READ_VERBS_CAPITAL := ["Get", "List", "Describe", "Head", "Lookup", "BatchGet", "View", "Search", "Download"]
  const READ_VERBS := ["Query", "Scan", "Select"]

  /** Some colon on the first line is followed by a reading verb. */
  predicate IsReadOnlyAction(action: string) {
    exists i :: 0 <= i < |action| && action[i] == ':' && OneLine(action[..i]) && ReadsAfter(action[i + 1..])
  }

  predicate ReadsAfter(rest: string) {
    || (exists v :: v in READ_VERBS_CAPITAL && v <= rest && |v| < |rest| && IsUpper(rest[|v|]))
    || (exists v :: v in READ_VERBS && v <= rest)
  }

  predicate IsRecent(entry: UsedAction, principal: string, cutoff: int) {
    entry.principal == principal && entry.lastUsed >= cutoff
  }

  function RecentActions(used: seq<UsedAction>, principal: string, cutoff: int): seq<UsedAction> {
    if used == [] then [] else
      var rest := RecentActions(used[..|used| - 1], principal, cutoff);
      if IsRecent(used[|used| - 1], principal, cutoff) then rest + [used[|used| - 1]] else rest
  }

  predicate Stays(action: string, usedNames: set<string>, keepReads: bool) {
    (exists u :: u in usedNames && IsActionMatched(action, u)) || (keepReads && IsReadOnlyAction(action))
  }

  function Staying(allowed: seq<string>, usedNames: set<string>, keepReads: bool, want: bool): seq<string> {
    if allowed == [] then [] else
      var rest := Staying(allowed[..|allowed| - 1], usedNames, keepReads, want);
      var last := allowed[|allowed| - 1];
      if Stays(last, usedNames, keepReads) == want then rest + [last] else rest
  }

  lemma {:induction false} StayingMembers(allowed: seq<string>, usedNames: set<string>, keepReads: bool, want: bool)
    ensures forall a :: a in Staying(allowed, usedNames, keepReads, want)
                   <==> a in allowed && Stays(a, usedNames, keepReads) == want
  {
    if allowed != [] {
      StayingMembers(allowed[..|allowed| - 1], usedNames, keepReads, want);
      assert allowed == allowed[..|allowed| - 1] + [allowed[|allowed| - 1]];
    }
  }

  // ----- consolidation, as a function of the kept list

  function ServicesOf(actions: seq<string>): seq<string> {
    if actions == [] then [] else
      var rest := ServicesOf(actions[..|actions| - 1]);
      var service := ServiceOf(actions[|actions| - 1]);
      if service in rest then rest else rest + [service]
  }

  /** The distinct operations of one service, in first-seen order. */
  function OpsOf(actions: seq<string>, service: string): seq<string> {
    if actions == [] then [] else
      var rest := OpsOf(actions[..|actions| - 1], service);
      var last := actions[|actions| - 1];
      if ServiceOf(last) == service && OpOf(last) !in rest then rest + [OpOf(last)] else rest
  }

  function CountWithPrefix(ops: seq<string>, prefix: string): nat {
    if ops == [] then 0 else
      CountWithPrefix(ops[..|ops| - 1], prefix) + if prefix <= ops[|ops| - 1] then 1 else 0
  }

  predicate Collapses(op: string, ops: seq<string>) {
    |ops| > 2 && CountWithPrefix(ops, PrefixOf(op)) >= 2
  }

  function PrefixesOf(some: seq<string>, ops: seq<string>): seq<string> {
    if some == [] then [] else
      var rest := PrefixesOf(some[..|some| - 1], ops);
      var op := some[|some| - 1];
      if Collapses(op, ops) && PrefixOf(op) !in rest then rest + [PrefixOf(op)] else rest
  }

  function RemainderOf(some: seq<string>, ops: seq<string>): seq<string> {
    if some == [] then [] else
      var rest := RemainderOf(some[..|some| - 1], ops);
      var op := some[|some| - 1];
      if Collapses(op, ops) then rest else rest + [op]
  }

  function Qualify(service: string, ops: seq<string>, suffix: string): (r: seq<string>)
    ensures |r| == |ops| && forall i :: 0 <= i < |ops| ==> r[i] == service + ":" + ops[i] + suffix
  {
    seq(|ops|, i requires 0 <= i < |ops| => service + ":" + ops[i] + suffix)
  }

  function ServiceResult(service: string, ops: seq<string>): seq<string> {
    if |ops| >= 10 then [service + ":" + "*"]
    else Qualify(service, PrefixesOf(ops, ops), "*") + Qualify(service, RemainderOf(ops, ops), "")
  }

  function FlatMap(services: seq<string>, part: string -> seq<string>): seq<string> {
    if services == [] then [] else
      FlatMap(services[..|services| - 1], part) + part(services[|services| - 1])
  }

  function PartOf(actions: seq<string>): string -> seq<string> {
    service => ServiceResult(service, OpsOf(actions, service))
  }

  function Consolidated(actions: seq<string>): seq<string> {
    FlatMap(ServicesOf(actions), PartOf(actions))
  }

  /** What one kept action becomes. */
  function Target(action: string, actions: seq<string>): string {
    var ops := OpsOf(actions, ServiceOf(action));
    if |ops| >= 10 then ServiceOf(action) + ":" + "*"
    else if Collapses(OpOf(action), ops) then ServiceOf(action) + ":" + PrefixOf(OpOf(action)) + "*"
    else ServiceOf(action) + ":" + OpOf(action) + ""
  }

  /** The inner loop of consolidation: which prefixes a small service collapses to, and what is left. */
  method CollapseService(ops: seq<string>) returns (prefixes: seq<string>, remainder: seq<string>)
    ensures prefixes == PrefixesOf(ops, ops) && remainder == RemainderOf(ops, ops)
  {
    prefixes, remainder := [], [];
    for j := 0 to |ops|
      invariant prefixes == PrefixesOf(ops[..j], ops)
      invariant remainder == RemainderOf(ops[..j], ops)
    {
      assert ops[..j + 1][..j] == ops[..j];
      var prefix := PrefixOf(ops[j]);
      if |ops| > 2 && CountWithPrefix(ops, prefix) >= 2 {
        if prefix !in prefixes { prefixes := prefixes + [prefix]; }
      } else {
        remainder := remainder + [ops[j]];
      }
    }
    assert ops[..|ops|] == ops;
  }

  /** The first loop of consolidation: operations by service, both in first-seen order. */
  method GroupByService(actions: seq<string>) returns (services: seq<string>, byService: map<string, seq<string>>)
    ensures services == ServicesOf(actions)
    ensures forall s :: s in services ==> s in byService && byService[s] == OpsOf(actions, s)
  {
    services, byService := [], map[];
    for i := 0 to |actions|
      invariant Filed(actions[..i], services, byService)
    {
      assert actions[..i + 1] == actions[..i] + [actions[i]];
      var service, op := ServiceOf(actions[i]), OpOf(actions[i]);
      var ops := if service in byService then byService[service] else [];
      FiledOneMore(actions[..i], services, byService, actions[i]);
      if service !in byService { services := services + [service]; }
      if op !in ops { ops := ops + [op]; }
      byService := byService[service := ops];
    }
    assert actions[..|actions|] == actions;
  }

  /** The actions so far, by service. */
  ghost predicate Filed(actions: seq<string>, services: seq<string>, byService: map<string, seq<string>>) {
    && services == ServicesOf(actions)
    && (forall s :: s in byService <==> s in services)
    && (forall s :: OpsOf(actions, s) == if s in byService then byService[s] else [])
  }

  lemma FiledOneMore(actions: seq<string>, services: seq<string>, byService: map<string, seq<string>>, action: string)
    requires Filed(actions, services, byService)
    ensures var service, op := ServiceOf(action), OpOf(action);
            var ops := if service in byService then byService[service] else [];
            Filed(actions + [action], if service in byService then services else services + [service],
                  byService[service := if op in ops then ops else ops + [op]])
  {
    assert (actions + [action])[..|actions|] == actions;
    forall s { OpsOfOneMore(actions, action, s); }
  }

  lemma OpsOfOneMore(actions: seq<string>, action: string, service: string)
    ensures OpsOf(actions + [action], service)
         == if ServiceOf(action) == service && OpOf(action) !in OpsOf(actions, service)
            then OpsOf(actions, service) + [OpOf(action)] else OpsOf(actions, service)
  {
    assert (actions + [action])[..|actions|] == actions;
  }

  /** The second loop of consolidation, for one service. */
  method ConsolidateService(service: string, ops: seq<string>) returns (part: seq<string>)
    ensures part == ServiceResult(service, ops)
  {
    if |ops| >= 10 { return [service + ":" + "*"]; }
    var prefixes, remainder := CollapseService(ops);
    part := Qualify(service, prefixes, "*") + Qualify(service, remainder, "");
  }

  lemma FlatMapGrows(services: seq<string>, part: string -> seq<string>, i: nat)
    requires i < |services|
    ensures FlatMap(services[..i + 1], part) == FlatMap(services[..i], part) + part(services[i])
  {
    assert services[..i + 1][..i] == services[..i];
  }

  method ConsolidateActions(actions: seq<string>) returns (result: seq<string>)
    ensures result == Consolidated(actions)
  {
    if |actions| == 0 { return []; }
    var services, byService := GroupByService(actions);
    result := [];
    for i := 0 to |services|
      invariant result == FlatMap(services[..i], PartOf(actions))
    {
      FlatMapGrows(services, PartOf(actions), i);
      var part := ConsolidateService(services[i], byService[services[i]]);
      result := result + part;
    }
    assert services[..|services|] == services;
  }

  function NamesOf(entries: seq<UsedAction>): set<string> {
    set e | e in entries :: UsedName(e)
  }

  method CollectNames(recent: seq<UsedAction>) returns (names: set<string>)
    ensures names == NamesOf(recent)
  {
    names := {};
    for i := 0 to |recent|
      invariant names == NamesOf(recent[..i])
    {
      assert recent[..i + 1] == recent[..i] + [recent[i]];
      names := names + {UsedName(recent[i])};
    }
    assert recent[..|recent|] == recent;
  }

  method Partition(allowed: seq<string>, names: set<string>, keepReads: bool)
    returns (kept: seq<string>, removed: seq<string>)
    ensures kept == Staying(allowed, names, keepReads, true)
    ensures removed == Staying(allowed, names, keepReads, false)
  {
    kept, removed := [], [];
    for i := 0 to |allowed|
      invariant kept == Staying(allowed[..i], names, keepReads, true)
      invariant removed == Staying(allowed[..i], names, keepReads, false)
    {
      assert allowed[..i + 1][..i] == allowed[..i];
      var isUsed := exists u :: u in names && IsActionMatched(allowed[i], u);
      if isUsed {
        kept := kept + [allowed[i]];
      } else if keepReads && IsReadOnlyAction(allowed[i]) {
        kept := kept + [allowed[i]];
      } else {
        removed := removed + [allowed[i]];
      }
    }
    assert allowed[..|allowed|] == allowed;
  }

  method CurrentPolicy(documents: seq<Document>) returns (current: seq<Statement>)
    ensures current == StatementsOf(documents)
  {
    current := [];
    for i := 0 to |documents|
      invariant current == StatementsOf(documents[..i])
    {
      assert documents[..i + 1][..i] == documents[..i];
      if documents[i].Parsed? { current := current + documents[i].statements; }
    }
    assert documents[..|documents|] == documents;
  }

  method Recommend(principal: string, allowed: seq<string>, used: seq<UsedAction>,
                   documents: seq<Document>, cutoff: int, keepReads: bool)
    returns (r: Recommendation)
    ensures var names := NamesOf(RecentActions(used, principal, cutoff));
            && r.kept == Staying(allowed, names, keepReads, true)
            && r.removed == Staying(allowed, names, keepReads, false)
    ensures r.recommended == RecommendedFor(allowed, used, principal, cutoff, keepReads)
    ensures r.currentPolicy == StatementsOf(documents)
    ensures r.risk.High? <==> 2 * |r.removed| > |allowed|
    ensures r.risk.Low? <==> 5 * |r.removed| <= |allowed|
    ensures var n := |RecentActions(used, principal, cutoff)|;
            r.confidence == if n >= 100 then 1.0 else n as real / 100.0
  {
    var recent := RecentActions(used, principal, cutoff);
    var names := CollectNames(recent);
    var kept, removed := Partition(allowed, names, keepReads);
    var current := CurrentPolicy(documents);
    var recommended := ConsolidateActions(kept);
    RemovedAreAllowed(allowed, names, keepReads);
    var risk := RiskOf(|removed|, |allowed|);
    var share := |recent| as real / 100.0;
    var confidence := if |recent| > 0 then (if 1.0 < share then 1.0 else share) else 0.0;
    r := Recommendation(current, recommended, removed, kept, risk, confidence);
  }

  lemma {:induction false} RemovedAreAllowed(allowed: seq<string>, names: set<string>, keepReads: bool)
    ensures |Staying(allowed, names, keepReads, false)| + |Staying(allowed, names, keepReads, true)| == |allowed|
  {
    if allowed != [] { RemovedAreAllowed(allowed[..|allowed| - 1], names, keepReads); }
  }

  /** The risk level by the share of allowed patterns removed. */
  function RiskOf(removed: nat, allowed: nat): (risk: Risk)
    requires removed <= allowed
    ensures risk.High? <==> 2 * removed > allowed
    ensures risk.Low? <==> 5 * removed <= allowed
  {
    var ratio := if allowed > 0 then removed as real / allowed as real else 0.0;
    RatioBounds(removed, allowed);
    if ratio > 0.5 then High else if ratio > 0.2 then Medium else Low
  }

  lemma RatioBounds(n: nat, d: nat)
    ensures d > 0 ==> (n as real / d as real > 0.5 <==> 2 * n > d)
    ensures d > 0 ==> (n as real / d as real > 0.2 <==> 5 * n > d)
  {
    if d > 0 {
      QuotientAbove(n as real, d as real, 0.5);
      QuotientAbove(n as real, d as real, 0.2);
    }
  }

  lemma QuotientAbove(n: real, d: real, c: real)
    requires d > 0.0
    ensures n / d > c <==> n > c * d
  {
    var q := n / d;
    assert q * d == n;
    if q > c { assert (q - c) * d > 0.0; } else { assert (c - q) * d >= 0.0; }
  }

  // ----- what consolidation yields: exactly the target of each kept action

  lemma {:induction false} ServiceListed(actions: seq<string>)
    ensures forall s :: s in ServicesOf(actions) <==> exists a :: a in actions && ServiceOf(a) == s
    ensures forall s, op :: op in OpsOf(actions, s)
                       <==> exists a :: a in actions && ServiceOf(a) == s && OpOf(a) == op
  {
    if actions != [] {
      var front, last := actions[..|actions| - 1], actions[|actions| - 1];
      ServiceListed(front);
      assert actions == front + [last];
      forall s ensures s in ServicesOf(actions) <==> exists a :: a in actions && ServiceOf(a) == s {
        if s in ServicesOf(front) {
          var a :| a in front && ServiceOf(a) == s;
          assert a in actions;
        }
      }
      forall s, op
        ensures op in OpsOf(actions, s) <==> exists a :: a in actions && ServiceOf(a) == s && OpOf(a) == op
      {
        if op in OpsOf(front, s) {
          var a :| a in front && ServiceOf(a) == s && OpOf(a) == op;
          assert a in actions;
        }
      }
    }
  }

  lemma {:induction false} PrefixesListed(some: seq<string>, ops: seq<string>)
    ensures forall p :: p in PrefixesOf(some, ops) <==> exists op :: op in some && Collapses(op, ops) && PrefixOf(op) == p
    ensures forall op :: op in RemainderOf(some, ops) <==> op in some && !Collapses(op, ops)
  {
    if some != [] {
      var front, last := some[..|some| - 1], some[|some| - 1];
      PrefixesListed(front, ops);
      assert some == front + [last];
      forall p
        ensures p in PrefixesOf(some, ops) <==> exists op :: op in some && Collapses(op, ops) && PrefixOf(op) == p
      {
        if p in PrefixesOf(front, ops) {
          var op :| op in front && Collapses(op, ops) && PrefixOf(op) == p;
          assert op in some;
        }
      }
    }
  }

  lemma QualifyListed(service: string, ops: seq<string>, suffix: string, r: string)
    ensures r in Qualify(service, ops, suffix) <==> exists op :: op in ops && r == service + ":" + op + suffix
  {
    var q := Qualify(service, ops, suffix);
    if r in q {
      var i :| 0 <= i < |q| && q[i] == r;
      assert ops[i] in ops;
    }
    if op :| op in ops && r == service + ":" + op + suffix {
      var i :| 0 <= i < |ops| && ops[i] == op;
      assert q[i] == r;
    }
  }

  lemma {:induction false} FlatMapListed(services: seq<string>, part: string -> seq<string>, r: string)
    ensures r in FlatMap(services, part) <==> exists s :: s in services && r in part(s)
  {
    if services != [] {
      var front, last := services[..|services| - 1], services[|services| - 1];
      FlatMapListed(front, part, r);
      assert services == front + [last];
    }
  }

  lemma TargetInService(action: string, actions: seq<string>)
    requires action in actions
    ensures Target(action, actions) in ServiceResult(ServiceOf(action), OpsOf(actions, ServiceOf(action)))
  {
    ServiceListed(actions);
    var s, op := ServiceOf(action), OpOf(action);
    var ops := OpsOf(actions, s);
    assert op in ops;
    PrefixesListed(ops, ops);
    if |ops| < 10 {
      if Collapses(op, ops) {
        assert PrefixOf(op) in PrefixesOf(ops, ops);
        QualifyListed(s, PrefixesOf(ops, ops), "*", Target(action, actions));
      } else {
        QualifyListed(s, RemainderOf(ops, ops), "", Target(action, actions));
      }
    }
  }

  /** The merged list holds the target of every kept action and nothing else. */
  lemma ConsolidatedIsTargets(actions: seq<string>, r: string)
    ensures r in Consolidated(actions) <==> exists a :: a in actions && r == Target(a, actions)
  {
    ServiceListed(actions);
    FlatMapListed(ServicesOf(actions), PartOf(actions), r);
    if r in Consolidated(actions) {
      var s :| s in ServicesOf(actions) && r in PartOf(actions)(s);
      var ops := OpsOf(actions, s);
      PrefixesListed(ops, ops);
      if |ops| >= 10 {
        var a :| a in actions && ServiceOf(a) == s;
        assert r == Target(a, actions);
      } else if r in Qualify(s, PrefixesOf(ops, ops), "*") {
        QualifyListed(s, PrefixesOf(ops, ops), "*", r);
        var p :| p in PrefixesOf(ops, ops) && r == s + ":" + p + "*";
        var op :| op in ops && Collapses(op, ops) && PrefixOf(op) == p;
        var a :| a in actions && ServiceOf(a) == s && OpOf(a) == op;
        assert r == Target(a, actions);
      } else {
        QualifyListed(s, RemainderOf(ops, ops), "", r);
        var op :| op in RemainderOf(ops, ops) && r == s + ":" + op + "";
        var a :| a in actions && ServiceOf(a) == s && OpOf(a) == op;
        assert r == Target(a, actions);
      }
    }
    if a :| a in actions && r == Target(a, actions) {
      TargetInService(a, actions);
      assert r in PartOf(actions)(ServiceOf(a));
    }
  }

  // ----- a target matches whatever its action matches

  lemma WildcardPairMeaning(u: string)
    requires ':' in u
    ensures Matches("*:*", u)
  {
    var k :| 0 <= k < |u| && u[k] == ':';
    StarMatchesAll(u[..k]);
    StarMatchesAll(u[k + 1..]);
    assert ":"[1..] == "" && u[k..k + 1] == ":" && Matches(":", u[k..k + 1]);
    ConcatMatches("*", ":", u[..k], u[k..k + 1]);
    ConcatMatches("*" + ":", "*", u[..k] + u[k..k + 1], u[k + 1..]);
    assert "*" + ":" + "*" == "*:*" && u[..k] + u[k..k + 1] + u[k + 1..] == u;
  }

  lemma PrefixStarSubsumes(head: string, tail: string, u: string)
    requires Matches(head + tail, u)
    ensures Matches(head + "*", u)
  {
    var k := MatchesConcat(head, tail, u);
    StarMatchesAll(u[k..]);
    ConcatMatches(head, "*", u[..k], u[k..]);
    assert u[..k] + u[k..] == u;
  }

  lemma LowerSplit(head: string, tail: string)
    ensures Lower(head + tail) == Lower(head) + Lower(tail)
    ensures Lower(head + "*") == Lower(head) + "*"
  {
    LowerConcat(head, tail);
    LowerConcat(head, "*");
    assert "*"[1..] == "";
  }

  /** A pattern whose first part is kept and whose rest becomes a star still matches. */
  lemma WidenedMatches(head: string, tail: string, u: string)
    requires '*' !in u && ':' in u && IsActionMatched(head + tail, u)
    requires head + tail != "*"
    ensures IsActionMatched(head + "*", u)
  {
    ActionMatchMeaning(head + tail, u);
    ActionMatchMeaning(head + "*", u);
    if head + tail == "*:*" { WildcardPairCovers(u); }
    LowerSplit(head, tail);
    PrefixStarSubsumes(Lower(head), Lower(tail), Lower(u));
  }

  lemma WildcardPairCovers(u: string)
    requires ':' in u
    ensures Matches(Lower("*:*"), Lower(u))
  {
    var k :| 0 <= k < |u| && u[k] == ':';
    assert Lower(u)[k] == ':';
    assert Lower("*:*") == "*:*";
    WildcardPairMeaning(Lower(u));
  }

  lemma Regroup(a: string, b: string, c: string)
    ensures a + (b + c) == (a + b) + c
  {
  }

  /** The action collapses to a prefix it does not have: its operation goes on after a line break, where
      the prefix expression stops, and others begin with what that leaves. */
  predicate CutAtLineEnd(action: string, actions: seq<string>) {
    var op, ops := OpOf(action), OpsOf(actions, ServiceOf(action));
    |ops| < 10 && Collapses(op, ops) && !(PrefixOf(op) <= op)
  }

  lemma OneLineIsNeverCut(action: string, actions: seq<string>)
    requires OneLine(OpOf(action))
    ensures !CutAtLineEnd(action, actions)
  {
    PrefixIsPrefix(OpOf(action));
  }

  /** An action is kept as it is, or all of it from some place on becomes a star. */
  lemma TargetWidens(action: string, actions: seq<string>) returns (head: string, tail: string)
    requires ':' in action && !CutAtLineEnd(action, actions)
    ensures action == head + tail
    ensures Target(action, actions) == action || Target(action, actions) == head + "*"
  {
    ServiceAndOp(action);
    var service, op := ServiceOf(action) + ":", OpOf(action);
    var ops := OpsOf(actions, ServiceOf(action));
    if |ops| >= 10 {
      return service, op;
    }
    if Collapses(op, ops) {
      head, tail := CollapsedSplit(service, op);
      assert action == service + op;
      return;
    }
    KeptWhole(service, op);
    return action, "";
  }

  lemma CollapsedSplit(service: string, op: string) returns (head: string, tail: string)
    requires PrefixOf(op) <= op
    ensures head == service + PrefixOf(op) && service + op == head + tail
  {
    head, tail := service + PrefixOf(op), op[|PrefixOf(op)|..];
    assert op == PrefixOf(op) + tail;
    Regroup(service, PrefixOf(op), tail);
  }

  lemma KeptWhole(service: string, op: string)
    ensures service + op + "" == service + op
  {
  }

  lemma TargetCovers(action: string, actions: seq<string>, u: string)
    requires ':' in action && !CutAtLineEnd(action, actions)
    requires '*' !in u && ':' in u && IsActionMatched(action, u)
    ensures IsActionMatched(Target(action, actions), u)
  {
    var head, tail := TargetWidens(action, actions);
    if Target(action, actions) != action { WidenedMatches(head, tail, u); }
  }

  lemma {:induction false} RecentMembers(used: seq<UsedAction>, principal: string, cutoff: int)
    ensures forall e :: e in RecentActions(used, principal, cutoff) <==> e in used && IsRecent(e, principal, cutoff)
  {
    if used != [] {
      RecentMembers(used[..|used| - 1], principal, cutoff);
      assert used == used[..|used| - 1] + [used[|used| - 1]];
    }
  }

  function RecommendedFor(allowed: seq<string>, used: seq<UsedAction>, principal: string, cutoff: int, keepReads: bool): seq<string> {
    var names := NamesOf(RecentActions(used, principal, cutoff));
    Consolidated(Staying(allowed, names, keepReads, true))
  }

  /** Rightsizing never cuts a recently used permission: when an allowed pattern
      with a colon covers a recent use, some recommended action covers it too. */
  lemma RecentUseStaysAllowed(allowed: seq<string>, used: seq<UsedAction>, principal: string, cutoff: int,
                              keepReads: bool, pattern: string, entry: UsedAction)
    requires pattern in allowed && ':' in pattern
    requires !CutAtLineEnd(pattern, Staying(allowed, NamesOf(RecentActions(used, principal, cutoff)), keepReads, true))
    requires entry in used && IsRecent(entry, principal, cutoff) && '*' !in UsedName(entry)
    requires IsActionMatched(pattern, UsedName(entry))
    ensures exists r :: r in RecommendedFor(allowed, used, principal, cutoff, keepReads)
                     && IsActionMatched(r, UsedName(entry))
  {
    RecentMembers(used, principal, cutoff);
    var names := NamesOf(RecentActions(used, principal, cutoff));
    assert UsedName(entry) in names;
    var kept := Staying(allowed, names, keepReads, true);
    StayingMembers(allowed, names, keepReads, true);
    assert pattern in kept;
    var r := Target(pattern, kept);
    ConsolidatedIsTargets(kept, r);
    TargetCovers(pattern, kept, UsedName(entry));
  }

  // ----- what a cut at a line end loses

  /** A text that the pattern matches: `x` for every wildcard. */
  function Sample(p: string): (s: string)
    ensures |s| == |p| && forall i :: 0 <= i < |p| ==> s[i] == if p[i] == '*' || p[i] == '?' then 'x' else LowerChar(p[i])
  {
    seq(|p|, i requires 0 <= i < |p| => if p[i] == '*' || p[i] == '?' then 'x' else LowerChar(p[i]))
  }

  lemma {:induction false} SampleMatches(p: string)
    ensures Matches(Lower(p), Lower(Sample(p)))
    decreases |p|
  {
    if p != "" {
      assert Sample(p) == [Sample(p)[0]] + Sample(p[1..]);
      SampleMatches(p[1..]);
      assert [LowerChar(p[0])][1..] == "" && [LowerChar(Sample(p)[0])][1..] == "";
      StarMatchesAll([LowerChar(Sample(p)[0])]);
      assert Matches([LowerChar(p[0])], [LowerChar(Sample(p)[0])]);
      ConcatMatches([LowerChar(p[0])], Lower(p[1..]), [LowerChar(Sample(p)[0])], Lower(Sample(p[1..])));
    }
  }

  /** What is cut out lies between the first word and the end of the line, and neither it nor what
      follows is empty. */
  lemma CutParts(op: string) returns (word: string, middle: string, rest: string)
    requires !(PrefixOf(op) <= op)
    ensures word == op[..WordEnd(op)] && op == word + middle + rest && PrefixOf(op) == word + rest
    ensures middle != "" && !IsLineBreak(middle[0]) && rest != "" && IsLineBreak(rest[0])
  {
    var w := WordEnd(op);
    var n := LineLength(op[w..]);
    LineEnds(op[w..]);
    word, middle, rest := op[..w], op[w..w + n], op[w + n..];
    InThree(op, w, w + n);
    assert op[w..][n..] == rest;
    assert word + "" == word;
  }

  lemma InThree(s: string, i: nat, j: nat)
    requires i <= j <= |s|
    ensures s == s[..i] + s[i..j] + s[j..]
  {
  }

  lemma LineEnds(s: string)
    ensures LineLength(s) < |s| ==> IsLineBreak(s[LineLength(s)])
    ensures LineLength(s) > 0 ==> !IsLineBreak(s[0])
  {
  }

  /** A pattern without a star whose next character is fixed matches only texts that have it there. */
  lemma NextCharacter(head: string, rest: string, u: string)
    requires '*' !in head && rest != "" && rest[0] != '*' && rest[0] != '?' && Matches(head + rest, u)
    ensures |head| < |u| && u[|head|] == rest[0]
  {
    var k := MatchesConcat(head, rest, u);
    StarFreeLength(head, u[..k]);
  }

  /** An action up to the end of the first word of its operation. */
  function Stem(action: string): string { ServiceOf(action) + ":" + OpOf(action)[..WordEnd(OpOf(action))] }

  /** A cut action whose stem has no star loses a use. */
  lemma CutLoses(action: string, actions: seq<string>) returns (u: string)
    requires ':' in action && CutAtLineEnd(action, actions) && '*' !in Stem(action)
    ensures '*' !in u && ':' in u && IsActionMatched(action, u) && !IsActionMatched(Target(action, actions), u)
  {
    var middle, rest := CutAction(action, actions);
    u := CutUse(Stem(action), middle, rest);
  }

  lemma CutUse(stem: string, middle: string, rest: string) returns (u: string)
    requires '*' !in stem && ':' in stem && middle != "" && !IsLineBreak(middle[0]) && rest != "" && IsLineBreak(rest[0])
    ensures u == Sample(stem + middle + rest) && '*' !in u && ':' in u
    ensures IsActionMatched(stem + middle + rest, u) && !IsActionMatched(stem + (rest + "*"), u)
  {
    var action := stem + middle + rest;
    u := Sample(action);
    var k :| 0 <= k < |stem| && stem[k] == ':';
    assert u[k] == LowerChar(action[k]) && action[k] == ':';
    SampleMatches(action);
    ActionMatchMeaning(action, u);
    NotMatchedAfter(stem, middle, rest, rest + "*");
  }

  /** No pattern that breaks the line where the stem ends matches it. */
  lemma NotMatchedAfter(stem: string, middle: string, rest: string, after: string)
    requires '*' !in stem && middle != "" && !IsLineBreak(middle[0]) && |stem| > 0 && after != "" && IsLineBreak(after[0])
    ensures !IsActionMatched(stem + after, Sample(stem + middle + rest))
  {
    CutTextLost(stem, middle, rest, after);
    ActionMatchMeaning(stem + after, Sample(stem + middle + rest));
  }

  lemma CutAction(action: string, actions: seq<string>) returns (middle: string, rest: string)
    requires ':' in action && CutAtLineEnd(action, actions)
    ensures ':' in Stem(action) && action == Stem(action) + middle + rest && Target(action, actions) == Stem(action) + (rest + "*")
    ensures middle != "" && !IsLineBreak(middle[0]) && rest != "" && IsLineBreak(rest[0])
  {
    ServiceAndOp(action);
    var word;
    word, middle, rest := CutParts(OpOf(action));
    CutShapes(ServiceOf(action) + ":", word, middle, rest);
    assert Stem(action)[|ServiceOf(action)|] == ':';
  }

  lemma CutShapes(service: string, word: string, middle: string, rest: string)
    ensures service + (word + middle + rest) == service + word + middle + rest
    ensures service + (word + rest) + "*" == service + word + (rest + "*")
  {
  }

  lemma CutTextLost(stem: string, middle: string, rest: string, after: string)
    requires '*' !in stem && middle != "" && !IsLineBreak(middle[0]) && after != "" && IsLineBreak(after[0])
    ensures !Matches(Lower(stem + after), Lower(Sample(stem + middle + rest)))
    ensures stem + after != "*" && stem + after != "*:*"
  {
    LowerConcat(stem, after);
    LowerKeepsStars(stem);
    assert (stem + middle + rest)[|stem|] == middle[0];
    assert (stem + after)[|stem|] == after[0];
    if Matches(Lower(stem + after), Lower(Sample(stem + middle + rest))) {
      NextCharacter(Lower(stem), Lower(after), Lower(Sample(stem + middle + rest)));
      assert false;
    }
  }

  /** For an action without a star in its stem: exactly the cut loses uses. */
  lemma TargetKeepsExactlyWhen(action: string, actions: seq<string>)
    requires ':' in action && '*' !in Stem(action)
    ensures (forall u :: '*' !in u && ':' in u && IsActionMatched(action, u) ==> IsActionMatched(Target(action, actions), u))
       <==> !CutAtLineEnd(action, actions)
  {
    if CutAtLineEnd(action, actions) {
      var u := CutLoses(action, actions);
    } else {
      forall u | '*' !in u && ':' in u && IsActionMatched(action, u) ensures IsActionMatched(Target(action, actions), u) {
        TargetCovers(action, actions, u);
      }
    }
  }

  predicate AllLower(s: string) { forall c :: c in s ==> IsLower(c) }

  predicate IsWord(s: string) { s != "" && IsUpper(s[0]) && AllLower(s[1..]) }

  lemma {:induction false} LowerRunEnds(s: string, t: string)
    requires AllLower(s) && (t == "" || !IsLower(t[0]))
    ensures LowerRun(s + t) == |s|
    decreases |s|
  {
    if s == "" {
      assert s + t == t;
    } else {
      assert (s + t)[1..] == s[1..] + t && s[0] in s;
      LowerRunEnds(s[1..], t);
    }
  }

  lemma Joined(a: string, b: string, n: nat)
    requires n <= |b|
    ensures (a + b)[..|a|] == a && (a + b)[|a|..] == b && (a + b)[|a| + n..] == b[n..]
    ensures a != "" ==> (a + b)[1..] == a[1..] + b
  {
  }

  lemma WordEnds(word: string, tail: string)
    requires IsWord(word) && tail != "" && !IsLower(tail[0])
    ensures WordEnd(word + tail) == |word|
  {
    Joined(word, tail, 0);
    LowerRunEnds(word[1..], tail);
  }

  lemma WordPrefix(word: string, tail: string)
    requires IsWord(word) && tail != "" && !IsLower(tail[0])
    ensures PrefixOf(word + tail) == word + tail[LineLength(tail)..]
  {
    WordEnds(word, tail);
    Joined(word, tail, 0);
    assert PrefixOf(word + tail) == SkipLine(word, tail);
  }

  lemma {:induction false} LineStops(middle: string, rest: string)
    requires OneLine(middle) && rest != "" && IsLineBreak(rest[0])
    ensures LineLength(middle + rest) == |middle| && (middle + rest)[|middle|..] == rest
    decreases |middle|
  {
    if middle == "" {
      assert middle + rest == rest;
    } else {
      assert (middle + rest)[1..] == middle[1..] + rest && middle[0] in middle;
      LineStops(middle[1..], rest);
    }
  }

  lemma {:induction false} ColonAfter(service: string, op: string)
    requires ':' !in service
    ensures ColonAt(service + ":" + op) == |service|
    decreases |service|
  {
    var a := service + ":" + op;
    assert a[|service|] == ':';
    if service != "" {
      assert service[0] in service;
      assert a[1..] == service[1..] + ":" + op;
      ColonAfter(service[1..], op);
    }
  }

  lemma OfService(service: string, op: string)
    requires ':' !in service
    ensures ServiceOf(service + ":" + op) == service && OpOf(service + ":" + op) == op
  {
    ColonAfter(service, op);
    Joined(service, ":" + op, 1);
    assert service + ":" + op == service + (":" + op) && (":" + op)[1..] == op;
  }

  lemma OpsOfThree(service: string, x: string, y: string, z: string)
    requires ':' !in service && x != y && y != z && z != x
    ensures OpsOf([service + ":" + x, service + ":" + y, service + ":" + z], service) == [x, y, z]
  {
    var a, b, c := service + ":" + x, service + ":" + y, service + ":" + z;
    OfService(service, x);
    OfService(service, y);
    OfService(service, z);
    assert [a, b, c][..2] == [a, b] && [a, b][..1] == [a] && [a][..0] == [];
    assert OpsOf([], service) == [];
    assert OpsOf([a], service) == [x];
    assert OpsOf([a, b], service) == [x, y];
  }

  lemma TwoBegin(x: string, y: string, z: string, prefix: string)
    requires prefix <= y && prefix <= z
    ensures CountWithPrefix([x, y, z], prefix) >= 2
  {
    assert [x, y, z][..2] == [x, y] && [x, y][..1] == [x];
  }

  /** The pattern begins with the stem and goes on with a line break. */
  predicate BreaksAfter(stem: string, p: string) { stem <= p && |stem| < |p| && IsLineBreak(p[|stem|]) }

  /** When every target breaks the line where a stem ends, nothing recommended matches the sample of an
      action that goes on there. */
  lemma AllMiss(actions: seq<string>, stem: string, middle: string, rest: string)
    requires '*' !in stem && ':' in stem && middle != "" && !IsLineBreak(middle[0]) && rest != "" && IsLineBreak(rest[0])
    requires forall a :: a in actions ==> BreaksAfter(stem, Target(a, actions))
    ensures forall r :: r in Consolidated(actions) ==> !IsActionMatched(r, Sample(stem + middle + rest))
  {
    forall r | r in Consolidated(actions) ensures !IsActionMatched(r, Sample(stem + middle + rest)) {
      ConsolidatedIsTargets(actions, r);
      assert r == stem + r[|stem|..];
      NotMatchedAfter(stem, middle, rest, r[|stem|..]);
    }
  }

  lemma Begins(stem: string, after: string)
    requires after != "" && IsLineBreak(after[0])
    ensures BreaksAfter(stem, stem + after)
  {
  }

  lemma RegroupFour(a: string, b: string, c: string, d: string)
    ensures a + (b + c) + d == a + b + (c + d)
  {
  }

  lemma BreakingTarget(service: string, word: string, op: string, rest: string, ops: seq<string>, actions: seq<string>)
    requires ':' !in service && OpsOf(actions, service) == ops && |ops| < 10 && rest != "" && IsLineBreak(rest[0])
    requires PrefixOf(op) == word + rest && (op == word + rest || Collapses(op, ops))
    ensures BreaksAfter(service + ":" + word, Target(service + ":" + op, actions))
  {
    OfService(service, op);
    var star := if Collapses(op, ops) then "*" else "";
    RegroupFour(service + ":", word, rest, star);
    Begins(service + ":" + word, rest + star);
  }

  /** What a line break in an operation costs: an operation of one word that goes on after it loses a use
      as soon as two kept ones have the break right after that word. */
  lemma LostAtLineEnd(service: string, word: string, middle: string, rest: string, more: string)
    returns (actions: seq<string>, u: string)
    requires ':' !in service && '*' !in service && IsWord(word) && rest != "" && IsLineBreak(rest[0]) && more != ""
    requires middle != "" && OneLine(middle) && !IsLower(middle[0])
    ensures actions == [service + ":" + (word + (middle + rest)), service + ":" + (word + rest), service + ":" + (word + (rest + more))]
    ensures '*' !in u && ':' in u && IsActionMatched(actions[0], u)
    ensures forall r :: r in Consolidated(actions) ==> !IsActionMatched(r, u)
  {
    var x, y, z := word + (middle + rest), word + rest, word + (rest + more);
    actions := [service + ":" + x, service + ":" + y, service + ":" + z];
    StemIsPlain(service, word);
    TriplePrefixes(word, middle, rest, more);
    AllBreak(service, word, rest, rest + more, x, y, z);
    u := CutUse(service + ":" + word, middle, rest);
    AllMiss(actions, service + ":" + word, middle, rest);
    RegroupFour(service + ":", word, middle + rest, "");
    RegroupFive(service + ":", word, middle, rest);
  }

  lemma RegroupFive(a: string, b: string, c: string, d: string)
    ensures a + b + c + d == a + (b + (c + d))
  {
  }

  lemma StemIsPlain(service: string, word: string)
    requires '*' !in service && IsWord(word)
    ensures '*' !in service + ":" + word && ':' in service + ":" + word
  {
    assert (service + ":" + word)[|service|] == ':';
    assert word == [word[0]] + word[1..];
    assert '*' !in word[1..];
  }

  lemma ThreeDiffer(word: string, middle: string, rest: string, more: string)
    requires middle != "" && !IsLineBreak(middle[0]) && rest != "" && IsLineBreak(rest[0]) && more != ""
    ensures word + (middle + rest) != word + rest && word + rest != word + (rest + more)
    ensures word + (rest + more) != word + (middle + rest)
    ensures word + rest <= word + (rest + more)
  {
    assert (word + (middle + rest))[|word|] == middle[0] && (word + (rest + more))[|word|] == rest[0];
    assert word + (rest + more) == word + rest + more;
  }

  lemma BrokenPrefix(word: string, rest: string)
    requires IsWord(word) && rest != "" && IsLineBreak(rest[0])
    ensures PrefixOf(word + rest) == word + rest
  {
    WordPrefix(word, rest);
    assert rest[0..] == rest;
  }

  lemma CutPrefix(word: string, middle: string, rest: string)
    requires IsWord(word) && rest != "" && IsLineBreak(rest[0]) && middle != "" && OneLine(middle) && !IsLower(middle[0])
    ensures PrefixOf(word + (middle + rest)) == word + rest
  {
    LineStops(middle, rest);
    WordPrefix(word, middle + rest);
  }

  lemma TriplePrefixes(word: string, middle: string, rest: string, more: string)
    requires IsWord(word) && rest != "" && IsLineBreak(rest[0]) && more != ""
    requires middle != "" && OneLine(middle) && !IsLower(middle[0])
    ensures !IsLineBreak(middle[0])
    ensures var x, y, z := word + (middle + rest), word + rest, word + (rest + more);
            && x != y && y != z && z != x && y <= z
            && PrefixOf(x) == y && PrefixOf(y) == y && PrefixOf(z) == z
  {
    assert middle[0] in middle;
    ThreeDiffer(word, middle, rest, more);
    CutPrefix(word, middle, rest);
    BrokenPrefix(word, rest);
    BrokenPrefix(word, rest + more);
  }

  lemma AllBreak(service: string, word: string, rest: string, more: string, x: string, y: string, z: string)
    requires ':' !in service && rest != "" && IsLineBreak(rest[0]) && more != "" && IsLineBreak(more[0])
    requires x != y && y != z && z != x && y <= z && y == word + rest && z == word + more
    requires PrefixOf(x) == y && PrefixOf(y) == y && PrefixOf(z) == z
    ensures var actions := [service + ":" + x, service + ":" + y, service + ":" + z];
            forall a :: a in actions ==> BreaksAfter(service + ":" + word, Target(a, actions))
  {
    var actions, ops := [service + ":" + x, service + ":" + y, service + ":" + z], [x, y, z];
    OpsOfThree(service, x, y, z);
    TwoBegin(x, y, z, y);
    BreakingTarget(service, word, x, rest, ops, actions);
    BreakingTarget(service, word, y, rest, ops, actions);
    BreakingTarget(service, word, z, more, ops, actions);
  }

  // ----- the colon-less patterns the guarantee does not reach

  predicate HasWildcard(p: string) { '*' in p || '?' in p }

  /** A star-free used action that the consolidation of one pattern must keep. */
  predicate KeepsAll(pattern: string, u: string) {
    ('*' !in u && ':' in u && IsActionMatched(pattern, u)) ==>
      (exists r :: r in Consolidated([pattern]) && IsActionMatched(r, u))
  }

  /** A text the pattern matches: `star` stands for each star, `one` for each question mark. */
  function Fill(p: string, star: string, one: char): string {
    if p == "" then ""
    else (if p[0] == '*' then star else if p[0] == '?' then [one] else [LowerChar(p[0])]) + Fill(p[1..], star, one)
  }

  lemma {:induction false} FillMatches(p: string, star: string, one: char)
    requires star == Lower(star) && one == LowerChar(one)
    ensures Matches(Lower(p), Lower(Fill(p, star, one)))
    decreases |p|
  {
    if p != "" {
      var first := if p[0] == '*' then star else if p[0] == '?' then [one] else [LowerChar(p[0])];
      var rest := Fill(p[1..], star, one);
      FillMatches(p[1..], star, one);
      LowerConcat(first, rest);
      assert Lower(p) == [LowerChar(p[0])] + Lower(p[1..]);
      if p[0] == '*' {
        StarMatchesAll(Lower(first));
      } else {
        assert [LowerChar(p[0])][1..] == "" && Lower(first)[1..] == "";
        assert Matches([LowerChar(p[0])], Lower(first));
      }
      ConcatMatches([LowerChar(p[0])], Lower(p[1..]), Lower(first), Lower(rest));
    }
  }

  lemma {:induction false} FillContents(p: string, star: string, one: char)
    requires ':' !in p && '*' !in star && one != '*'
    ensures '*' !in Fill(p, star, one)
    ensures '*' in p && ':' in star ==> ':' in Fill(p, star, one)
    ensures '?' in p && one == ':' ==> ':' in Fill(p, star, one)
    ensures star != "" && star[|star| - 1] != ':' && one != ':' && p != "" ==>
              var f := Fill(p, star, one); f != "" && f[|f| - 1] != ':'
    ensures '*' !in p ==> |Fill(p, star, one)| == |p|
    decreases |p|
  {
    if p != "" {
      assert p == [p[0]] + p[1..];
      FillContents(p[1..], star, one);
      var first := if p[0] == '*' then star else if p[0] == '?' then [one] else [LowerChar(p[0])];
      assert Fill(p, star, one) == first + Fill(p[1..], star, one);
      assert '*' !in first;
      if p[1..] == "" { assert Fill(p, star, one) == first; }
    }
  }

  lemma {:induction false} StarFreeLength(p: string, s: string)
    requires '*' !in p && Matches(p, s)
    ensures |p| == |s|
    decreases |p|
  {
    if p != "" { assert p[0] in p; StarFreeLength(p[1..], s[1..]); }
  }

  lemma NoColon(pattern: string)
    requires ':' !in pattern
    ensures ServiceOf(pattern) == pattern && OpOf(pattern) == ""
  {
    assert pattern[..|pattern|] == pattern;
  }

  lemma ColonlessTarget(pattern: string, r: string)
    requires ':' !in pattern
    ensures r in Consolidated([pattern]) <==> r == pattern + ":"
  {
    NoColon(pattern);
    var ops := OpsOf([pattern], pattern);
    assert OpsOf([], pattern) == [] && [pattern][..0] == [];
    assert ops == [] + [""];
    assert Target(pattern, [pattern]) == pattern + ":" by { assert pattern + ":" + "" + "" == pattern + ":"; }
    ConsolidatedIsTargets([pattern], r);
    if r in Consolidated([pattern]) {
      var a :| a in [pattern] && r == Target(a, [pattern]);
      assert a == pattern;
    }
    assert pattern in [pattern];
  }

  lemma EndsWithColon(p: string, s: string) returns (k: nat)
    requires Matches(p + ":", s)
    ensures k + 1 == |s| && s[k] == ':' && Matches(p, s[..k])
  {
    k := MatchesConcat(p, ":", s);
    assert ":"[1..] == "" && s[k..][1..] == "";
  }

  lemma NoColonAtEnd(p: string, u: string)
    requires u != "" && u[|u| - 1] != ':'
    ensures !Matches(p + ":", Lower(u))
  {
    if Matches(p + ":", Lower(u)) {
      var k := EndsWithColon(p, Lower(u));
      assert false;
    }
  }

  lemma ColonThenX()
    ensures Lower(":x") == ":x" && '*' !in ":x" && ':' in ":x" && |":x"| == 2 && ":x"[1] == 'x'
  {
    assert ":x"[1..] == "x" && "x"[1..] == "" && ":x"[0] == ':';
  }

  lemma StarLoses(pattern: string) returns (u: string)
    requires ':' !in pattern && '*' in pattern
    ensures '*' !in u && ':' in u && Matches(Lower(pattern), Lower(u)) && !Matches(Lower(pattern) + ":", Lower(u))
  {
    u := Fill(pattern, ":x", 'x');
    ColonThenX();
    FillMatches(pattern, ":x", 'x');
    FillContents(pattern, ":x", 'x');
    NoColonAtEnd(Lower(pattern), u);
  }

  lemma QuestionLoses(pattern: string) returns (u: string)
    requires ':' !in pattern && '*' !in pattern && '?' in pattern
    ensures '*' !in u && ':' in u && Matches(Lower(pattern), Lower(u)) && !Matches(Lower(pattern) + ":", Lower(u))
  {
    u := Fill(pattern, "x", ':');
    assert Lower("x") == "x" by { assert "x"[1..] == ""; }
    FillMatches(pattern, "x", ':');
    FillContents(pattern, "x", ':');
    if Matches(Lower(pattern) + ":", Lower(u)) {
      var k := EndsWithColon(Lower(pattern), Lower(u));
      LowerKeepsStars(pattern);
      StarFreeLength(Lower(pattern), Lower(u)[..k]);
      assert false;
    }
  }

  lemma ColonlessLoses(pattern: string) returns (u: string)
    requires ':' !in pattern && HasWildcard(pattern)
    ensures !KeepsAll(pattern, u)
  {
    if '*' in pattern { u := StarLoses(pattern); } else { u := QuestionLoses(pattern); }
    ActionMatchMeaning(pattern, u);
    ActionMatchMeaning(pattern + ":", u);
    LowerConcat(pattern, ":");
    assert Lower(":") == ":" by { assert ":"[1..] == ""; }
    assert (pattern + ":")[|pattern|] == ':';
    forall r | r in Consolidated([pattern]) ensures !IsActionMatched(r, u) {
      ColonlessTarget(pattern, r);
    }
  }

  lemma LowerKeepsPlain(pattern: string)
    requires !HasWildcard(pattern) && ':' !in pattern
    ensures !HasWildcard(Lower(pattern)) && ':' !in Lower(pattern)
  {
    LowerKeepsStars(pattern);
    forall i | 0 <= i < |pattern| ensures Lower(pattern)[i] != '?' && Lower(pattern)[i] != ':' {
      assert pattern[i] in pattern;
    }
  }

  lemma LiteralMatchesOnlyItself(pattern: string, u: string)
    requires !HasWildcard(pattern) && ':' !in pattern && '*' !in u && ':' in u
    ensures !IsActionMatched(pattern, u)
  {
    ActionMatchMeaning(pattern, u);
    var k :| 0 <= k < |u| && u[k] == ':';
    assert Lower(u)[k] == ':';
    LowerKeepsPlain(pattern);
    if Matches(Lower(pattern), Lower(u)) {
      MatchesLiterally(Lower(pattern), Lower(u));
      assert false;
    }
  }

  lemma {:induction false} MatchesLiterally(p: string, s: string)
    requires '*' !in p && '?' !in p && Matches(p, s)
    ensures p == s
    decreases |p|
  {
    if p != "" {
      assert p[0] in p;
      MatchesLiterally(p[1..], s[1..]);
      assert p == [p[0]] + p[1..] && s == [s[0]] + s[1..];
    }
  }

  lemma LoneOp(pattern: string)
    ensures |OpsOf([pattern], ServiceOf(pattern))| == 1
  {
    assert [pattern][..0] == [] && OpsOf([], ServiceOf(pattern)) == [];
  }

  /** Exactly when a lone allowed pattern survives consolidation: it has a colon, or
      it has no wildcard (and then covers no action at all). The bare `*` does neither. */
  lemma ConsolidationKeepsExactlyWhen(pattern: string)
    ensures (forall u :: KeepsAll(pattern, u)) <==> ':' in pattern || !HasWildcard(pattern)
  {
    if ':' in pattern {
      forall u ensures KeepsAll(pattern, u) {
        if '*' !in u && ':' in u && IsActionMatched(pattern, u) {
          ConsolidatedIsTargets([pattern], Target(pattern, [pattern]));
          assert pattern in [pattern];
          LoneOp(pattern);
          TargetCovers(pattern, [pattern], u);
        }
      }
    } else if HasWildcard(pattern) {
      var u := ColonlessLoses(pattern);
    } else {
      forall u ensures KeepsAll(pattern, u) {
        if '*' !in u && ':' in u { LiteralMatchesOnlyItself(pattern, u); }
      }
    }
  }
}
