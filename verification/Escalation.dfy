/** The backward search over trust edges: who can become a dangerous role, and through whom. */
module Escalation {
  import opened Basics
  import opened Policy

  datatype TrustEdge = TrustEdge(from: string, to: string)

  datatype Found = Found(source: string, path: seq<TrustEdge>)

  /** The two things the recursion shares. */
  datatype Search = Search(visited: set<string>, results: seq<Found>)

  function Incoming(edges: seq<TrustEdge>, arn: string): seq<TrustEdge> {
    if edges == [] then [] else
      var rest := Incoming(edges[..|edges| - 1], arn);
      if edges[|edges| - 1].to == arn then rest + [edges[|edges| - 1]] else rest
  }

  lemma {:induction false} IncomingListed(edges: seq<TrustEdge>, arn: string)
    ensures forall e :: e in Incoming(edges, arn) <==> e in edges && e.to == arn
    decreases |edges|
  {
    if edges != [] {
      IncomingListed(edges[..|edges| - 1], arn);
      assert edges == edges[..|edges| - 1] + [edges[|edges| - 1]];
    }
  }

  lemma {:induction false} IncomingConcat(a: seq<TrustEdge>, b: seq<TrustEdge>, arn: string)
    ensures Incoming(a + b, arn) == Incoming(a, arn) + Incoming(b, arn)
    decreases |b|
  {
    if b == [] {
      assert a + b == a;
    } else {
      assert (a + b)[..|a + b| - 1] == a + b[..|b| - 1];
      IncomingConcat(a, b[..|b| - 1], arn);
    }
  }

  function HopsLeft(depth: int, maxHops: int): nat {
    if depth <= maxHops then maxHops - depth + 1 else 0
  }

  /** The search from one principal on: cut at maxHops, and at anything already visited. */
  function Visit(edges: seq<TrustEdge>, current: string, path: seq<TrustEdge>, depth: int, maxHops: int, s: Search): Search
    decreases HopsLeft(depth, maxHops), 1, 0
  {
    if depth > maxHops || current in s.visited then s
    else Expand(edges, Incoming(edges, current), path, depth, maxHops, s.(visited := s.visited + {current}))
  }

  function Expand(edges: seq<TrustEdge>, todo: seq<TrustEdge>, path: seq<TrustEdge>, depth: int, maxHops: int, s: Search): Search
    requires depth <= maxHops
    decreases HopsLeft(depth, maxHops), 0, |todo|
  {
    if todo == [] then s else
      var reported := s.(results := s.results + [Found(todo[0].from, path + [todo[0]])]);
      Expand(edges, todo[1..], path, depth, maxHops,
             Visit(edges, todo[0].from, path + [todo[0]], depth + 1, maxHops, reported))
  }

  class Finder {
    const edges: seq<TrustEdge>
    const maxHops: int
    var visited: set<string>
    var results: seq<Found>

    constructor (edges: seq<TrustEdge>, maxHops: int)
      ensures this.edges == edges && this.maxHops == maxHops && State() == Search({}, [])
    {
      this.edges, this.maxHops, visited, results := edges, maxHops, {}, [];
    }

    function State(): Search
      reads this
    {
      Search(visited, results)
    }

    method Dfs(current: string, path: seq<TrustEdge>, depth: int)
      modifies this
      ensures State() == Visit(edges, current, path, depth, maxHops, old(State()))
      decreases HopsLeft(depth, maxHops)
    {
      if depth > maxHops { return; }
      if current in visited { return; }
      visited := visited + {current};
      var edgesLeadingTo := Incoming(edges, current);
      ghost var goal := Expand(edges, edgesLeadingTo, path, depth, maxHops, State());
      for i := 0 to |edgesLeadingTo|
        invariant Expand(edges, edgesLeadingTo[i..], path, depth, maxHops, State()) == goal
      {
        var edge := edgesLeadingTo[i];
        assert edgesLeadingTo[i..][1..] == edgesLeadingTo[i + 1..];
        results := results + [Found(edge.from, path + [edge])];
        Dfs(edge.from, path + [edge], depth + 1);
      }
    }
  }

  function Reachable(edges: seq<TrustEdge>, target: string, maxHops: int): seq<Found> {
    Visit(edges, target, [], 1, maxHops, Search({}, [])).results
  }

  method FindPrincipalsThatCanReachRole(edges: seq<TrustEdge>, target: string, maxHops: int) returns (results: seq<Found>)
    ensures results == Reachable(edges, target, maxHops)
  {
    var finder := new Finder(edges, maxHops);
    finder.Dfs(target, [], 1);
    results := finder.results;
  }

  // ----- chains of trust

  /** path[0] trusts into the target, each later edge into the source of the one before. */
  ghost predicate IsChain(edges: seq<TrustEdge>, path: seq<TrustEdge>, target: string) {
    && (forall e :: e in path ==> e in edges)
    && (path != [] ==> path[0].to == target)
    && (forall i :: 0 <= i < |path| - 1 ==> path[i + 1].to == path[i].from)
  }

  function EndOf(path: seq<TrustEdge>, target: string): string {
    if path == [] then target else path[|path| - 1].from
  }

  ghost predicate Good(edges: seq<TrustEdge>, target: string, maxHops: int, f: Found) {
    IsChain(edges, f.path, target) && 1 <= |f.path| <= maxHops && f.source == EndOf(f.path, target)
  }

  lemma {:induction false} VisitSound(edges: seq<TrustEdge>, current: string, path: seq<TrustEdge>, depth: int, maxHops: int,
                                      s: Search, target: string)
    requires IsChain(edges, path, target) && current == EndOf(path, target) && |path| == depth - 1
    requires forall f :: f in s.results ==> Good(edges, target, maxHops, f)
    ensures forall f :: f in Visit(edges, current, path, depth, maxHops, s).results ==> Good(edges, target, maxHops, f)
    decreases HopsLeft(depth, maxHops), 1, 0
  {
    if !(depth > maxHops || current in s.visited) {
      IncomingListed(edges, current);
      ExpandSound(edges, Incoming(edges, current), path, depth, maxHops, s.(visited := s.visited + {current}), target);
    }
  }

  lemma {:induction false} ExpandSound(edges: seq<TrustEdge>, todo: seq<TrustEdge>, path: seq<TrustEdge>, depth: int, maxHops: int,
                                       s: Search, target: string)
    requires depth <= maxHops && IsChain(edges, path, target) && |path| == depth - 1
    requires forall e :: e in todo ==> e in edges && e.to == EndOf(path, target)
    requires forall f :: f in s.results ==> Good(edges, target, maxHops, f)
    ensures forall f :: f in Expand(edges, todo, path, depth, maxHops, s).results ==> Good(edges, target, maxHops, f)
    decreases HopsLeft(depth, maxHops), 0, |todo|
  {
    if todo != [] {
      var longer := path + [todo[0]];
      var reported := s.(results := s.results + [Found(todo[0].from, longer)]);
      assert todo[0] in todo;
      assert Good(edges, target, maxHops, Found(todo[0].from, longer));
      VisitSound(edges, todo[0].from, longer, depth + 1, maxHops, reported, target);
      ExpandSound(edges, todo[1..], path, depth, maxHops, Visit(edges, todo[0].from, longer, depth + 1, maxHops, reported), target);
    }
  }

  /** Soundness: every result is a chain of at most maxHops real trust edges from its source to the target. */
  lemma SearchIsSound(edges: seq<TrustEdge>, target: string, maxHops: int, f: Found)
    requires f in Reachable(edges, target, maxHops)
    ensures Good(edges, target, maxHops, f)
  {
    VisitSound(edges, target, [], 1, maxHops, Search({}, []), target);
  }

  // ----- completeness

  function Arns(edges: seq<TrustEdge>): set<string> {
    (set e | e in edges :: e.from) + (set e | e in edges :: e.to)
  }

  ghost predicate Reported(results: seq<Found>, arn: string) {
    exists f :: f in results && f.source == arn
  }

  /** Everyone trusted by this principal has been reported and visited in turn. */
  ghost predicate Expanded(edges: seq<TrustEdge>, s: Search, arn: string) {
    forall e :: e in edges && e.to == arn ==> e.from in s.visited && Reported(s.results, e.from)
  }

  ghost predicate Grew(edges: seq<TrustEdge>, s: Search, s': Search) {
    && s.visited <= s'.visited && s.results <= s'.results
    && (forall arn :: arn in s'.visited && arn !in s.visited ==> Expanded(edges, s', arn))
  }

  lemma GrewTwice(edges: seq<TrustEdge>, a: Search, b: Search, c: Search)
    requires Grew(edges, a, b) && Grew(edges, b, c)
    ensures Grew(edges, a, c)
  {
    forall arn | arn in c.visited && arn !in a.visited ensures Expanded(edges, c, arn) {
      if arn in b.visited { ExpandedStays(edges, b, c, arn); }
    }
  }

  lemma ExpandedStays(edges: seq<TrustEdge>, b: Search, c: Search, arn: string)
    requires b.visited <= c.visited && b.results <= c.results && Expanded(edges, b, arn)
    ensures Expanded(edges, c, arn)
  {
    forall e | e in edges && e.to == arn ensures Reported(c.results, e.from) {
      ReportedStays(b.results, c.results, e.from);
    }
  }

  lemma ReportedStays(a: seq<Found>, b: seq<Found>, arn: string)
    requires a <= b && Reported(a, arn)
    ensures Reported(b, arn)
  {
    var f :| f in a && f.source == arn;
    var i :| 0 <= i < |a| && a[i] == f;
    assert b[i] == f;
  }

  ghost predicate Longer(s: Search, s': Search) {
    s.visited <= s'.visited && s.results <= s'.results
  }

  /** Everyone but the target has been reported. */
  ghost predicate OthersReported(edges: seq<TrustEdge>, s: Search, target: string) {
    forall arn :: arn in Arns(edges) && arn != target ==> Reported(s.results, arn)
  }

  lemma OthersStayReported(edges: seq<TrustEdge>, s: Search, s': Search, target: string)
    requires Longer(s, s') && OthersReported(edges, s, target)
    ensures OthersReported(edges, s', target)
  {
    forall arn | arn in Arns(edges) && arn != target ensures Reported(s'.results, arn) {
      ReportedStays(s.results, s'.results, arn);
    }
  }

  /** Either the bound never bit, or it bit when everyone but the target was already reported. */
  ghost predicate Covered(edges: seq<TrustEdge>, s: Search, s': Search, target: string, maxHops: int) {
    Grew(edges, s, s') || (maxHops < |Arns(edges)| && OthersReported(edges, s', target))
  }

  /** `stack` holds the principals being expanded. It takes all but one of the ARNs for the bound to bite. */
  lemma {:induction false} VisitComplete(edges: seq<TrustEdge>, current: string, path: seq<TrustEdge>, depth: int, maxHops: int,
                                         s: Search, stack: set<string>, target: string)
    requires maxHops + 1 >= |Arns(edges)| && current in Arns(edges)
    requires stack <= s.visited && stack <= Arns(edges) && |stack| == depth - 1
    requires forall arn :: arn in stack + {current} && arn != target ==> Reported(s.results, arn)
    ensures var s' := Visit(edges, current, path, depth, maxHops, s);
            && Longer(s, s') && Covered(edges, s, s', target, maxHops)
            && (current in s'.visited || OthersReported(edges, s', target))
    ensures maxHops >= |Arns(edges)| ==> current in Visit(edges, current, path, depth, maxHops, s).visited
    decreases HopsLeft(depth, maxHops), 1, 0
  {
    if current !in s.visited {
      StackFits(stack + {current}, Arns(edges));
      assert |stack + {current}| == depth;
      if depth > maxHops {
        FullStack(stack + {current}, Arns(edges));
      } else {
        IncomingListed(edges, current);
        var begun := s.(visited := s.visited + {current});
        ExpandComplete(edges, Incoming(edges, current), path, depth, maxHops, begun, stack + {current}, target);
        var s' := Expand(edges, Incoming(edges, current), path, depth, maxHops, begun);
        if Grew(edges, begun, s') && AllIn(edges, Incoming(edges, current), s') {
          assert Expanded(edges, s', current);
          forall arn | arn in s'.visited && arn !in s.visited ensures Expanded(edges, s', arn) {
            if arn != current { assert arn !in begun.visited; }
          }
        }
      }
    }
  }

  lemma StackFits(stack: set<string>, all: set<string>)
    requires stack <= all
    ensures |stack| <= |all|
  {
    assert all == stack + (all - stack);
  }

  lemma FullStack(stack: set<string>, all: set<string>)
    requires stack <= all && |stack| >= |all|
    ensures stack == all
  {
    assert all == stack + (all - stack);
  }

  /** The trusting ends of these edges have been reported and visited in turn. */
  ghost predicate AllIn(edges: seq<TrustEdge>, todo: seq<TrustEdge>, s: Search) {
    forall e :: e in todo ==> e.from in s.visited && Reported(s.results, e.from)
  }

  lemma {:induction false} ExpandComplete(edges: seq<TrustEdge>, todo: seq<TrustEdge>, path: seq<TrustEdge>, depth: int, maxHops: int,
                                          s: Search, stack: set<string>, target: string)
    requires maxHops + 1 >= |Arns(edges)| && depth <= maxHops
    requires forall e :: e in todo ==> e in edges
    requires stack <= s.visited && stack <= Arns(edges) && |stack| == depth
    requires forall arn :: arn in stack && arn != target ==> Reported(s.results, arn)
    ensures var s' := Expand(edges, todo, path, depth, maxHops, s);
            && Longer(s, s')
            && ((Grew(edges, s, s') && AllIn(edges, todo, s'))
                || (maxHops < |Arns(edges)| && OthersReported(edges, s', target)))
    decreases HopsLeft(depth, maxHops), 0, |todo|
  {
    if todo != [] {
      var e := todo[0];
      var longer := path + [e];
      var reported := s.(results := s.results + [Found(e.from, longer)]);
      assert Found(e.from, longer) in reported.results;
      assert e in edges && e.from in Arns(edges);
      forall arn | arn in stack + {e.from} && arn != target ensures Reported(reported.results, arn) {
        if arn in stack { ReportedStays(s.results, reported.results, arn); }
      }
      VisitComplete(edges, e.from, longer, depth + 1, maxHops, reported, stack, target);
      var s1 := Visit(edges, e.from, longer, depth + 1, maxHops, reported);
      forall arn | arn in stack && arn != target ensures Reported(s1.results, arn) {
        ReportedStays(s.results, s1.results, arn);
      }
      ExpandComplete(edges, todo[1..], path, depth, maxHops, s1, stack, target);
      ExpandOneMore(edges, todo, longer, reported, s1, Expand(edges, todo[1..], path, depth, maxHops, s1), s, target, maxHops);
    }
  }

  lemma ExpandOneMore(edges: seq<TrustEdge>, todo: seq<TrustEdge>, longer: seq<TrustEdge>, reported: Search, s1: Search, s': Search,
                      s: Search, target: string, maxHops: int)
    requires todo != [] && reported == s.(results := s.results + [Found(todo[0].from, longer)])
    requires Longer(reported, s1) && Longer(s1, s') && Covered(edges, reported, s1, target, maxHops)
    requires todo[0].from in s1.visited || OthersReported(edges, s1, target)
    requires maxHops >= |Arns(edges)| ==> todo[0].from in s1.visited
    requires (Grew(edges, s1, s') && AllIn(edges, todo[1..], s')) || (maxHops < |Arns(edges)| && OthersReported(edges, s', target))
    ensures (Grew(edges, s, s') && AllIn(edges, todo, s')) || (maxHops < |Arns(edges)| && OthersReported(edges, s', target))
  {
    if maxHops < |Arns(edges)| && (OthersReported(edges, s1, target) || OthersReported(edges, s', target)) {
      if OthersReported(edges, s1, target) { OthersStayReported(edges, s1, s', target); }
    } else {
      assert Grew(edges, s, reported);
      GrewTwice(edges, s, reported, s1);
      GrewTwice(edges, s, s1, s');
      assert Found(todo[0].from, longer) in reported.results;
      ReportedStays(reported.results, s'.results, todo[0].from);
      assert forall e :: e in todo <==> e == todo[0] || e in todo[1..];
    }
  }

  lemma {:induction false} ChainReported(edges: seq<TrustEdge>, s: Search, target: string, path: seq<TrustEdge>)
    requires target in s.visited && (forall arn :: arn in s.visited ==> Expanded(edges, s, arn))
    requires path != [] && IsChain(edges, path, target)
    ensures EndOf(path, target) in s.visited && Reported(s.results, EndOf(path, target))
    decreases |path|
  {
    var front, last := path[..|path| - 1], path[|path| - 1];
    assert last in path;
    if front != [] {
      assert forall e :: e in front ==> e in path;
      ChainReported(edges, s, target, front);
      assert last.to == EndOf(front, target);
    }
    assert Expanded(edges, s, last.to);
  }

  ghost predicate CanReach(edges: seq<TrustEdge>, source: string, target: string) {
    exists path :: path != [] && IsChain(edges, path, target) && EndOf(path, target) == source
  }

  /** When the bound is at least the number of distinct ARNs, the search reports exactly the
      principals with a chain of trust to the role, however long. */
  lemma SearchIsComplete(edges: seq<TrustEdge>, target: string, maxHops: int, source: string)
    requires maxHops >= |Arns(edges)|
    ensures Reported(Reachable(edges, target, maxHops), source) <==> CanReach(edges, source, target)
  {
    if CanReach(edges, source, target) { AlmostComplete(edges, target, maxHops, source); }
    if Reported(Reachable(edges, target, maxHops), source) { ReportedReaches(edges, target, maxHops, source); }
  }

  /** With one less it can only miss the target itself. */
  lemma AlmostComplete(edges: seq<TrustEdge>, target: string, maxHops: int, source: string)
    requires maxHops >= |Arns(edges)| || (maxHops + 1 >= |Arns(edges)| && source != target)
    requires CanReach(edges, source, target)
    ensures Reported(Reachable(edges, target, maxHops), source)
  {
    var path :| path != [] && IsChain(edges, path, target) && EndOf(path, target) == source;
    assert path[0] in edges && target in Arns(edges);
    assert path[|path| - 1] in edges && source in Arns(edges);
    VisitComplete(edges, target, [], 1, maxHops, Search({}, []), {}, target);
    var s := Visit(edges, target, [], 1, maxHops, Search({}, []));
    if !(maxHops < |Arns(edges)| && OthersReported(edges, s, target)) {
      ChainReported(edges, s, target, path);
    }
  }

  ghost predicate ReachesWithin(edges: seq<TrustEdge>, source: string, target: string, hops: int) {
    exists path :: 1 <= |path| <= hops && IsChain(edges, path, target) && EndOf(path, target) == source
  }

  lemma ReportedReaches(edges: seq<TrustEdge>, target: string, maxHops: int, source: string)
    requires Reported(Reachable(edges, target, maxHops), source)
    ensures ReachesWithin(edges, source, target, maxHops) && CanReach(edges, source, target)
  {
    var f :| f in Reachable(edges, target, maxHops) && f.source == source;
    SearchIsSound(edges, target, maxHops, f);
  }

  // ----- the detector

  datatype Role = Role(arn: string, allowedActions: seq<string>, isAdmin: bool)

  datatype Kind = Admin | PrivilegeEscalation

  datatype EscalationPath = EscalationPath(source: string, target: string, path: seq<TrustEdge>, kind: Kind)

  const PRIVILEGE_ESCALATION_ACTIONS: seq<string> := [
    "iam:PassRole", "iam:CreateAccessKey", "iam:CreateLoginProfile", "iam:UpdateLoginProfile", "iam:AttachUserPolicy",
    "iam:AttachRolePolicy", "iam:PutUserPolicy", "iam:PutRolePolicy", "iam:AddUserToGroup", "iam:CreateRole",
    "iam:CreatePolicy", "sts:AssumeRole", "lambda:CreateFunction", "lambda:UpdateFunctionCode", "ec2:RunInstances",
    "cloudformation:CreateStack", "cloudformation:UpdateStack"]

  predicate HasEscalationAction(role: Role) {
    exists a :: a in role.allowedActions && EscalatesBy(a)
  }

  predicate EscalatesBy(action: string) {
    exists pa :: pa in PRIVILEGE_ESCALATION_ACTIONS && IsActionMatched(pa, action)
  }

  function DigitRun(s: string): string {
    if s == "" || !IsDigit(s[0]) then "" else [s[0]] + DigitRun(s[1..])
  }

  const IAM_PREFIX := "arn:aws:iam::"

  /** An ARN without an account in the expected place counts as any account. */
  predicate IsSameAccount(arn: string, accountId: string) {
    IAM_PREFIX <= arn && DigitRun(arn[|IAM_PREFIX|..]) != "" ==> DigitRun(arn[|IAM_PREFIX|..]) == accountId
  }

  predicate Wanted(source: string, sourceAccount: Option<string>) {
    sourceAccount.None? || sourceAccount.value == "" || IsSameAccount(source, sourceAccount.value)
  }

  function PathsTo(found: seq<Found>, target: string, kind: Kind, sourceAccount: Option<string>): seq<EscalationPath> {
    if found == [] then [] else
      var rest := PathsTo(found[..|found| - 1], target, kind, sourceAccount);
      var f := found[|found| - 1];
      if Wanted(f.source, sourceAccount) then rest + [EscalationPath(f.source, target, f.path, kind)] else rest
  }

  predicate Relevant(role: Role, kind: Kind) {
    if kind.Admin? then role.isAdmin else !role.isAdmin && HasEscalationAction(role)
  }

  function PathsOfKind(edges: seq<TrustEdge>, roles: seq<Role>, kind: Kind, sourceAccount: Option<string>, maxHops: int): seq<EscalationPath> {
    if roles == [] then [] else
      var rest := PathsOfKind(edges, roles[..|roles| - 1], kind, sourceAccount, maxHops);
      var role := roles[|roles| - 1];
      if Relevant(role, kind) then rest + PathsTo(Reachable(edges, role.arn, maxHops), role.arn, kind, sourceAccount) else rest
  }

  type PathKey = (string, string, Kind)

  function KeyOf(p: EscalationPath): PathKey { (p.source, p.target, p.kind) }

  predicate HasPath(paths: seq<EscalationPath>, key: PathKey) {
    exists i :: 0 <= i < |paths| && KeyOf(paths[i]) == key
  }

  /** The first path for each key. */
  function Deduplicated(paths: seq<EscalationPath>): seq<EscalationPath> {
    if paths == [] then [] else
      var rest := Deduplicated(paths[..|paths| - 1]);
      if HasPath(rest, KeyOf(paths[|paths| - 1])) then rest else rest + [paths[|paths| - 1]]
  }

  /** Exactly one path stays for every key, and it is one of the paths for that key. */
  lemma {:induction false} DeduplicatedKeys(paths: seq<EscalationPath>)
    ensures var d := Deduplicated(paths);
            && (forall p :: p in d ==> p in paths)
            && (forall p :: p in paths ==> HasPath(d, KeyOf(p)))
            && (forall i, j :: 0 <= i < j < |d| ==> KeyOf(d[i]) != KeyOf(d[j]))
    decreases |paths|
  {
    if paths != [] {
      var front, last := paths[..|paths| - 1], paths[|paths| - 1];
      DeduplicatedKeys(front);
      assert forall p :: p in paths <==> p in front || p == last;
      var r, d := Deduplicated(front), Deduplicated(paths);
      forall p | p in paths ensures HasPath(d, KeyOf(p)) {
        if p in front { HasPathInMore(r, d, KeyOf(p)); } else { LastHasPath(paths); }
      }
    }
  }

  lemma HasPathInMore(some: seq<EscalationPath>, more: seq<EscalationPath>, key: PathKey)
    requires some <= more && HasPath(some, key)
    ensures HasPath(more, key)
  {
    var i :| 0 <= i < |some| && KeyOf(some[i]) == key;
    assert more[i] == some[i];
  }

  lemma LastHasPath(paths: seq<EscalationPath>)
    requires paths != []
    ensures HasPath(Deduplicated(paths), KeyOf(paths[|paths| - 1]))
  {
    var rest := Deduplicated(paths[..|paths| - 1]);
    if !HasPath(rest, KeyOf(paths[|paths| - 1])) {
      assert Deduplicated(paths)[|rest|] == paths[|paths| - 1];
    }
  }

  method DeduplicatePaths(paths: seq<EscalationPath>) returns (kept: seq<EscalationPath>)
    ensures kept == Deduplicated(paths)
  {
    var seen: set<PathKey> := {};
    kept := [];
    for i := 0 to |paths|
      invariant kept == Deduplicated(paths[..i])
      invariant forall k :: k in seen <==> HasPath(kept, k)
    {
      assert paths[..i + 1][..i] == paths[..i];
      var key := KeyOf(paths[i]);
      if key !in seen {
        seen := seen + {key};
        ghost var before := kept;
        kept := kept + [paths[i]];
        forall k ensures k in seen <==> HasPath(kept, k) {
          if HasPath(before, k) {
            var j :| 0 <= j < |before| && KeyOf(before[j]) == k;
            assert kept[j] == before[j];
          }
          if k == key { assert kept[|before|] == paths[i]; }
        }
      }
    }
    assert paths[..|paths|] == paths;
  }

  /** The inner loop: the found principals that belong to the wanted account. */
  method KeepWanted(found: seq<Found>, target: string, kind: Kind, sourceAccount: Option<string>) returns (paths: seq<EscalationPath>)
    ensures paths == PathsTo(found, target, kind, sourceAccount)
  {
    paths := [];
    for j := 0 to |found|
      invariant paths == PathsTo(found[..j], target, kind, sourceAccount)
    {
      assert found[..j + 1][..j] == found[..j];
      if Wanted(found[j].source, sourceAccount) {
        paths := paths + [EscalationPath(found[j].source, target, found[j].path, kind)];
      }
    }
    assert found[..|found|] == found;
  }

  method CollectPaths(edges: seq<TrustEdge>, roles: seq<Role>, kind: Kind, sourceAccount: Option<string>, maxHops: int)
    returns (paths: seq<EscalationPath>)
    ensures paths == PathsOfKind(edges, roles, kind, sourceAccount, maxHops)
  {
    paths := [];
    for i := 0 to |roles|
      invariant paths == PathsOfKind(edges, roles[..i], kind, sourceAccount, maxHops)
    {
      assert roles[..i + 1][..i] == roles[..i];
      if Relevant(roles[i], kind) {
        var found := FindPrincipalsThatCanReachRole(edges, roles[i].arn, maxHops);
        var more := KeepWanted(found, roles[i].arn, kind, sourceAccount);
        paths := paths + more;
      }
    }
    assert roles[..|roles|] == roles;
  }

  function Detected(edges: seq<TrustEdge>, roles: seq<Role>, sourceAccount: Option<string>, maxHops: int): seq<EscalationPath> {
    Deduplicated(PathsOfKind(edges, roles, Admin, sourceAccount, maxHops)
                 + PathsOfKind(edges, roles, PrivilegeEscalation, sourceAccount, maxHops))
  }

  method DetectEscalationPaths(edges: seq<TrustEdge>, roles: seq<Role>, sourceAccount: Option<string>, maxHops: int)
    returns (paths: seq<EscalationPath>)
    ensures paths == Detected(edges, roles, sourceAccount, maxHops)
  {
    var admin := CollectPaths(edges, roles, Admin, sourceAccount, maxHops);
    var other := CollectPaths(edges, roles, PrivilegeEscalation, sourceAccount, maxHops);
    paths := DeduplicatePaths(admin + other);
  }

  lemma {:induction false} PathsToListed(found: seq<Found>, target: string, kind: Kind, sourceAccount: Option<string>, p: EscalationPath)
    ensures p in PathsTo(found, target, kind, sourceAccount)
       <==> p.target == target && p.kind == kind && Wanted(p.source, sourceAccount) && Found(p.source, p.path) in found
    decreases |found|
  {
    if found != [] {
      PathsToListed(found[..|found| - 1], target, kind, sourceAccount, p);
      assert found == found[..|found| - 1] + [found[|found| - 1]];
    }
  }

  ghost predicate SomeRole(roles: seq<Role>, arn: string, kind: Kind) {
    exists role :: role in roles && role.arn == arn && Relevant(role, kind)
  }

  lemma SomeRoleOfMore(roles: seq<Role>, arn: string, kind: Kind)
    requires roles != []
    ensures var last := roles[|roles| - 1];
            SomeRole(roles, arn, kind)
            <==> SomeRole(roles[..|roles| - 1], arn, kind) || (last.arn == arn && Relevant(last, kind))
  {
    var front, last := roles[..|roles| - 1], roles[|roles| - 1];
    assert forall role :: role in roles <==> role in front || role == last;
  }

  lemma {:induction false} PathsOfKindListed(edges: seq<TrustEdge>, roles: seq<Role>, kind: Kind, sourceAccount: Option<string>,
                                             maxHops: int, p: EscalationPath)
    ensures p in PathsOfKind(edges, roles, kind, sourceAccount, maxHops)
       <==> p.kind == kind && Wanted(p.source, sourceAccount) && Found(p.source, p.path) in Reachable(edges, p.target, maxHops)
            && SomeRole(roles, p.target, kind)
    decreases |roles|
  {
    if roles != [] {
      var front, last := roles[..|roles| - 1], roles[|roles| - 1];
      PathsOfKindListed(edges, front, kind, sourceAccount, maxHops, p);
      SomeRoleOfMore(roles, p.target, kind);
      PathsToListed(Reachable(edges, last.arn, maxHops), last.arn, kind, sourceAccount, p);
    }
  }

  /** Every detected path is a real chain of at most maxHops trusts into a role that matters. */
  lemma DetectionIsSound(edges: seq<TrustEdge>, roles: seq<Role>, sourceAccount: Option<string>, maxHops: int, p: EscalationPath)
    requires p in Detected(edges, roles, sourceAccount, maxHops)
    ensures Good(edges, p.target, maxHops, Found(p.source, p.path)) && Wanted(p.source, sourceAccount)
    ensures exists role :: role in roles && role.arn == p.target && Relevant(role, p.kind)
  {
    var all := PathsOfKind(edges, roles, Admin, sourceAccount, maxHops) + PathsOfKind(edges, roles, PrivilegeEscalation, sourceAccount, maxHops);
    DeduplicatedKeys(all);
    PathsOfKindListed(edges, roles, Admin, sourceAccount, maxHops, p);
    PathsOfKindListed(edges, roles, PrivilegeEscalation, sourceAccount, maxHops, p);
    SearchIsSound(edges, p.target, maxHops, Found(p.source, p.path));
  }

  /** Exactly one path in the list has this key. */
  ghost predicate OnceIn(paths: seq<EscalationPath>, key: PathKey) {
    exists i :: 0 <= i < |paths| && KeyOf(paths[i]) == key && OnlyAt(paths, key, i)
  }

  ghost predicate OnlyAt(paths: seq<EscalationPath>, key: PathKey, i: nat) {
    forall j :: 0 <= j < |paths| && KeyOf(paths[j]) == key ==> j == i
  }

  lemma DeduplicatedOnce(paths: seq<EscalationPath>, p: EscalationPath)
    requires p in paths
    ensures OnceIn(Deduplicated(paths), KeyOf(p))
  {
    DeduplicatedKeys(paths);
    var d := Deduplicated(paths);
    assert HasPath(d, KeyOf(p));
    var i :| 0 <= i < |d| && KeyOf(d[i]) == KeyOf(p);
    assert OnlyAt(d, KeyOf(p), i);
  }

  lemma PathPresent(edges: seq<TrustEdge>, roles: seq<Role>, sourceAccount: Option<string>, maxHops: int,
                    source: string, role: Role, kind: Kind) returns (p: EscalationPath)
    requires role in roles && Relevant(role, kind) && Wanted(source, sourceAccount)
    requires Reported(Reachable(edges, role.arn, maxHops), source)
    ensures p in PathsOfKind(edges, roles, kind, sourceAccount, maxHops) && KeyOf(p) == (source, role.arn, kind)
  {
    var f :| f in Reachable(edges, role.arn, maxHops) && f.source == source;
    p := EscalationPath(source, role.arn, f.path, kind);
    PathsOfKindListed(edges, roles, kind, sourceAccount, maxHops, p);
  }

  /** Whatever the bound: exactly one path is detected for a source, a role and a kind when the role
      matters in that way, the source is wanted, and the search for the role reports it; else none. */
  lemma DetectedOnceExactlyWhen(edges: seq<TrustEdge>, roles: seq<Role>, sourceAccount: Option<string>, maxHops: int,
                                source: string, arn: string, kind: Kind)
    ensures var wanted := SomeRole(roles, arn, kind) && Wanted(source, sourceAccount) && Reported(Reachable(edges, arn, maxHops), source);
            if wanted then OnceIn(Detected(edges, roles, sourceAccount, maxHops), (source, arn, kind))
            else !HasPath(Detected(edges, roles, sourceAccount, maxHops), (source, arn, kind))
  {
    var all := PathsOfKind(edges, roles, Admin, sourceAccount, maxHops) + PathsOfKind(edges, roles, PrivilegeEscalation, sourceAccount, maxHops);
    if SomeRole(roles, arn, kind) && Wanted(source, sourceAccount) && Reported(Reachable(edges, arn, maxHops), source) {
      var role :| role in roles && role.arn == arn && Relevant(role, kind);
      var p := PathPresent(edges, roles, sourceAccount, maxHops, source, role, kind);
      DeduplicatedOnce(all, p);
    } else if HasPath(Deduplicated(all), (source, arn, kind)) {
      var i :| 0 <= i < |Deduplicated(all)| && KeyOf(Deduplicated(all)[i]) == (source, arn, kind);
      var p := Deduplicated(all)[i];
      assert p in Deduplicated(all);
      DeduplicatedKeys(all);
      assert p in all;
      PathsOfKindListed(edges, roles, Admin, sourceAccount, maxHops, p);
      PathsOfKindListed(edges, roles, PrivilegeEscalation, sourceAccount, maxHops, p);
      assert false;
    }
  }
}
