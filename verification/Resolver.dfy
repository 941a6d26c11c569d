/** Effective permissions of a principal: literal denies first, then each Allow under the
    permission boundary and the service control policies. */
module Resolver {
  import opened Basics
  import opened Policy

  /** What limits every Allow. An unparseable document limits nothing. */
  datatype Limits = Limits(boundary: Option<Document>, scps: seq<Document>)

  datatype Verdict = Met | NotMet | Undecided

  datatype ConditionalGrant = ConditionalGrant(action: string, resources: seq<string>, conditions: seq<Condition>)

  datatype Effective = Effective(allowed: set<string>, denied: set<string>, grants: seq<ConditionalGrant>, isAdmin: bool)

  // ----- the rule, independent of any order

  predicate AllowsIn(statements: seq<Statement>, action: string) {
    exists s :: s in statements && s.effect.Allow? && SomeMatches(s.actions, action)
  }

  predicate SomeMatches(patterns: seq<string>, action: string) {
    exists p :: p in patterns && IsActionMatched(p, action)
  }

  predicate PassesBoundary(l: Limits, action: string) {
    l.boundary.Some? && l.boundary.value.Parsed? ==> AllowsIn(l.boundary.value.statements, action)
  }

  predicate PassesScps(scps: seq<Document>, action: string) {
    forall d :: d in scps && d.Parsed? ==> AllowsIn(d.statements, action)
  }

  /** Allowed by the boundary, when it parses, and by every service control policy that does. */
  predicate Passes(l: Limits, action: string) { PassesBoundary(l, action) && PassesScps(l.scps, action) }

  predicate Limited(l: Limits) { l.boundary.Some? || l.scps != [] }

  predicate HasWildcard(actions: seq<string>) { exists a :: a in actions && IsWildcard(a) }

  /** An Allow of everything, under limits: what it offers is read off the boundary. */
  predicate Wide(l: Limits, s: Statement) { Limited(l) && HasWildcard(s.actions) }

  predicate MatchedBy(s: Statement, action: string) {
    if s.notActions.Some? && s.notActions.value != [] then !SomeMatches(s.notActions.value, action)
    else SomeMatches(s.actions, action)
  }

  predicate ListsAllow(statements: seq<Statement>, action: string) {
    exists s :: s in statements && s.effect.Allow? && action in s.actions
  }

  predicate OfferedBy(l: Limits, s: Statement, action: string) {
    if Wide(l, s) then
      !IsWildcard(action) && l.boundary.Some? && l.boundary.value.Parsed?
      && ListsAllow(l.boundary.value.statements, action) && MatchedBy(s, action)
    else action in s.actions
  }

  predicate OffersStar(l: Limits, s: Statement) {
    Wide(l, s) && (l.boundary.None?
                   || (l.boundary.value.Parsed? && (ListsAllow(l.boundary.value.statements, "*") || ListsAllow(l.boundary.value.statements, "*:*"))))
  }

  ghost predicate Offered(l: Limits, allows: seq<Statement>, action: string) {
    exists s :: s in allows && OfferedBy(l, s, action)
  }

  ghost predicate StarOffered(l: Limits, allows: seq<Statement>) {
    exists s :: s in allows && OffersStar(l, s)
  }

  /** The effective allow list: `denies` are the literally denied actions. */
  ghost predicate IsAllowed(l: Limits, denies: set<string>, allows: seq<Statement>, action: string) {
    || (action == "*" && StarOffered(l, allows))
    || (action !in denies && Passes(l, action) && Offered(l, allows, action))
  }

  /** The effective deny list: literal denies, and what the limits took away. */
  ghost predicate IsDenied(l: Limits, denies: set<string>, allows: seq<Statement>, action: string) {
    action in denies || (Offered(l, allows, action) && !Passes(l, action))
  }

  ghost predicate Resolved(l: Limits, denies: set<string>, allows: seq<Statement>, allowed: set<string>, denied: set<string>) {
    && (forall a :: a in allowed <==> IsAllowed(l, denies, allows, a))
    && (forall a :: a in denied <==> IsDenied(l, denies, allows, a))
  }

  // ----- reading the policies

  predicate DeniesLiterally(statements: seq<Statement>, action: string) {
    exists s :: s in statements && s.effect.Deny? && action in s.actions
  }

  function UnconditionalAllows(statements: seq<Statement>): seq<Statement> {
    if statements == [] then [] else
      var rest := UnconditionalAllows(statements[..|statements| - 1]);
      var last := statements[|statements| - 1];
      if last.effect.Allow? && last.conditions == [] then rest + [last] else rest
  }

  lemma {:induction false} UnconditionalListed(statements: seq<Statement>, s: Statement)
    ensures s in UnconditionalAllows(statements) <==> s in statements && s.effect.Allow? && s.conditions == []
    decreases |statements|
  {
    if statements != [] {
      UnconditionalListed(statements[..|statements| - 1], s);
      assert statements == statements[..|statements| - 1] + [statements[|statements| - 1]];
    }
  }

  method ReadStatements(documents: seq<Document>) returns (statements: seq<Statement>)
    ensures statements == StatementsOf(documents)
  {
    statements := [];
    for i := 0 to |documents|
      invariant statements == StatementsOf(documents[..i])
    {
      assert documents[..i + 1][..i] == documents[..i];
      if documents[i].Parsed? { statements := statements + documents[i].statements; }
    }
    assert documents[..|documents|] == documents;
  }

  function ActionSet(actions: seq<string>): set<string> { set a | a in actions }

  method CollectDenies(statements: seq<Statement>) returns (denied: set<string>)
    ensures forall a :: a in denied <==> DeniesLiterally(statements, a)
  {
    denied := {};
    for i := 0 to |statements|
      invariant forall a :: a in denied <==> DeniesLiterally(statements[..i], a)
    {
      assert statements[..i + 1] == statements[..i] + [statements[i]];
      if statements[i].effect.Deny? {
        for j := 0 to |statements[i].actions|
          invariant forall a :: a in denied <==> DeniesLiterally(statements[..i], a) || a in statements[i].actions[..j]
        {
          denied := denied + {statements[i].actions[j]};
        }
        assert statements[i].actions[..|statements[i].actions|] == statements[i].actions;
      }
      OneMoreDeny(statements, i);
    }
    assert statements[..|statements|] == statements;
  }

  lemma OneMoreDeny(statements: seq<Statement>, i: nat)
    requires i < |statements|
    ensures forall a :: DeniesLiterally(statements[..i + 1], a)
                   <==> DeniesLiterally(statements[..i], a) || (statements[i].effect.Deny? && a in statements[i].actions)
  {
    assert statements[..i + 1] == statements[..i] + [statements[i]];
    forall a
      ensures DeniesLiterally(statements[..i + 1], a)
         <==> DeniesLiterally(statements[..i], a) || (statements[i].effect.Deny? && a in statements[i].actions)
    {
      if s :| s in statements[..i] && s.effect.Deny? && a in s.actions { assert s in statements[..i + 1]; }
      if statements[i].effect.Deny? && a in statements[i].actions { assert statements[i] in statements[..i + 1]; }
    }
  }

  // ----- one wide Allow

  /** What one wide Allow adds before the service control policies are applied. */
  ghost predicate AddedByWide(l: Limits, s: Statement, denied: set<string>, action: string) {
    (action == "*" && OffersStar(l, s)) || (OfferedBy(l, s, action) && action !in denied)
  }

  method OfferWide(l: Limits, s: Statement, allowed: set<string>, denied: set<string>) returns (r: set<string>)
    requires Wide(l, s)
    ensures forall a :: a in r <==> a in allowed || AddedByWide(l, s, denied, a)
  {
    r := allowed;
    if l.boundary.None? { return r + {"*"}; }
    if l.boundary.value.Unparseable? { return r; }
    var statements := l.boundary.value.statements;
    for i := 0 to |statements|
      invariant forall a :: a in r <==> a in allowed || ListedSoFar(s, denied, statements[..i], a)
    {
      assert statements[..i + 1] == statements[..i] + [statements[i]];
      var before := r;
      if statements[i].effect.Allow? { r := OfferList(s, statements[i].actions, r, denied); }
      forall a ensures ListedSoFar(s, denied, statements[..i + 1], a)
                  <==> ListedSoFar(s, denied, statements[..i], a)
                       || (statements[i].effect.Allow? && ListOffers(s, denied, statements[i].actions, a))
      {
        if b :| b in statements[..i] && b.effect.Allow? && ListOffers(s, denied, b.actions, a) { assert b in statements[..i + 1]; }
        assert statements[i] in statements[..i + 1];
      }
    }
    assert statements[..|statements|] == statements;
    forall a ensures ListedSoFar(s, denied, statements, a) <==> AddedByWide(l, s, denied, a) {
      WideMeaning(l, s, denied, a);
    }
  }

  /** What one list of boundary actions adds: a wildcard entry adds the star. */
  predicate ListOffers(s: Statement, denied: set<string>, actions: seq<string>, action: string) {
    || (action == "*" && HasWildcard(actions))
    || (action in actions && !IsWildcard(action) && action !in denied && MatchedBy(s, action))
  }

  predicate ListedSoFar(s: Statement, denied: set<string>, statements: seq<Statement>, action: string) {
    exists b :: b in statements && b.effect.Allow? && ListOffers(s, denied, b.actions, action)
  }

  lemma WideMeaning(l: Limits, s: Statement, denied: set<string>, a: string)
    requires Wide(l, s) && l.boundary.Some? && l.boundary.value.Parsed?
    ensures ListedSoFar(s, denied, l.boundary.value.statements, a) <==> AddedByWide(l, s, denied, a)
  {
    var statements := l.boundary.value.statements;
    if b :| b in statements && b.effect.Allow? && ListOffers(s, denied, b.actions, a) {
      if a == "*" && HasWildcard(b.actions) {
        var w :| w in b.actions && IsWildcard(w);
        assert ListsAllow(statements, w);
      }
    }
    if AddedByWide(l, s, denied, a) {
      if a == "*" {
        var w :| (w == "*" || w == "*:*") && ListsAllow(statements, w);
        assert ListsAllow(statements, w);
        var b :| b in statements && b.effect.Allow? && w in b.actions;
        assert HasWildcard(b.actions);
        assert ListOffers(s, denied, b.actions, a);
      } else {
        var b :| b in statements && b.effect.Allow? && a in b.actions;
        assert ListOffers(s, denied, b.actions, a);
      }
    }
  }

  method OfferList(s: Statement, actions: seq<string>, allowed: set<string>, denied: set<string>) returns (r: set<string>)
    ensures forall a :: a in r <==> a in allowed || ListOffers(s, denied, actions, a)
  {
    r := allowed;
    for j := 0 to |actions|
      invariant forall a :: a in r <==> a in allowed || ListOffers(s, denied, actions[..j], a)
    {
      assert actions[..j + 1] == actions[..j] + [actions[j]];
      var ba := actions[j];
      if IsWildcard(ba) {
        r := r + {"*"};
      } else if ba !in denied && MatchedBy(s, ba) {
        r := r + {ba};
      }
      assert HasWildcard(actions[..j + 1]) <==> HasWildcard(actions[..j]) || IsWildcard(ba);
    }
    assert actions[..|actions|] == actions;
  }

  /** Drops what one service control policy does not allow. */
  method FilterByScp(statements: seq<Statement>, allowed: set<string>, denied: set<string>)
    returns (allowed': set<string>, denied': set<string>)
    ensures forall a :: a in allowed' <==> a in allowed && (IsWildcard(a) || AllowsIn(statements, a))
    ensures forall a :: a in denied' <==> a in denied || (a in allowed && !IsWildcard(a) && !AllowsIn(statements, a))
  {
    var patterns: set<string> := {};
    for i := 0 to |statements|
      invariant forall p :: p in patterns <==> ListsAllow(statements[..i], p)
    {
      assert statements[..i + 1] == statements[..i] + [statements[i]];
      if statements[i].effect.Allow? { patterns := patterns + ActionSet(statements[i].actions); }
      forall p ensures ListsAllow(statements[..i + 1], p)
                  <==> ListsAllow(statements[..i], p) || (statements[i].effect.Allow? && p in statements[i].actions)
      {
        if s :| s in statements[..i] && s.effect.Allow? && p in s.actions { assert s in statements[..i + 1]; }
        assert statements[i] in statements[..i + 1];
      }
    }
    assert statements[..|statements|] == statements;
    forall a ensures AllowsIn(statements, a) <==> exists p :: p in patterns && IsActionMatched(p, a) {
      if s :| s in statements && s.effect.Allow? && SomeMatches(s.actions, a) {
        var p :| p in s.actions && IsActionMatched(p, a);
        assert ListsAllow(statements, p);
      }
      if p :| p in patterns && IsActionMatched(p, a) {
        var s :| s in statements && s.effect.Allow? && p in s.actions;
        assert SomeMatches(s.actions, a);
      }
    }
    allowed', denied' := allowed, denied;
    if "*" !in patterns && "*:*" !in patterns {
      var todo := allowed;
      while todo != {}
        invariant todo <= allowed
        invariant forall a :: a in allowed' <==> a in allowed && (a in todo || IsWildcard(a) || AllowsIn(statements, a))
        invariant forall a :: a in denied' <==> a in denied || (a in allowed && a !in todo && !IsWildcard(a) && !AllowsIn(statements, a))
        decreases todo
      {
        var aa :| aa in todo;
        todo := todo - {aa};
        ActionMatchReflexive(aa);
        if aa != "*" && aa != "*:*" && aa !in patterns && !exists p :: p in patterns && IsActionMatched(p, aa) {
          allowed' := allowed' - {aa};
          denied' := denied' + {aa};
        }
      }
    } else {
      var w :| w in patterns && IsWildcard(w);
      forall a ensures IsActionMatched(w, a) { WildcardMatches(w, a); }
    }
  }

  method FilterByScps(scps: seq<Document>, allowed: set<string>, denied: set<string>)
    returns (allowed': set<string>, denied': set<string>)
    ensures forall a :: a in allowed' <==> a in allowed && (IsWildcard(a) || PassesScps(scps, a))
    ensures forall a :: a in denied' <==> a in denied || (a in allowed && !IsWildcard(a) && !PassesScps(scps, a))
  {
    allowed', denied' := allowed, denied;
    for i := 0 to |scps|
      invariant forall a :: a in allowed' <==> a in allowed && (IsWildcard(a) || PassesScps(scps[..i], a))
      invariant forall a :: a in denied' <==> a in denied || (a in allowed && !IsWildcard(a) && !PassesScps(scps[..i], a))
    {
      assert scps[..i + 1] == scps[..i] + [scps[i]];
      forall a ensures PassesScps(scps[..i + 1], a)
                  <==> PassesScps(scps[..i], a) && (scps[i].Parsed? ==> AllowsIn(scps[i].statements, a))
      {
        assert scps[i] in scps[..i + 1];
        if PassesScps(scps[..i + 1], a) {
          forall d | d in scps[..i] && d.Parsed? ensures AllowsIn(d.statements, a) { assert d in scps[..i + 1]; }
        }
      }
      if scps[i].Parsed? { allowed', denied' := FilterByScp(scps[i].statements, allowed', denied'); }
    }
    assert scps[..|scps|] == scps;
  }

  // ----- one Allow, wide or not

  lemma OfferedMore(l: Limits, allows: seq<Statement>, s: Statement, a: string)
    ensures Offered(l, allows + [s], a) <==> Offered(l, allows, a) || OfferedBy(l, s, a)
    ensures StarOffered(l, allows + [s]) <==> StarOffered(l, allows) || OffersStar(l, s)
  {
    if x :| x in allows && OfferedBy(l, x, a) { assert x in allows + [s]; }
    if x :| x in allows && OffersStar(l, x) { assert x in allows + [s]; }
    assert s in allows + [s];
  }

  lemma WideOfferPassesBoundary(l: Limits, s: Statement, a: string)
    requires Wide(l, s) && OfferedBy(l, s, a)
    ensures PassesBoundary(l, a)
  {
    var b :| b in l.boundary.value.statements && b.effect.Allow? && a in b.actions;
    ActionMatchReflexive(a);
    assert SomeMatches(b.actions, a);
  }

  lemma WildcardsOnlyUnlimited(l: Limits, allows: seq<Statement>, a: string)
    requires Limited(l) && IsWildcard(a)
    ensures !Offered(l, allows, a)
  {
    if s :| s in allows && OfferedBy(l, s, a) {
      if !Wide(l, s) { assert HasWildcard(s.actions); }
      assert false;
    }
  }

  method ApplyWide(l: Limits, denies: set<string>, ghost allows: seq<Statement>, s: Statement, allowed: set<string>, denied: set<string>)
    returns (allowed': set<string>, denied': set<string>)
    requires Wide(l, s) && Resolved(l, denies, allows, allowed, denied)
    ensures Resolved(l, denies, allows + [s], allowed', denied')
  {
    var added := OfferWide(l, s, allowed, denied);
    allowed', denied' := FilterByScps(l.scps, added, denied);
    forall a
      ensures a in allowed' <==> IsAllowed(l, denies, allows + [s], a)
      ensures a in denied' <==> IsDenied(l, denies, allows + [s], a)
    {
      OfferedMore(l, allows, s, a);
      if OfferedBy(l, s, a) { WideOfferPassesBoundary(l, s, a); }
      if IsWildcard(a) {
        WildcardsOnlyUnlimited(l, allows, a);
        WildcardsOnlyUnlimited(l, allows + [s], a);
      }
    }
  }

  method ApplyNarrow(l: Limits, denies: set<string>, ghost allows: seq<Statement>, s: Statement, allowed: set<string>, denied: set<string>)
    returns (allowed': set<string>, denied': set<string>)
    requires !Wide(l, s) && Resolved(l, denies, allows, allowed, denied)
    ensures Resolved(l, denies, allows + [s], allowed', denied')
  {
    allowed', denied' := allowed, denied;
    for j := 0 to |s.actions|
      invariant forall a :: a in allowed' <==> a in allowed || (a in s.actions[..j] && a !in denies && Passes(l, a))
      invariant forall a :: a in denied' <==> a in denied || (a in s.actions[..j] && !Passes(l, a))
    {
      assert s.actions[..j + 1] == s.actions[..j] + [s.actions[j]];
      var action := s.actions[j];
      if action !in denied' {
        var blocked := !PassesBoundary(l, action);
        if !blocked { blocked := BlockedByScps(l, action); }
        if !blocked { allowed' := allowed' + {action}; } else { denied' := denied' + {action}; }
      } else {
        assert action in denies || !Passes(l, action);
      }
    }
    assert s.actions[..|s.actions|] == s.actions;
    forall a
      ensures a in allowed' <==> IsAllowed(l, denies, allows + [s], a)
      ensures a in denied' <==> IsDenied(l, denies, allows + [s], a)
    {
      OfferedMore(l, allows, s, a);
    }
  }

  method BlockedByScps(l: Limits, action: string) returns (blocked: bool)
    ensures blocked == !PassesScps(l.scps, action)
  {
    blocked := false;
    for i := 0 to |l.scps|
      invariant blocked == !PassesScps(l.scps[..i], action)
    {
      assert l.scps[..i + 1] == l.scps[..i] + [l.scps[i]];
      assert l.scps[i] in l.scps[..i + 1];
      if PassesScps(l.scps[..i + 1], action) {
        forall d | d in l.scps[..i] && d.Parsed? ensures AllowsIn(d.statements, action) { assert d in l.scps[..i + 1]; }
      }
      if l.scps[i].Parsed? && !AllowsIn(l.scps[i].statements, action) { blocked := true; }
    }
    assert l.scps[..|l.scps|] == l.scps;
  }

  // ----- the resolver

  predicate MayHold(s: Statement, verdict: seq<Condition> -> Verdict) {
    s.effect.Allow? && s.conditions != [] && !verdict(s.conditions).NotMet?
  }

  /** One action of a conditional Allow, with its resources and conditions. */
  predicate GrantOf(s: Statement, g: ConditionalGrant) {
    g.action in s.actions && g.resources == s.resources && g.conditions == s.conditions
  }

  /** The grants of a conditional Allow: its actions that are not denied yet, in order. */
  function GrantsIn(s: Statement, actions: seq<string>, denied: set<string>): seq<ConditionalGrant> {
    if actions == [] then [] else
      var rest := GrantsIn(s, actions[..|actions| - 1], denied);
      var last := actions[|actions| - 1];
      if last in denied then rest else rest + [ConditionalGrant(last, s.resources, s.conditions)]
  }

  lemma {:induction false} GrantsInMembers(s: Statement, actions: seq<string>, denied: set<string>, g: ConditionalGrant)
    ensures g in GrantsIn(s, actions, denied)
       <==> g.action in actions && g.action !in denied && g.resources == s.resources && g.conditions == s.conditions
    decreases |actions|
  {
    if actions != [] {
      GrantsInMembers(s, actions[..|actions| - 1], denied, g);
      assert actions == actions[..|actions| - 1] + [actions[|actions| - 1]];
    }
  }

  method GrantConditionally(s: Statement, denied: set<string>) returns (r: seq<ConditionalGrant>)
    ensures r == GrantsIn(s, s.actions, denied)
  {
    r := [];
    for j := 0 to |s.actions|
      invariant r == GrantsIn(s, s.actions[..j], denied)
    {
      assert s.actions[..j + 1][..j] == s.actions[..j];
      if s.actions[j] !in denied { r := r + [ConditionalGrant(s.actions[j], s.resources, s.conditions)]; }
    }
    assert s.actions[..|s.actions|] == s.actions;
  }

  /** What is denied by the time a statement is reached: the literal denies, and what the limits took
      from the Allows before it. */
  ghost predicate DeniedBefore(l: Limits, denies: set<string>, statements: seq<Statement>, i: nat, action: string)
    requires i <= |statements|
  {
    IsDenied(l, denies, UnconditionalAllows(statements[..i]), action)
  }

  /** The conditional grants, statement by statement: `deniedAt[i]` is what was denied when the i-th was reached. */
  function GrantsAt(statements: seq<Statement>, deniedAt: seq<set<string>>, verdict: seq<Condition> -> Verdict): seq<ConditionalGrant>
    requires |deniedAt| == |statements|
  {
    if statements == [] then [] else
      var n := |statements| - 1;
      GrantsAt(statements[..n], deniedAt[..n], verdict)
      + if MayHold(statements[n], verdict) then GrantsIn(statements[n], statements[n].actions, deniedAt[n]) else []
  }

  ghost predicate DeniedAlong(l: Limits, denies: set<string>, statements: seq<Statement>, deniedAt: seq<set<string>>) {
    |deniedAt| == |statements|
    && forall i, a :: 0 <= i < |statements| ==> (a in deniedAt[i] <==> DeniedBefore(l, denies, statements, i, a))
  }

  ghost predicate Granted(l: Limits, denies: set<string>, statements: seq<Statement>, verdict: seq<Condition> -> Verdict,
                          grants: seq<ConditionalGrant>) {
    exists deniedAt :: DeniedAlong(l, denies, statements, deniedAt) && grants == GrantsAt(statements, deniedAt, verdict)
  }

  lemma {:induction false} GrantsAtMembers(statements: seq<Statement>, deniedAt: seq<set<string>>, verdict: seq<Condition> -> Verdict,
                                           g: ConditionalGrant)
    requires |deniedAt| == |statements|
    ensures g in GrantsAt(statements, deniedAt, verdict)
       <==> exists i :: 0 <= i < |statements| && MayHold(statements[i], verdict) && GrantOf(statements[i], g) && g.action !in deniedAt[i]
    decreases |statements|
  {
    if statements != [] {
      var n := |statements| - 1;
      GrantsAtMembers(statements[..n], deniedAt[..n], verdict, g);
      GrantsInMembers(statements[n], statements[n].actions, deniedAt[n], g);
      if i :| 0 <= i < |statements| && MayHold(statements[i], verdict) && GrantOf(statements[i], g) && g.action !in deniedAt[i] {
        if i < n { assert statements[..n][i] == statements[i] && deniedAt[..n][i] == deniedAt[i]; }
      }
      if i :| 0 <= i < n && MayHold(statements[..n][i], verdict) && GrantOf(statements[..n][i], g) && g.action !in deniedAt[..n][i] {
        assert statements[i] == statements[..n][i];
      }
    }
  }

  /** A conditional grant is listed exactly when a conditional Allow that may hold makes it before
      anything denied its action: a literal Deny anywhere, or a limit on an Allow further up. */
  lemma GrantedExactlyWhen(l: Limits, denies: set<string>, statements: seq<Statement>, verdict: seq<Condition> -> Verdict,
                           grants: seq<ConditionalGrant>, g: ConditionalGrant)
    requires Granted(l, denies, statements, verdict, grants)
    ensures g in grants
       <==> exists i :: 0 <= i < |statements| && MayHold(statements[i], verdict) && GrantOf(statements[i], g)
                        && !DeniedBefore(l, denies, statements, i, g.action)
  {
    var deniedAt :| DeniedAlong(l, denies, statements, deniedAt) && grants == GrantsAt(statements, deniedAt, verdict);
    GrantsAtMembers(statements, deniedAt, verdict, g);
    if i :| 0 <= i < |statements| && MayHold(statements[i], verdict) && GrantOf(statements[i], g) && g.action !in deniedAt[i] {
      assert !DeniedBefore(l, denies, statements, i, g.action);
    }
    if i :| 0 <= i < |statements| && MayHold(statements[i], verdict) && GrantOf(statements[i], g)
            && !DeniedBefore(l, denies, statements, i, g.action) {
      assert g.action !in deniedAt[i];
    }
  }

  lemma DeniedAlongMore(l: Limits, denies: set<string>, done: seq<Statement>, s: Statement, deniedAt: seq<set<string>>, denied: set<string>)
    requires DeniedAlong(l, denies, done, deniedAt)
    requires forall a :: a in denied <==> IsDenied(l, denies, UnconditionalAllows(done), a)
    ensures DeniedAlong(l, denies, done + [s], deniedAt + [denied])
  {
    var more := done + [s];
    forall i, a | 0 <= i < |more| ensures a in (deniedAt + [denied])[i] <==> DeniedBefore(l, denies, more, i, a) {
      assert more[..i] == done[..i];
      if i == |done| { assert done[..i] == done; }
    }
  }

  lemma GrantsOneMore(done: seq<Statement>, s: Statement, deniedAt: seq<set<string>>, denied: set<string>, verdict: seq<Condition> -> Verdict)
    requires |deniedAt| == |done|
    ensures GrantsAt(done + [s], deniedAt + [denied], verdict)
         == GrantsAt(done, deniedAt, verdict) + if MayHold(s, verdict) then GrantsIn(s, s.actions, denied) else []
  {
    assert (done + [s])[..|done|] == done && (deniedAt + [denied])[..|done|] == deniedAt;
  }

  /** Everything the policies say, by the literal denies first, then statement by statement. */
  method ResolveStatements(statements: seq<Statement>, l: Limits, verdict: seq<Condition> -> Verdict)
    returns (r: Effective, ghost denies: set<string>)
    ensures forall a :: a in denies <==> DeniesLiterally(statements, a)
    ensures Resolved(l, denies, UnconditionalAllows(statements), r.allowed, r.denied)
    ensures Granted(l, denies, statements, verdict, r.grants)
    ensures r.isAdmin <==> "*" in r.allowed || "*:*" in r.allowed || "iam:*" in r.allowed || "AdministratorAccess" in r.allowed
  {
    var literal := CollectDenies(statements);
    denies := literal;
    var allowed: set<string>, denied: set<string>, grants: seq<ConditionalGrant> := {}, literal, [];
    ghost var deniedAt: seq<set<string>> := [];
    for i := 0 to |statements|
      invariant Resolved(l, literal, UnconditionalAllows(statements[..i]), allowed, denied)
      invariant DeniedAlong(l, literal, statements[..i], deniedAt) && grants == GrantsAt(statements[..i], deniedAt, verdict)
    {
      var s := statements[i];
      ghost var done := statements[..i];
      assert statements[..i + 1] == done + [s] && statements[..i + 1][..i] == done;
      DeniedAlongMore(l, literal, done, s, deniedAt, denied);
      GrantsOneMore(done, s, deniedAt, denied, verdict);
      deniedAt := deniedAt + [denied];
      if s.effect.Allow? {
        if s.conditions != [] {
          if !verdict(s.conditions).NotMet? {
            var more := GrantConditionally(s, denied);
            grants := grants + more;
          }
        } else if Wide(l, s) {
          allowed, denied := ApplyWide(l, literal, UnconditionalAllows(done), s, allowed, denied);
        } else {
          allowed, denied := ApplyNarrow(l, literal, UnconditionalAllows(done), s, allowed, denied);
        }
      }
    }
    assert statements[..|statements|] == statements;
    var isAdmin := "*" in allowed || "*:*" in allowed || "iam:*" in allowed || "AdministratorAccess" in allowed;
    r := Effective(allowed, denied, grants, isAdmin);
  }

  /** All statements of the identity, session and resource policies that parse. Beside the exact sets:
      nothing but a star is both allowed and denied, what is allowed by name is within the limits, and
      without limits it is the unconditional allows minus the literal denies. */
  method Resolve(identity: seq<Document>, session: seq<Document>, resource: seq<Document>, l: Limits,
                 verdict: seq<Condition> -> Verdict)
    returns (r: Effective, ghost denies: set<string>)
    ensures var statements := StatementsOf(identity) + StatementsOf(session) + StatementsOf(resource);
            && (forall a :: a in denies <==> DeniesLiterally(statements, a))
            && Resolved(l, denies, UnconditionalAllows(statements), r.allowed, r.denied)
            && Granted(l, denies, statements, verdict, r.grants)
            && (l == Limits(None, []) ==>
                  forall a :: a in r.allowed <==> a !in denies && exists s :: s in UnconditionalAllows(statements) && a in s.actions)
    ensures r.allowed * r.denied <= {"*"}
    ensures forall a :: a in r.allowed && !IsWildcard(a) ==> Passes(l, a)
    ensures r.isAdmin <==> "*" in r.allowed || "*:*" in r.allowed || "iam:*" in r.allowed || "AdministratorAccess" in r.allowed
  {
    var first := ReadStatements(identity);
    var second := ReadStatements(session);
    var third := ReadStatements(resource);
    r, denies := ResolveStatements(first + second + third, l, verdict);
    ghost var allows := UnconditionalAllows(first + second + third);
    OverlapOnlyInStar(l, denies, allows, r.allowed, r.denied);
    forall a | a in r.allowed && !IsWildcard(a) ensures Passes(l, a) {
      AllowedWithinLimits(l, denies, allows, r.allowed, r.denied, a);
    }
    if l == Limits(None, []) { UnlimitedIsDifference(denies, allows, r.allowed, r.denied); }
  }

  // ----- what the result means

  /** Allowed and denied entries overlap at most in the star. */
  lemma OverlapOnlyInStar(l: Limits, denies: set<string>, allows: seq<Statement>, allowed: set<string>, denied: set<string>)
    requires Resolved(l, denies, allows, allowed, denied)
    ensures allowed * denied <= {"*"}
  {
    forall a | a in allowed && a in denied ensures a == "*" {
      assert IsAllowed(l, denies, allows, a) && IsDenied(l, denies, allows, a);
    }
  }

  /** Every allowed entry other than a bare wildcard is within the boundary and every service control policy. */
  lemma AllowedWithinLimits(l: Limits, denies: set<string>, allows: seq<Statement>, allowed: set<string>, denied: set<string>, a: string)
    requires Resolved(l, denies, allows, allowed, denied) && a in allowed && !IsWildcard(a)
    ensures Passes(l, a)
  {
    assert IsAllowed(l, denies, allows, a);
  }

  /** Without limits the result is the unconditionally allowed actions minus the literally denied
      ones, and only those are denied. */
  lemma UnlimitedIsDifference(denies: set<string>, allows: seq<Statement>, allowed: set<string>, denied: set<string>)
    requires Resolved(Limits(None, []), denies, allows, allowed, denied)
    ensures forall a :: a in allowed <==> a !in denies && exists s :: s in allows && a in s.actions
    ensures denied == denies
  {
    var l := Limits(None, []);
    forall a
      ensures a in allowed <==> a !in denies && exists s :: s in allows && a in s.actions
      ensures a in denied <==> a in denies
    {
      assert Passes(l, a);
      assert a in allowed <==> IsAllowed(l, denies, allows, a);
      assert a in denied <==> IsDenied(l, denies, allows, a);
      if Offered(l, allows, a) { var s :| s in allows && OfferedBy(l, s, a); }
      if s :| s in allows && a in s.actions { assert OfferedBy(l, s, a); }
    }
  }

  /** The order of policies and statements does not matter: the same statements in any order, and
      any number of times, resolve to the same lists. */
  lemma OrderDoesNotMatter(l: Limits, denies: set<string>, statements: seq<Statement>, statements': seq<Statement>,
                           allowed: set<string>, denied: set<string>, allowed': set<string>, denied': set<string>)
    requires forall s :: s in statements <==> s in statements'
    requires Resolved(l, denies, UnconditionalAllows(statements), allowed, denied)
    requires Resolved(l, denies, UnconditionalAllows(statements'), allowed', denied')
    ensures allowed == allowed' && denied == denied'
  {
    var x, y := UnconditionalAllows(statements), UnconditionalAllows(statements');
    forall s ensures s in x <==> s in y {
      UnconditionalListed(statements, s);
      UnconditionalListed(statements', s);
    }
    forall a ensures Offered(l, x, a) <==> Offered(l, y, a) {
      if s :| s in x && OfferedBy(l, s, a) { assert s in y; }
      if s :| s in y && OfferedBy(l, s, a) { assert s in x; }
    }
    assert StarOffered(l, x) <==> StarOffered(l, y) by {
      if s :| s in x && OffersStar(l, s) { assert s in y; }
      if s :| s in y && OffersStar(l, s) { assert s in x; }
    }
    forall a ensures (a in allowed <==> a in allowed') && (a in denied <==> a in denied') {
      assert a in allowed <==> IsAllowed(l, denies, x, a);
      assert a in allowed' <==> IsAllowed(l, denies, y, a);
      assert a in denied <==> IsDenied(l, denies, x, a);
      assert a in denied' <==> IsDenied(l, denies, y, a);
    }
  }

  /** It does for the conditional grants: an action that the boundary denies stays granted when the
      conditional Allow comes before the plain one, and is not granted when it comes after. */
  lemma OrderMattersForGrants(plain: Statement, conditional: Statement, action: string, verdict: seq<Condition> -> Verdict)
    requires plain.effect.Allow? && plain.conditions == [] && plain.actions == [action] && !IsWildcard(action)
    requires MayHold(conditional, verdict) && conditional.actions == [action]
    ensures var l := Limits(Some(Parsed([])), []);
            && Granted(l, {}, [conditional, plain], verdict, [ConditionalGrant(action, conditional.resources, conditional.conditions)])
            && Granted(l, {}, [plain, conditional], verdict, [])
  {
    var l := Limits(Some(Parsed([])), []);
    assert GrantsIn(conditional, [action], {}) == [ConditionalGrant(action, conditional.resources, conditional.conditions)] by {
      assert [action][..0] == [];
    }
    assert GrantsIn(conditional, [action], {action}) == [] by { assert [action][..0] == []; }
    assert UnconditionalAllows([conditional]) == [] by { assert [conditional][..0] == []; }
    assert UnconditionalAllows([plain]) == [plain] by { assert [plain][..0] == []; }
    DeniedByPlain(l, plain, action);
    GrantedByTwo(l, conditional, plain, {}, verdict);
    GrantedByTwo(l, plain, conditional, {action}, verdict);
  }

  lemma DeniedByPlain(l: Limits, s: Statement, action: string)
    requires l == Limits(Some(Parsed([])), []) && s.actions == [action] && !IsWildcard(action)
    ensures forall a :: IsDenied(l, {}, [s], a) <==> a == action
  {
    forall a ensures IsDenied(l, {}, [s], a) <==> a == action {
      assert !AllowsIn([], a) && !PassesBoundary(l, a);
      assert OfferedBy(l, s, a) <==> a == action;
      assert s in [s];
    }
  }

  /** The grants of two statements, the first of which leaves `denied`. */
  lemma GrantedByTwo(l: Limits, s: Statement, t: Statement, denied: set<string>, verdict: seq<Condition> -> Verdict)
    requires forall a :: a in denied <==> IsDenied(l, {}, UnconditionalAllows([s]), a)
    ensures Granted(l, {}, [s, t], verdict,
                    (if MayHold(s, verdict) then GrantsIn(s, s.actions, {}) else [])
                    + if MayHold(t, verdict) then GrantsIn(t, t.actions, denied) else [])
  {
    DeniedAlongTwo(l, s, t, denied);
    GrantsAtTwo(s, t, denied, verdict);
  }

  lemma DeniedAlongTwo(l: Limits, s: Statement, t: Statement, denied: set<string>)
    requires forall a :: a in denied <==> IsDenied(l, {}, UnconditionalAllows([s]), a)
    ensures DeniedAlong(l, {}, [s, t], [{}, denied])
  {
    var none: seq<Statement>, never: seq<set<string>> := [], [];
    assert UnconditionalAllows(none) == [];
    DeniedAlongMore(l, {}, none, s, never, {});
    assert none + [s] == [s] && never + [{}] == [{}];
    DeniedAlongMore(l, {}, [s], t, [{}], denied);
    assert [s] + [t] == [s, t] && [{}] + [denied] == [{}, denied];
  }

  lemma GrantsAtTwo(s: Statement, t: Statement, denied: set<string>, verdict: seq<Condition> -> Verdict)
    ensures GrantsAt([s, t], [{}, denied], verdict)
         == (if MayHold(s, verdict) then GrantsIn(s, s.actions, {}) else [])
            + if MayHold(t, verdict) then GrantsIn(t, t.actions, denied) else []
  {
    var first: seq<set<string>> := [{}];
    GrantsAtOne(s, {}, verdict);
    GrantsOneMore([s], t, first, denied, verdict);
    assert [s] + [t] == [s, t] && first + [denied] == [{}, denied];
  }

  lemma GrantsAtOne(s: Statement, denied: set<string>, verdict: seq<Condition> -> Verdict)
    ensures GrantsAt([s], [denied], verdict) == if MayHold(s, verdict) then GrantsIn(s, s.actions, denied) else []
  {
    assert [s][..0] == [] && [denied][..0] == [];
    assert GrantsAt([s][..0], [denied][..0], verdict) == [];
  }

  // ----- asking about one action

  datatype Answer = ExplicitDeny | ExplicitAllow | ConditionsMet | ConditionsNotMet | NoContext | ImplicitDeny

  predicate Names(actions: set<string>, action: string) { exists a :: a in actions && IsActionMatched(a, action) }

  /** The first conditional grant that matches: the one that decides. */
  predicate Decides(grants: seq<ConditionalGrant>, action: string, i: nat) {
    && i < |grants| && IsActionMatched(grants[i].action, action)
    && forall j :: 0 <= j < i ==> !IsActionMatched(grants[j].action, action)
  }

  /** `verdict` evaluates conditions in the caller's context; None is a call without one. */
  method CheckActionAllowed(e: Effective, action: string, verdict: Option<seq<Condition> -> Verdict>) returns (answer: Answer)
    ensures answer.ExplicitDeny? <==> Names(e.denied, action)
    ensures answer.ExplicitAllow? <==> !Names(e.denied, action) && Names(e.allowed, action)
    ensures !Names(e.denied, action) && !Names(e.allowed, action) ==>
              && (forall i :: 0 <= i < |e.grants| && Decides(e.grants, action, i) ==>
                    && (answer.ConditionsMet? <==> verdict.Some? && verdict.value(e.grants[i].conditions).Met?)
                    && (answer.ConditionsNotMet? <==> verdict.Some? && verdict.value(e.grants[i].conditions).NotMet?)
                    && (answer.NoContext? <==> verdict.None? || verdict.value(e.grants[i].conditions).Undecided?))
              && (answer.ImplicitDeny? <==> forall g :: g in e.grants ==> !IsActionMatched(g.action, action))
  {
    if Names(e.denied, action) { return ExplicitDeny; }
    if Names(e.allowed, action) { return ExplicitAllow; }
    for i := 0 to |e.grants|
      invariant forall j :: 0 <= j < i ==> !IsActionMatched(e.grants[j].action, action)
    {
      if IsActionMatched(e.grants[i].action, action) {
        assert Decides(e.grants, action, i) && e.grants[i] in e.grants;
        if verdict.Some? {
          var result := verdict.value(e.grants[i].conditions);
          if result.Met? { return ConditionsMet; }
          if result.NotMet? { return ConditionsNotMet; }
        }
        return NoContext;
      }
    }
    answer := ImplicitDeny;
  }
}
