/** The effective permissions of a principal, said of the fields of its statements, of the boundary and
    of the service control policies: exactly which actions are allowed and which are denied. */
module EffectiveActions {
  import opened Basics
  import opened Policy
  import opened Resolver

  predicate PlainAllow(s: Statement) { s.effect == Allow && s.conditions == [] }

  predicate BareWildcard(actions: seq<string>) { "*" in actions || "*:*" in actions }

  predicate DeniedByName(statements: seq<Statement>, action: string) {
    exists s :: s in statements && s.effect == Deny && action in s.actions
  }

  /** Some Allow of the document has a pattern that matches the action. */
  predicate Covers(statements: seq<Statement>, action: string) {
    exists s, p :: s in statements && s.effect == Allow && p in s.actions && IsActionMatched(p, action)
  }

  predicate Names(statements: seq<Statement>, action: string) {
    exists s :: s in statements && s.effect == Allow && action in s.actions
  }

  /** A boundary that parses must cover the action, and every service control policy that parses. */
  predicate WithinBounds(l: Limits, action: string) {
    && (l.boundary.Some? && l.boundary.value.Parsed? ==> Covers(l.boundary.value.statements, action))
    && forall d :: d in l.scps && d.Parsed? ==> Covers(d.statements, action)
  }

  predicate HasLimits(l: Limits) { l.boundary.Some? || |l.scps| > 0 }

  predicate NotExcluded(s: Statement, action: string) {
    s.notActions.Some? && s.notActions.value != [] ==> forall p :: p in s.notActions.value ==> !IsActionMatched(p, action)
  }

  /** A plain Allow offers the action: by name, or under limits a wildcard Allow does for an action that
      the boundary names. */
  predicate OffersNamed(l: Limits, s: Statement, action: string) {
    && PlainAllow(s)
    && if HasLimits(l) && BareWildcard(s.actions) then
         l.boundary.Some? && l.boundary.value.Parsed? && Names(l.boundary.value.statements, action) && NotExcluded(s, action)
       else action in s.actions
  }

  lemma CoversSays(statements: seq<Statement>, action: string)
    ensures Covers(statements, action) <==> AllowsIn(statements, action)
  {
    if s, p :| s in statements && s.effect == Allow && p in s.actions && IsActionMatched(p, action) { assert SomeMatches(s.actions, action); }
    if s :| s in statements && s.effect.Allow? && SomeMatches(s.actions, action) {
      var p :| p in s.actions && IsActionMatched(p, action);
      assert s.effect == Allow;
    }
  }

  lemma BoundsSay(l: Limits, action: string)
    ensures WithinBounds(l, action) <==> Passes(l, action)
  {
    if l.boundary.Some? && l.boundary.value.Parsed? { CoversSays(l.boundary.value.statements, action); }
    forall d | d in l.scps && d.Parsed? ensures Covers(d.statements, action) <==> AllowsIn(d.statements, action) {
      CoversSays(d.statements, action);
    }
  }

  lemma OffersSay(l: Limits, s: Statement, action: string)
    requires PlainAllow(s) && action != "*" && action != "*:*"
    ensures OffersNamed(l, s, action) <==> OfferedBy(l, s, action)
  {
    assert HasWildcard(s.actions) <==> BareWildcard(s.actions);
    if HasLimits(l) && BareWildcard(s.actions) {
      var w := if "*" in s.actions then "*" else "*:*";
      WildcardMatches(w, action);
      assert SomeMatches(s.actions, action);
      if s.notActions.Some? {
        assert SomeMatches(s.notActions.value, action) <==> exists p :: p in s.notActions.value && IsActionMatched(p, action);
      }
      if l.boundary.Some? && l.boundary.value.Parsed? {
        assert Names(l.boundary.value.statements, action) <==> ListsAllow(l.boundary.value.statements, action);
      }
    }
  }

  lemma OfferedSays(l: Limits, statements: seq<Statement>, action: string)
    requires action != "*" && action != "*:*"
    ensures Offered(l, UnconditionalAllows(statements), action) <==> exists s :: s in statements && OffersNamed(l, s, action)
  {
    var allows := UnconditionalAllows(statements);
    if s :| s in allows && OfferedBy(l, s, action) {
      UnconditionalListed(statements, s);
      OffersSay(l, s, action);
    }
    if s :| s in statements && OffersNamed(l, s, action) {
      UnconditionalListed(statements, s);
      OffersSay(l, s, action);
      assert s in allows;
    }
  }

  /** The statements resolve to these lists. */
  ghost predicate ResolvesTo(l: Limits, statements: seq<Statement>, allowed: set<string>, denied: set<string>) {
    exists denies :: AreDenies(statements, denies) && Resolved(l, denies, UnconditionalAllows(statements), allowed, denied)
  }

  ghost predicate AreDenies(statements: seq<Statement>, denies: set<string>) {
    forall a :: a in denies <==> DeniesLiterally(statements, a)
  }

  /** An action other than a bare wildcard is allowed exactly when no Deny names it, the limits cover it,
      and an Allow without conditions offers it. */
  lemma NamedAllowedExactlyWhen(l: Limits, statements: seq<Statement>, allowed: set<string>, denied: set<string>, action: string)
    requires ResolvesTo(l, statements, allowed, denied) && action != "*" && action != "*:*"
    ensures action in allowed
       <==> && !DeniedByName(statements, action) && WithinBounds(l, action)
            && exists s :: s in statements && OffersNamed(l, s, action)
  {
    var denies :| AreDenies(statements, denies) && Resolved(l, denies, UnconditionalAllows(statements), allowed, denied);
    assert action in allowed <==> IsAllowed(l, denies, UnconditionalAllows(statements), action);
    OfferedSays(l, statements, action);
    BoundsSay(l, action);
    assert DeniesLiterally(statements, action) <==> DeniedByName(statements, action);
  }

  /** It is denied exactly when a Deny names it, or an Allow offers it and a limit does not cover it. */
  lemma NamedDeniedExactlyWhen(l: Limits, statements: seq<Statement>, allowed: set<string>, denied: set<string>, action: string)
    requires ResolvesTo(l, statements, allowed, denied) && action != "*" && action != "*:*"
    ensures action in denied
       <==> || DeniedByName(statements, action)
            || (!WithinBounds(l, action) && exists s :: s in statements && OffersNamed(l, s, action))
  {
    var denies :| AreDenies(statements, denies) && Resolved(l, denies, UnconditionalAllows(statements), allowed, denied);
    assert action in denied <==> IsDenied(l, denies, UnconditionalAllows(statements), action);
    OfferedSays(l, statements, action);
    BoundsSay(l, action);
    assert DeniesLiterally(statements, action) <==> DeniedByName(statements, action);
  }

  /** Under limits the star is allowed exactly when some Allow without conditions lists a bare wildcard
      and so does an Allow of the boundary, where there is one: whatever is denied, and whatever the
      service control policies say. */
  lemma StarUnderLimitsExactlyWhen(l: Limits, statements: seq<Statement>, allowed: set<string>, denied: set<string>)
    requires ResolvesTo(l, statements, allowed, denied) && HasLimits(l)
    ensures "*" in allowed
       <==> && (exists s :: s in statements && PlainAllow(s) && BareWildcard(s.actions))
            && (l.boundary.Some? ==> BoundaryHasStar(l.boundary.value))
    ensures "*:*" !in allowed
  {
    var denies :| AreDenies(statements, denies) && Resolved(l, denies, UnconditionalAllows(statements), allowed, denied);
    var allows := UnconditionalAllows(statements);
    assert "*" in allowed <==> IsAllowed(l, denies, allows, "*");
    assert "*:*" in allowed <==> IsAllowed(l, denies, allows, "*:*");
    forall s | s in allows ensures !OfferedBy(l, s, "*") && !OfferedBy(l, s, "*:*") {
      assert HasWildcard(s.actions) <==> BareWildcard(s.actions);
    }
    forall s ensures s in allows <==> s in statements && PlainAllow(s) { UnconditionalListed(statements, s); }
    forall s ensures OffersStar(l, s) <==> BareWildcard(s.actions) && (l.boundary.Some? ==> BoundaryHasStar(l.boundary.value)) {
      assert HasWildcard(s.actions) <==> BareWildcard(s.actions);
      if l.boundary.Some? && l.boundary.value.Parsed? { BoundaryStar(l.boundary.value); }
    }
  }

  predicate BoundaryHasStar(boundary: Document) {
    boundary.Parsed? && exists b :: b in boundary.statements && b.effect == Allow && BareWildcard(b.actions)
  }

  lemma BoundaryStar(boundary: Document)
    requires boundary.Parsed?
    ensures BoundaryHasStar(boundary) <==> ListsAllow(boundary.statements, "*") || ListsAllow(boundary.statements, "*:*")
  {
  }

  /** Without limits a wildcard is an action like any other. */
  lemma StarWithoutLimitsExactlyWhen(l: Limits, statements: seq<Statement>, allowed: set<string>, denied: set<string>, w: string)
    requires ResolvesTo(l, statements, allowed, denied) && !HasLimits(l) && (w == "*" || w == "*:*")
    ensures w in allowed <==> !DeniedByName(statements, w) && exists s :: s in statements && PlainAllow(s) && w in s.actions
  {
    var denies :| AreDenies(statements, denies) && Resolved(l, denies, UnconditionalAllows(statements), allowed, denied);
    var allows := UnconditionalAllows(statements);
    assert w in allowed <==> IsAllowed(l, denies, allows, w);
    BoundsSay(l, w);
    forall s ensures s in allows <==> s in statements && PlainAllow(s) { UnconditionalListed(statements, s); }
    assert DeniesLiterally(statements, w) <==> DeniedByName(statements, w);
    if s :| s in statements && PlainAllow(s) && w in s.actions { assert s in allows && OfferedBy(l, s, w); }
  }

  // ----- conditional grants

  /** An Allow with conditions not known to fail makes this grant of one of its actions. */
  predicate Makes(s: Statement, verdict: seq<Condition> -> Verdict, g: ConditionalGrant) {
    && s.effect == Allow && s.conditions != [] && verdict(s.conditions) != NotMet
    && g.action in s.actions && g.resources == s.resources && g.conditions == s.conditions
  }

  /** A limit takes away what one of these statements offers. */
  ghost predicate TakenAway(l: Limits, statements: seq<Statement>, action: string) {
    action != "*" && action != "*:*" && !WithinBounds(l, action) && exists s :: s in statements && OffersNamed(l, s, action)
  }

  lemma TakenSays(l: Limits, statements: seq<Statement>, action: string)
    ensures TakenAway(l, statements, action) <==> Offered(l, UnconditionalAllows(statements), action) && !Passes(l, action)
  {
    BoundsSay(l, action);
    if action != "*" && action != "*:*" {
      OfferedSays(l, statements, action);
    } else if HasLimits(l) {
      forall s: Statement ensures !OfferedBy(l, s, action) {
        assert HasWildcard(s.actions) <==> BareWildcard(s.actions);
      }
    }
  }

  /** A conditional grant is listed exactly when no Deny names its action, and some statement makes it
      before a limit takes the action away from a statement further up. */
  lemma ConditionalExactlyWhen(l: Limits, denies: set<string>, statements: seq<Statement>, verdict: seq<Condition> -> Verdict,
                               grants: seq<ConditionalGrant>, g: ConditionalGrant)
    requires AreDenies(statements, denies) && Granted(l, denies, statements, verdict, grants)
    ensures g in grants
       <==> && !DeniedByName(statements, g.action)
            && exists i :: 0 <= i < |statements| && Makes(statements[i], verdict, g) && !TakenAway(l, statements[..i], g.action)
  {
    GrantedExactlyWhen(l, denies, statements, verdict, grants, g);
    assert DeniesLiterally(statements, g.action) <==> DeniedByName(statements, g.action);
    forall i | 0 <= i < |statements|
      ensures MayHold(statements[i], verdict) && GrantOf(statements[i], g) <==> Makes(statements[i], verdict, g)
      ensures DeniedBefore(l, denies, statements, i, g.action)
         <==> DeniedByName(statements, g.action) || TakenAway(l, statements[..i], g.action)
    {
      TakenSays(l, statements[..i], g.action);
    }
  }
}
