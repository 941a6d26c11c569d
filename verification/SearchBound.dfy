/** Which hop bounds the escalation search may be cut at without missing anyone within the bound:
    decided by the bound and the number of ARNs alone. */
module SearchBound {
  import opened Basics
  import opened Escalation

  // ----- two hops are always safe

  /** Everyone this principal trusts has been reported, though perhaps not looked at in turn. */
  ghost predicate HalfExpanded(edges: seq<TrustEdge>, s: Search, arn: string) {
    forall e :: e in edges && e.to == arn ==> Reported(s.results, e.from)
  }

  ghost predicate GrewHalf(edges: seq<TrustEdge>, s: Search, s': Search) {
    Longer(s, s') && forall arn :: arn in s'.visited && arn !in s.visited ==> HalfExpanded(edges, s', arn)
  }

  lemma GrewHalfTwice(edges: seq<TrustEdge>, a: Search, b: Search, c: Search)
    requires GrewHalf(edges, a, b) && GrewHalf(edges, b, c)
    ensures GrewHalf(edges, a, c)
  {
    forall arn | arn in c.visited && arn !in a.visited ensures HalfExpanded(edges, c, arn) {
      if arn in b.visited {
        forall e | e in edges && e.to == arn ensures Reported(c.results, e.from) { ReportedStays(b.results, c.results, e.from); }
      }
    }
  }

  lemma {:induction false} VisitReports(edges: seq<TrustEdge>, current: string, path: seq<TrustEdge>, depth: int, maxHops: int, s: Search)
    ensures var s' := Visit(edges, current, path, depth, maxHops, s);
            GrewHalf(edges, s, s') && (depth <= maxHops ==> current in s'.visited)
    decreases HopsLeft(depth, maxHops), 1, 0
  {
    if !(depth > maxHops || current in s.visited) {
      IncomingListed(edges, current);
      var begun := s.(visited := s.visited + {current});
      ExpandReports(edges, Incoming(edges, current), path, depth, maxHops, begun);
      var s' := Expand(edges, Incoming(edges, current), path, depth, maxHops, begun);
      assert HalfExpanded(edges, s', current);
      forall arn | arn in s'.visited && arn !in s.visited ensures HalfExpanded(edges, s', arn) {
        if arn != current { assert arn !in begun.visited; }
      }
    }
  }

  lemma {:induction false} ExpandReports(edges: seq<TrustEdge>, todo: seq<TrustEdge>, path: seq<TrustEdge>, depth: int, maxHops: int, s: Search)
    requires depth <= maxHops
    ensures var s' := Expand(edges, todo, path, depth, maxHops, s);
            && GrewHalf(edges, s, s')
            && (forall e :: e in todo ==> Reported(s'.results, e.from) && (depth + 1 <= maxHops ==> e.from in s'.visited))
    decreases HopsLeft(depth, maxHops), 0, |todo|
  {
    if todo != [] {
      var e, longer := todo[0], path + [todo[0]];
      var reported := s.(results := s.results + [Found(e.from, longer)]);
      VisitReports(edges, e.from, longer, depth + 1, maxHops, reported);
      var s1 := Visit(edges, e.from, longer, depth + 1, maxHops, reported);
      ExpandReports(edges, todo[1..], path, depth, maxHops, s1);
      var s' := Expand(edges, todo[1..], path, depth, maxHops, s1);
      assert GrewHalf(edges, s, reported);
      GrewHalfTwice(edges, s, reported, s1);
      GrewHalfTwice(edges, s, s1, s');
      assert Found(e.from, longer) in reported.results;
      ReportedStays(reported.results, s'.results, e.from);
      assert forall x :: x in todo <==> x == e || x in todo[1..];
    }
  }

  /** Bounds of up to two miss nobody within them, on any edges. */
  lemma TwoHopsAreSafe(edges: seq<TrustEdge>, target: string, maxHops: int, source: string)
    requires maxHops <= 2 && ReachesWithin(edges, source, target, maxHops)
    ensures Reported(Reachable(edges, target, maxHops), source)
  {
    var path: seq<TrustEdge> :| 1 <= |path| <= maxHops && IsChain(edges, path, target) && EndOf(path, target) == source;
    var begun := Search({target}, []);
    assert Search({}, []).visited + {target} == begun.visited;
    IncomingListed(edges, target);
    ExpandReports(edges, Incoming(edges, target), [], 1, maxHops, begun);
    var s := Expand(edges, Incoming(edges, target), [], 1, maxHops, begun);
    assert path[0] in edges && path[0] in Incoming(edges, target);
    if |path| == 2 {
      assert path[1] in edges && path[1].to == path[0].from;
      assert path[0].from in s.visited;
      if path[0].from != target {
        assert HalfExpanded(edges, s, path[0].from);
      } else {
        assert path[1] in Incoming(edges, target);
      }
    }
  }

  // ----- three or more can miss someone, unless everyone fits

  function Arn(i: nat): string { seq(i + 1, j => 'r') }

  lemma OwnName(i: nat, j: nat)
    ensures Arn(i) == Arn(j) <==> i == j
  {
    assert |Arn(i)| == i + 1 && |Arn(j)| == j + 1;
  }

  /** A chain of trust into Arn(0), each principal trusting the next. */
  function Spine(n: nat): (edges: seq<TrustEdge>)
    ensures |edges| == n
  {
    if n == 0 then [] else Spine(n - 1) + [TrustEdge(Arn(n), Arn(n - 1))]
  }

  /** Principals that only trust themselves. */
  function Loners(first: nat, n: nat): seq<TrustEdge> {
    if n == 0 then [] else Loners(first, n - 1) + [TrustEdge(Arn(first + n - 1), Arn(first + n - 1))]
  }

  /** The spine reaches principal k - 1 too deep to look further; its short way to the target comes later. */
  function Trap(k: nat, last: nat, loners: nat): seq<TrustEdge>
    requires k >= 3
  {
    Spine(k) + [TrustEdge(Arn(last), Arn(k)), TrustEdge(Arn(k - 1), Arn(0))] + Loners(if last == 0 then k + 1 else last + 1, loners)
  }

  lemma {:induction false} SpineInto(n: nat, j: nat)
    ensures Incoming(Spine(n), Arn(j)) == if j < n then [TrustEdge(Arn(j + 1), Arn(j))] else []
  {
    if n == 0 {
      assert Spine(0) == [];
    } else {
      var shorter, e := Spine(n - 1), TrustEdge(Arn(n), Arn(n - 1));
      SpineInto(n - 1, j);
      IncomingConcat(shorter, [e], Arn(j));
      IncomingOne(e, Arn(j));
      OwnName(j, n - 1);
      assert Spine(n) == shorter + [e];
    }
  }

  lemma IncomingOne(e: TrustEdge, arn: string)
    ensures Incoming([e], arn) == if e.to == arn then [e] else []
  {
    assert [e][..0] == [];
    assert Incoming([], arn) == [];
  }

  lemma {:induction false} LonersInto(first: nat, n: nat, j: nat)
    requires j < first
    ensures Incoming(Loners(first, n), Arn(j)) == []
  {
    if n > 0 {
      var e := TrustEdge(Arn(first + n - 1), Arn(first + n - 1));
      OwnName(j, first + n - 1);
      LonersInto(first, n - 1, j);
      IncomingConcat(Loners(first, n - 1), [e], Arn(j));
      IncomingOne(e, Arn(j));
    }
  }

  lemma TrapInto(k: nat, last: nat, loners: nat, j: nat)
    requires k >= 3 && (last == 0 || last == k + 1) && j < k
    ensures Incoming(Trap(k, last, loners), Arn(j))
         == [TrustEdge(Arn(j + 1), Arn(j))] + if j == 0 then [TrustEdge(Arn(k - 1), Arn(0))] else []
  {
    var a, b := TrustEdge(Arn(last), Arn(k)), TrustEdge(Arn(k - 1), Arn(0));
    var first := if last == 0 then k + 1 else last + 1;
    IncomingConcat(Spine(k) + [a, b], Loners(first, loners), Arn(j));
    IncomingConcat(Spine(k), [a, b], Arn(j));
    SpineInto(k, j);
    IncomingTwo(a, b, Arn(j));
    LonersInto(first, loners, j);
    OwnName(j, k);
    OwnName(j, 0);
  }

  lemma IncomingTwo(a: TrustEdge, b: TrustEdge, arn: string)
    ensures Incoming([a, b], arn) == (if a.to == arn then [a] else []) + if b.to == arn then [b] else []
  {
    IncomingConcat([a], [b], arn);
    assert [a] + [b] == [a, b];
    IncomingOne(a, arn);
    IncomingOne(b, arn);
  }

  /** Searched from principal i at its depth on the spine, principal k - 1 is met at the bound: it is
      ticked off, and nobody beyond principal k is reported. */
  lemma {:induction false} DownTheSpine(k: nat, last: nat, loners: nat, i: nat, path: seq<TrustEdge>, s: Search)
    requires k >= 3 && (last == 0 || last == k + 1) && 1 <= i <= k - 1
    requires forall j :: i <= j < k ==> Arn(j) !in s.visited
    requires !Reported(s.results, Arn(last))
    ensures var s' := Visit(Trap(k, last, loners), Arn(i), path, i + 1, k, s);
            Arn(k - 1) in s'.visited && !Reported(s'.results, Arn(last))
    decreases k - i
  {
    var edges := Trap(k, last, loners);
    TrapInto(k, last, loners, i);
    OwnName(i + 1, last);
    var e := TrustEdge(Arn(i + 1), Arn(i));
    assert Incoming(edges, Arn(i)) == [e];
    var begun := s.(visited := s.visited + {Arn(i)});
    var longer := path + [e];
    var reported := begun.(results := begun.results + [Found(Arn(i + 1), longer)]);
    NotReportedYet(begun.results, Found(Arn(i + 1), longer), Arn(last));
    assert [e][1..] == [];
    var s1 := Visit(edges, Arn(i + 1), longer, i + 2, k, reported);
    assert Expand(edges, [e], path, i + 1, k, begun) == Expand(edges, [], path, i + 1, k, s1) == s1;
    assert Visit(edges, Arn(i), path, i + 1, k, s) == s1;
    if i < k - 1 {
      forall j | i + 1 <= j < k ensures Arn(j) !in reported.visited { OwnName(i, j); }
      DownTheSpine(k, last, loners, i + 1, longer, reported);
    } else {
      assert s1 == reported;
    }
  }

  lemma NotReportedYet(results: seq<Found>, f: Found, arn: string)
    requires !Reported(results, arn) && f.source != arn
    ensures !Reported(results + [f], arn)
  {
  }

  /** On these edges principal `last` is three trusts from the target and missed. */
  lemma TrapMisses(k: nat, last: nat, loners: nat)
    requires k >= 3 && (last == 0 || last == k + 1)
    ensures ReachesWithin(Trap(k, last, loners), Arn(last), Arn(0), k)
    ensures !Reported(Reachable(Trap(k, last, loners), Arn(0), k), Arn(last))
  {
    var edges := Trap(k, last, loners);
    TrapInto(k, last, loners, 0);
    var up, short := TrustEdge(Arn(1), Arn(0)), TrustEdge(Arn(k - 1), Arn(0));
    assert Incoming(edges, Arn(0)) == [up, short];
    var begun := Search({Arn(0)}, []);
    assert Search({}, []).visited + {Arn(0)} == begun.visited;
    var reported := begun.(results := begun.results + [Found(Arn(1), [] + [up])]);
    forall j | 1 <= j < k ensures Arn(j) !in reported.visited { OwnName(0, j); }
    OwnName(1, last);
    OwnName(k - 1, last);
    DownTheSpine(k, last, loners, 1, [] + [up], reported);
    var s1 := Visit(edges, Arn(1), [] + [up], 2, k, reported);
    assert [up, short][1..] == [short] && [short][1..] == [];
    var s2 := s1.(results := s1.results + [Found(Arn(k - 1), [] + [short])]);
    NotReportedYet(s1.results, Found(Arn(k - 1), [] + [short]), Arn(last));
    assert Visit(edges, Arn(k - 1), [] + [short], 2, k, s2) == s2;
    assert Expand(edges, [short], [], 1, k, s1) == Expand(edges, [], [], 1, k, s2) == s2;
    assert Expand(edges, [up, short], [], 1, k, begun) == s2;
    assert Visit(edges, Arn(0), [], 1, k, Search({}, [])) == s2;
    TrapChain(k, last, loners);
  }

  lemma TrapChain(k: nat, last: nat, loners: nat)
    requires k >= 3
    ensures ReachesWithin(Trap(k, last, loners), Arn(last), Arn(0), k)
  {
    var edges := Trap(k, last, loners);
    var a, b, c := TrustEdge(Arn(k - 1), Arn(0)), TrustEdge(Arn(k), Arn(k - 1)), TrustEdge(Arn(last), Arn(k));
    assert Spine(k)[k - 1] == b;
    assert edges[k - 1] == b && edges[k] == c && edges[k + 1] == a;
    var path := [a, b, c];
    assert IsChain(edges, path, Arn(0)) && EndOf(path, Arn(0)) == Arn(last);
  }

  // ----- how many ARNs there are

  function Names(n: nat): set<string> {
    set i | 0 <= i < n :: Arn(i)
  }

  lemma {:induction false} NamesCount(n: nat)
    ensures |Names(n)| == n
  {
    if n > 0 {
      NamesCount(n - 1);
      assert Names(n) == Names(n - 1) + {Arn(n - 1)};
      forall i | 0 <= i < n - 1 ensures Arn(i) != Arn(n - 1) { OwnName(i, n - 1); }
    }
  }

  lemma ArnsConcat(a: seq<TrustEdge>, b: seq<TrustEdge>)
    ensures Arns(a + b) == Arns(a) + Arns(b)
  {
  }

  lemma ArnsOne(e: TrustEdge)
    ensures Arns([e]) == {e.from, e.to}
  {
  }

  lemma {:induction false} SpineArns(n: nat)
    requires n >= 1
    ensures Arns(Spine(n)) == Names(n + 1)
  {
    var e := TrustEdge(Arn(n), Arn(n - 1));
    ArnsConcat(Spine(n - 1), [e]);
    ArnsOne(e);
    if n > 1 { SpineArns(n - 1); } else { assert Spine(0) == []; }
    assert Names(n + 1) == Names(n) + {Arn(n)};
    assert n == 1 ==> Names(1) == {Arn(0)};
  }

  lemma {:induction false} LonersArns(first: nat, n: nat)
    ensures Names(first) + Arns(Loners(first, n)) == Names(first + n)
  {
    if n > 0 {
      var e := TrustEdge(Arn(first + n - 1), Arn(first + n - 1));
      LonersArns(first, n - 1);
      ArnsConcat(Loners(first, n - 1), [e]);
      ArnsOne(e);
      assert Names(first + n) == Names(first + n - 1) + {Arn(first + n - 1)};
    }
  }

  lemma InNames(i: nat, n: nat)
    requires i < n
    ensures Arn(i) in Names(n)
  {
  }

  lemma TrapCore(k: nat, last: nat)
    requires k >= 3 && (last == 0 || last == k + 1)
    ensures Arns(Spine(k) + [TrustEdge(Arn(last), Arn(k)), TrustEdge(Arn(k - 1), Arn(0))])
         == Names(if last == 0 then k + 1 else k + 2)
  {
    var a, b := TrustEdge(Arn(last), Arn(k)), TrustEdge(Arn(k - 1), Arn(0));
    ArnsConcat(Spine(k), [a, b]);
    ArnsConcat([a], [b]);
    assert [a] + [b] == [a, b];
    ArnsOne(a);
    ArnsOne(b);
    SpineArns(k);
    var core := Names(k + 1);
    InNames(0, k + 1);
    InNames(k, k + 1);
    InNames(k - 1, k + 1);
    SetAbsorbs(core, Arn(last), Arn(k), Arn(k - 1), Arn(0));
    if last == k + 1 { NamesGrow(k + 1); } else { assert core + {Arn(last)} == core; }
  }

  lemma SetAbsorbs(core: set<string>, a: string, b: string, c: string, d: string)
    requires b in core && c in core && d in core
    ensures core + ({a, b} + {c, d}) == core + {a}
  {
  }

  lemma NamesGrow(n: nat)
    ensures Names(n + 1) == Names(n) + {Arn(n)}
  {
  }

  lemma TrapArns(k: nat, last: nat, loners: nat)
    requires k >= 3 && (last == 0 || last == k + 1)
    ensures |Arns(Trap(k, last, loners))| == (if last == 0 then k + 1 else k + 2) + loners
  {
    var first := if last == 0 then k + 1 else last + 1;
    TrapCore(k, last);
    ArnsConcat(Spine(k) + [TrustEdge(Arn(last), Arn(k)), TrustEdge(Arn(k - 1), Arn(0))], Loners(first, loners));
    LonersArns(first, loners);
    NamesCount(first + loners);
  }

  // ----- the exact bounds

  /** On every set of edges over n ARNs, everyone within the bound is reported. */
  ghost predicate MissesNobody(n: nat, maxHops: int) {
    forall edges, target, source :: |Arns(edges)| == n && ReachesWithin(edges, source, target, maxHops) ==>
      Reported(Reachable(edges, target, maxHops), source)
  }

  /** The same for everyone but the target. */
  ghost predicate MissesNobodyElse(n: nat, maxHops: int) {
    forall edges, target, source :: |Arns(edges)| == n && source != target && ReachesWithin(edges, source, target, maxHops) ==>
      Reported(Reachable(edges, target, maxHops), source)
  }

  lemma WithinReaches(edges: seq<TrustEdge>, source: string, target: string, hops: int)
    requires ReachesWithin(edges, source, target, hops)
    ensures CanReach(edges, source, target)
  {
    var path: seq<TrustEdge> :| 1 <= |path| <= hops && IsChain(edges, path, target) && EndOf(path, target) == source;
    assert path != [];
  }

  lemma NobodyMissed(edges: seq<TrustEdge>, target: string, maxHops: int, source: string)
    requires maxHops <= 2 || maxHops >= |Arns(edges)| || (maxHops + 1 >= |Arns(edges)| && source != target)
    requires ReachesWithin(edges, source, target, maxHops)
    ensures Reported(Reachable(edges, target, maxHops), source)
  {
    if maxHops <= 2 {
      TwoHopsAreSafe(edges, target, maxHops, source);
    } else {
      WithinReaches(edges, source, target, maxHops);
      AlmostComplete(edges, target, maxHops, source);
    }
  }

  /** Edges over n ARNs on which the bound misses someone else, or the target itself, within it. */
  lemma SomebodyMissed(n: nat, maxHops: nat, last: nat) returns (edges: seq<TrustEdge>)
    requires maxHops >= 3 && (if last == 0 then n >= maxHops + 1 else last == maxHops + 1 && n >= maxHops + 2)
    ensures |Arns(edges)| == n && ReachesWithin(edges, Arn(last), Arn(0), maxHops)
    ensures !Reported(Reachable(edges, Arn(0), maxHops), Arn(last))
    ensures last != 0 ==> Arn(last) != Arn(0)
  {
    var loners := if last == 0 then n - maxHops - 1 else n - maxHops - 2;
    edges := Trap(maxHops, last, loners);
    TrapMisses(maxHops, last, loners);
    TrapArns(maxHops, last, loners);
    OwnName(last, 0);
  }

  /** Exactly the bounds that miss nobody within them: up to two, and from the number of ARNs on. */
  lemma BoundIsSafeExactlyWhen(n: nat, maxHops: int)
    ensures MissesNobody(n, maxHops) <==> maxHops <= 2 || maxHops >= n
  {
    if maxHops <= 2 || maxHops >= n {
      forall edges, target, source | |Arns(edges)| == n && ReachesWithin(edges, source, target, maxHops)
        ensures Reported(Reachable(edges, target, maxHops), source)
      {
        NobodyMissed(edges, target, maxHops, source);
      }
    } else {
      var edges := SomebodyMissed(n, maxHops, 0);
    }
  }

  /** And exactly those that miss nobody but perhaps the target: one less is enough. */
  lemma BoundIsSafeForOthersExactlyWhen(n: nat, maxHops: int)
    ensures MissesNobodyElse(n, maxHops) <==> maxHops <= 2 || maxHops >= n - 1
  {
    if maxHops <= 2 || maxHops >= n - 1 {
      forall edges, target, source | |Arns(edges)| == n && source != target && ReachesWithin(edges, source, target, maxHops)
        ensures Reported(Reachable(edges, target, maxHops), source)
      {
        NobodyMissed(edges, target, maxHops, source);
      }
    } else {
      var edges := SomebodyMissed(n, maxHops, maxHops + 1);
    }
  }

  /** So with such a bound a path is detected for exactly the wanted sources within it of a role that
      matters, once each. */
  lemma DetectionFindsAllWithin(edges: seq<TrustEdge>, roles: seq<Role>, sourceAccount: Option<string>, maxHops: int,
                                source: string, arn: string, kind: Kind)
    requires maxHops <= 2 || maxHops >= |Arns(edges)| || (maxHops + 1 >= |Arns(edges)| && source != arn)
    ensures var detected := Detected(edges, roles, sourceAccount, maxHops);
            if SomeRole(roles, arn, kind) && Wanted(source, sourceAccount) && ReachesWithin(edges, source, arn, maxHops)
            then OnceIn(detected, (source, arn, kind)) else !HasPath(detected, (source, arn, kind))
  {
    DetectedOnceExactlyWhen(edges, roles, sourceAccount, maxHops, source, arn, kind);
    if ReachesWithin(edges, source, arn, maxHops) { NobodyMissed(edges, arn, maxHops, source); }
    if Reported(Reachable(edges, arn, maxHops), source) { ReportedReaches(edges, arn, maxHops, source); }
  }
}
