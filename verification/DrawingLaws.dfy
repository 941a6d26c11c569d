/** The attack graph as drawn, said of the fields of the vertices and edges on its paths. */
module DrawingLaws {
  import opened Basics
  import opened Grouping
  import opened GraphBuilder

  // ----- which vertices fold

  predicate PolicyLabel(v: PathVertex) { v.labelName == "IamPolicy" || v.labelName == "IamPolicyDocument" }

  predicate StatementLabel(v: PathVertex) { v.labelName == "IamPolicyStatement" }

  /** What follows vertex i folds exactly when it is one or more policies or policy documents and then a
      statement. */
  lemma FoldsExactlyWhen(vs: seq<PathVertex>, i: nat)
    requires i + 1 < |vs|
    ensures FoldsAt(vs, i)
       <==> exists j :: i + 1 < j < |vs| && StatementLabel(vs[j]) && forall k :: i < k < j ==> PolicyLabel(vs[k])
  {
    var e := RunEnd(vs, i + 1);
    if FoldsAt(vs, i) { assert i + 1 < e < |vs| && StatementLabel(vs[e]); }
    if j :| i + 1 < j < |vs| && StatementLabel(vs[j]) && forall k :: i < k < j ==> PolicyLabel(vs[k]) {
      assert !PolicyLabel(vs[j]);
      if e < j { assert PolicyLabel(vs[e]); }
    }
  }

  /** On a path without policies and statements every vertex is drawn, in order. */
  lemma {:induction false} PlainPathDrawn(vs: seq<PathVertex>, i: nat)
    requires i < |vs| && forall v :: v in vs ==> !PolicyLabel(v) && !StatementLabel(v)
    ensures DrawnAfter(vs, i) == vs[i + 1..]
    decreases |vs| - i
  {
    if i + 1 < |vs| {
      FoldsExactlyWhen(vs, i);
      forall j | i + 1 < j < |vs| ensures !StatementLabel(vs[j]) { assert vs[j] in vs; }
      PlainPathDrawn(vs, i + 1);
    }
  }

  /** A principal, policies, their statement and what it grants. */
  function ChainPath(user: PathVertex, policies: seq<PathVertex>, statement: PathVertex, target: PathVertex): PathInput {
    PathInput([user] + policies + [statement, target], [])
  }

  lemma {:induction false} RunOfPolicies(vs: seq<PathVertex>, i: nat, j: nat)
    requires i <= j < |vs| && (forall k :: i <= k < j ==> PolicyLabel(vs[k])) && !PolicyLabel(vs[j])
    ensures RunEnd(vs, i) == j
  {
  }

  /** Such a path is drawn as the principal, the target and one hop, captioned by the statement and made by
      the first policy: a deny if the statement denies, else conditional if it has conditions, else access. */
  lemma ChainPathDrawn(user: PathVertex, policies: seq<PathVertex>, statement: PathVertex, target: PathVertex)
    requires policies != [] && (forall p :: p in policies ==> PolicyLabel(p)) && StatementLabel(statement) && user.id != target.id
    ensures DrawnIds(ChainPath(user, policies, statement, target).nodes) == [user.id, target.id]
    ensures var e := PutAll(Blank, PathSteps(ChainPath(user, policies, statement, target)));
            && e.nodes.Keys == {user.id, target.id} && e.links.Keys == {(user.id, target.id)}
            && var l := e.links[(user.id, target.id)];
               && l.from == user.id && l.to == target.id && l.caption == statement.caption && l.via == Some(policies[0].name)
               && (l.grant == Deny <==> statement.deny)
               && (l.grant == Conditional <==> !statement.deny && statement.conditional)
               && (l.grant == Access <==> !statement.deny && !statement.conditional)
  {
    var path := ChainPath(user, policies, statement, target);
    ChainSteps(user, policies, statement, target);
    ChainNodes(user, policies, statement, target);
    var hop := Hop(user.id, target.id, statement.caption, Some(policies[0].name), Some(Granted(statement.id, GrantKind(statement))));
    var b, c := PutFour(Blank, Vertex(user), Fold(user.id, statement), Vertex(target), hop);
    assert c.nodes.Keys == {user.id, target.id} && c.links == map[] && c.statements == map[];
    var e := Put(c, hop);
    OwnHop(c, hop);
    assert e.links.Keys == {(user.id, target.id)};
  }

  lemma ChainNodes(user: PathVertex, policies: seq<PathVertex>, statement: PathVertex, target: PathVertex)
    requires policies != [] && (forall p :: p in policies ==> PolicyLabel(p)) && StatementLabel(statement)
    ensures var vs := ChainPath(user, policies, statement, target).nodes;
            && FoldsAt(vs, 0) && RunEnd(vs, 1) == |policies| + 1 && vs[|policies| + 1] == statement && vs[|policies| + 2] == target
            && |vs| == |policies| + 3 && vs[0] == user && vs[1] == policies[0] && DrawnIds(vs) == [user.id, target.id]
  {
    var vs := ChainPath(user, policies, statement, target).nodes;
    forall k | 1 <= k < |policies| + 1 ensures PolicyLabel(vs[k]) { assert vs[k] == policies[k - 1]; }
    RunOfPolicies(vs, 1, |policies| + 1);
    assert DrawnAfter(vs, |policies| + 2) == [];
    assert DrawnAfter(vs, 0) == [target] + [];
    assert IdsOfVertices([target]) == [target.id];
  }

  lemma ChainSteps(user: PathVertex, policies: seq<PathVertex>, statement: PathVertex, target: PathVertex)
    requires policies != [] && (forall p :: p in policies ==> PolicyLabel(p)) && StatementLabel(statement)
    ensures PathSteps(ChainPath(user, policies, statement, target))
         == [Vertex(user), Fold(user.id, statement), Vertex(target),
             Hop(user.id, target.id, statement.caption, Some(policies[0].name), Some(Granted(statement.id, GrantKind(statement))))]
  {
    var path := ChainPath(user, policies, statement, target);
    ChainNodes(user, policies, statement, target);
    assert StepsAfter(path, |policies| + 2, target.id) == [];
  }

  /** The caption of a plain hop is the label of the first edge between the two, or says they are connected. */
  lemma {:induction false} CaptionExactly(edges: seq<PathEdge>, from: string, to: string)
    ensures (exists i :: 0 <= i < |edges| && edges[i].from == from && edges[i].to == to && EdgeCaption(edges, from, to) == edges[i].labelName
                         && forall j :: 0 <= j < i ==> edges[j].from != from || edges[j].to != to)
         || (EdgeCaption(edges, from, to) == "CONNECTED" && forall i :: 0 <= i < |edges| ==> edges[i].from != from || edges[i].to != to)
    decreases |edges|
  {
    if edges != [] && !(edges[0].from == from && edges[0].to == to) {
      var rest := edges[1..];
      CaptionExactly(rest, from, to);
      if i :| 0 <= i < |rest| && rest[i].from == from && rest[i].to == to && EdgeCaption(rest, from, to) == rest[i].labelName
              && forall j :: 0 <= j < i ==> rest[j].from != from || rest[j].to != to {
        assert edges[i + 1] == rest[i];
        forall j | 0 <= j < i + 1 ensures edges[j].from != from || edges[j].to != to { if j > 0 { assert edges[j] == rest[j - 1]; } }
      } else {
        forall i | 0 <= i < |edges| ensures edges[i].from != from || edges[i].to != to { if i > 0 { assert edges[i] == rest[i - 1]; } }
      }
    }
  }

  // ----- nodes

  /** The first time a vertex of that id is drawn. */
  predicate FirstDrawn(steps: seq<Step>, id: string, i: int) {
    && 0 <= i < |steps| && steps[i].Vertex? && steps[i].v.id == id
    && forall j :: 0 <= j < i ==> !(steps[j].Vertex? && steps[j].v.id == id)
  }

  predicate FoldedLater(steps: seq<Step>, id: string, i: int, k: int) {
    i < k < |steps| && 0 <= k && steps[k].Fold? && steps[k].principal == id
  }

  /** A drawn node is what the first vertex of its id says of itself, and its risks are that vertex's and
      those of the statements folded into it afterwards, none added whose text is there already. */
  ghost predicate NodeAsDrawn(steps: seq<Step>, n: Node, i: int)
    requires 0 <= i < |steps| && steps[i].Vertex?
  {
    var v := steps[i].v;
    && n.id == v.id && n.labelName == v.labelName && n.stage == v.stage && n.account == v.account
    && (n.external <==> v.labelName == "ExternalAccount")
    && v.risks <= n.risks
    && (forall f :: f in n.risks ==> f in v.risks || exists k :: FoldedLater(steps, v.id, i, k) && f in steps[k].statement.risks)
    && (forall k, f :: FoldedLater(steps, v.id, i, k) && f in steps[k].statement.risks ==> SaysRisk(n.risks, f.text))
    && (forall a, b :: 0 <= a < b < |n.risks| && b >= |v.risks| ==> n.risks[a].text != n.risks[b].text)
  }

  predicate SaysRisk(risks: seq<Flag>, text: string) { exists g :: g in risks && g.text == text }

  ghost predicate NoneRepeated(into: seq<Flag>, r: seq<Flag>) {
    forall a, b :: 0 <= a < b < |r| && b >= |into| ==> r[a].text != r[b].text
  }

  /** One flag more, unless its text is there. */
  function AddFlag(into: seq<Flag>, f: Flag): seq<Flag> { if SaysRisk(into, f.text) then into else into + [f] }

  lemma AddFlagSays(into: seq<Flag>, f: Flag)
    ensures var more := AddFlag(into, f);
            into <= more && SaysRisk(more, f.text) && NoneRepeated(into, more) && forall g :: g in more ==> g in into || g == f
  {
    var more := AddFlag(into, f);
    if !SaysRisk(into, f.text) {
      assert more[|into|] == f && f in more;
      forall a | 0 <= a < |into| ensures into[a].text != f.text { assert into[a] in into; }
    }
  }

  lemma SaysMore(risks: seq<Flag>, more: seq<Flag>, text: string)
    requires risks <= more && SaysRisk(risks, text)
    ensures SaysRisk(more, text)
  {
    var g :| g in risks && g.text == text;
    var i :| 0 <= i < |risks| && risks[i] == g;
    assert more[i] == g;
  }

  lemma {:induction false} FlagsMerged(into: seq<Flag>, extra: seq<Flag>)
    ensures var r := MergeFlags(into, extra);
            && into <= r && (forall f :: f in r ==> f in into || f in extra) && (forall f :: f in extra ==> SaysRisk(r, f.text))
            && NoneRepeated(into, r)
    decreases |extra|
  {
    if extra != [] {
      var more := AddFlag(into, extra[0]);
      var r := MergeFlags(into, extra);
      AddFlagSays(into, extra[0]);
      assert r == MergeFlags(more, extra[1..]);
      FlagsMerged(more, extra[1..]);
      forall f | f in extra ensures SaysRisk(r, f.text) {
        if f == extra[0] { SaysMore(more, r, f.text); } else { assert f in extra[1..]; }
      }
      RepeatsThrough(into, more, r);
    }
  }

  lemma RepeatsThrough(into: seq<Flag>, more: seq<Flag>, r: seq<Flag>)
    requires into <= more <= r && NoneRepeated(into, more) && NoneRepeated(more, r)
    ensures NoneRepeated(into, r)
  {
    forall a, b | 0 <= a < b < |r| && b >= |into| ensures r[a].text != r[b].text {
      if b < |more| { assert r[a] == more[a] && r[b] == more[b]; }
    }
  }

  predicate Draws(steps: seq<Step>, id: string, i: int) { 0 <= i < |steps| && steps[i].Vertex? && steps[i].v.id == id }

  /** Exactly the ids of the vertices on the paths and entries are drawn, each as its first vertex. */
  lemma {:induction false} NodesAsDrawn(steps: seq<Step>, id: string)
    ensures var e := PutAll(Blank, steps);
            && (id in e.nodes <==> exists i :: Draws(steps, id, i))
            && (forall i :: FirstDrawn(steps, id, i) ==> id in e.nodes && NodeAsDrawn(steps, e.nodes[id], i))
    decreases |steps|
  {
    if steps != [] {
      var front, n := steps[..|steps| - 1], |steps| - 1;
      NodesAsDrawn(front, id);
      DrawsMore(steps, id);
      var e := PutAll(Blank, steps);
      forall i | FirstDrawn(steps, id, i) ensures id in e.nodes && NodeAsDrawn(steps, e.nodes[id], i) {
        if i == n {
          assert forall j :: Draws(front, id, j) ==> Draws(steps, id, j);
          FreshNode(front, steps, id);
        } else {
          assert FirstDrawn(front, id, i);
          LaterNode(front, steps, id, i);
        }
      }
    }
  }

  lemma DrawsMore(steps: seq<Step>, id: string)
    requires steps != []
    ensures var front, last := steps[..|steps| - 1], steps[|steps| - 1];
            (exists i :: Draws(steps, id, i)) <==> (exists i :: Draws(front, id, i)) || (last.Vertex? && last.v.id == id)
  {
    var front := steps[..|steps| - 1];
    if i :| Draws(front, id, i) { assert Draws(steps, id, i); }
    if i :| Draws(steps, id, i) { if i < |front| { assert Draws(front, id, i); } }
    if steps[|steps| - 1].Vertex? && steps[|steps| - 1].v.id == id { assert Draws(steps, id, |steps| - 1); }
  }

  lemma FreshNode(front: seq<Step>, steps: seq<Step>, id: string)
    requires |steps| == |front| + 1 && steps[..|front|] == front && FirstDrawn(steps, id, |front|)
    requires id !in PutAll(Blank, front).nodes
    ensures id in PutAll(Blank, steps).nodes && NodeAsDrawn(steps, PutAll(Blank, steps).nodes[id], |front|)
  {
  }

  lemma LaterNode(front: seq<Step>, steps: seq<Step>, id: string, i: int)
    requires |steps| == |front| + 1 && steps[..|front|] == front && FirstDrawn(front, id, i)
    requires id in PutAll(Blank, front).nodes && NodeAsDrawn(front, PutAll(Blank, front).nodes[id], i)
    ensures id in PutAll(Blank, steps).nodes && NodeAsDrawn(steps, PutAll(Blank, steps).nodes[id], i)
  {
    var last := steps[|front|];
    var d := PutAll(Blank, front);
    OneStepOn(d, last, id);
    assert PutAll(Blank, steps) == Put(d, last);
    if last.Fold? && last.principal == id {
      FoldedOnto(front, steps, id, i, d.nodes[id]);
    } else {
      NotFoldedOnto(front, steps, id, i, d.nodes[id]);
    }
  }

  lemma OneStepOn(d: Drawing, s: Step, id: string)
    requires id in d.nodes
    ensures id in Put(d, s).nodes
    ensures Put(d, s).nodes[id] == if s.Fold? && s.principal == id then d.nodes[id].(risks := MergeFlags(d.nodes[id].risks, s.statement.risks))
                                   else d.nodes[id]
  {
  }

  lemma NotFoldedOnto(front: seq<Step>, steps: seq<Step>, id: string, i: int, n: Node)
    requires |steps| == |front| + 1 && steps[..|front|] == front && FirstDrawn(front, id, i) && NodeAsDrawn(front, n, i)
    requires !(steps[|front|].Fold? && steps[|front|].principal == id)
    ensures NodeAsDrawn(steps, n, i)
  {
    var v := front[i].v;
    assert steps[i] == front[i];
    forall f | f in n.risks ensures f in v.risks || exists k :: FoldedLater(steps, v.id, i, k) && f in steps[k].statement.risks {
      if f !in v.risks {
        var k :| FoldedLater(front, v.id, i, k) && f in front[k].statement.risks;
        assert FoldedLater(steps, v.id, i, k) && steps[k] == front[k];
      }
    }
    forall k, f | FoldedLater(steps, id, i, k) && f in steps[k].statement.risks ensures SaysRisk(n.risks, f.text) {
      assert FoldedLater(front, id, i, k) && front[k] == steps[k];
    }
  }

  lemma FoldedOnto(front: seq<Step>, steps: seq<Step>, id: string, i: int, n: Node)
    requires |steps| == |front| + 1 && steps[..|front|] == front && FirstDrawn(front, id, i) && NodeAsDrawn(front, n, i)
    requires steps[|front|].Fold? && steps[|front|].principal == id
    ensures NodeAsDrawn(steps, n.(risks := MergeFlags(n.risks, steps[|front|].statement.risks)), i)
  {
    var v, last := front[i].v, |front|;
    var extra := steps[last].statement.risks;
    var r := MergeFlags(n.risks, extra);
    assert steps[i] == front[i];
    FlagsMerged(n.risks, extra);
    assert FoldedLater(steps, id, i, last);
    forall f | f in r ensures f in v.risks || exists k :: FoldedLater(steps, v.id, i, k) && f in steps[k].statement.risks {
      if f in n.risks && f !in v.risks {
        var k :| FoldedLater(front, v.id, i, k) && f in front[k].statement.risks;
        assert FoldedLater(steps, v.id, i, k) && steps[k] == front[k];
      }
    }
    forall k, f | FoldedLater(steps, id, i, k) && f in steps[k].statement.risks ensures SaysRisk(r, f.text) {
      if k < last {
        assert FoldedLater(front, id, i, k) && front[k] == steps[k];
        SaysMore(n.risks, r, f.text);
      }
    }
    assert NoneRepeated(v.risks, n.risks);
    RepeatsThrough(v.risks, n.risks, r);
  }

  // ----- links

  predicate AccountNumber(account: Option<string>) {
    account.Some? && |account.value| == 12 && forall i :: 0 <= i < 12 ==> '0' <= account.value[i] <= '9'
  }

  /** In any drawing a link joins two drawn nodes, and is marked as crossing accounts exactly when both
      have an account number and the numbers differ. */
  lemma {:induction false} CrossingExactlyWhen(steps: seq<Step>, key: Key)
    requires key in PutAll(Blank, steps).links
    ensures var e := PutAll(Blank, steps);
            && key.0 in e.nodes && key.1 in e.nodes
            && (e.links[key].crossAccount
                <==> && AccountNumber(e.nodes[key.0].account) && AccountNumber(e.nodes[key.1].account)
                     && e.nodes[key.0].account != e.nodes[key.1].account)
    decreases |steps|
  {
    if steps != [] {
      var front, last := steps[..|steps| - 1], steps[|steps| - 1];
      var d := PutAll(Blank, front);
      AccountsStay(d, last);
      if key in d.links {
        CrossingExactlyWhen(front, key);
      } else {
        AccountSays(d.nodes[key.0].account);
        AccountSays(d.nodes[key.1].account);
      }
    }
  }

  lemma AccountSays(account: Option<string>)
    ensures IsAccountId(account) <==> AccountNumber(account)
  {
    if account.Some? {
      forall i | 0 <= i < |account.value| ensures account.value[i] in account.value {}
    }
  }

  lemma AccountsStay(d: Drawing, s: Step)
    ensures forall id :: id in d.nodes ==> id in Put(d, s).nodes && Put(d, s).nodes[id].account == d.nodes[id].account
    ensures forall key :: key in d.links ==> key in Put(d, s).links && Put(d, s).links[key].crossAccount == d.links[key].crossAccount
  {
  }

  // ----- entries

  /** The ids and keys of an opened path: those of its openers, the last listed first, and then its own. */
  lemma {:induction false} OpenedExactly(p: Path, openers: seq<PathVertex>, start: string, k: nat)
    ensures var q, n := Opened(p, openers, start), |openers|;
            && |q.nodeIds| == n + |p.nodeIds| && |q.linkKeys| == n + |p.linkKeys| && q.startId == p.startId
            && (k < n ==> q.nodeIds[k] == openers[n - 1 - k].id && q.linkKeys[k] == (openers[n - 1 - k].id, start))
            && q.nodeIds[n..] == p.nodeIds && q.linkKeys[n..] == p.linkKeys
    decreases |openers|
  {
    if openers != [] {
      var front := openers[..|openers| - 1];
      OpenedExactly(p, front, start, if k > 0 then k - 1 else 0);
      var rest := Opened(p, front, start);
      var q := Opened(p, openers, start);
      assert q.nodeIds[1..] == rest.nodeIds && q.linkKeys[1..] == rest.linkKeys;
      assert q.nodeIds[|openers|..] == rest.nodeIds[|front|..] && q.linkKeys[|openers|..] == rest.linkKeys[|front|..];
    }
  }

  /** Who opens a start: the internet, the outside principals, or the one unresolved account when none are known. */
  lemma OpenersExactly(id: string, entries: map<string, Entry>, internet: PathVertex, unresolved: map<string, PathVertex>)
    requires id in unresolved
    ensures var openers := OpenersAt(id, entries, internet, unresolved);
            && (id !in entries ==> openers == [])
            && (id in entries && entries[id].FromInternet? ==> openers == [internet] && EntryCaption(entries[id]) == "Exposes")
            && (id in entries && entries[id].FromOutside? ==>
                  EntryCaption(entries[id]) == "Can assume" && openers != []
                  && forall v :: v in openers <==> v in entries[id].principals || (entries[id].principals == [] && v == unresolved[id]))
  {
  }
}
