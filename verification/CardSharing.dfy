/** Which nodes of an attack graph share a card, said of the fields of nodes and links themselves. */
module CardSharing {
  import opened Basics
  import opened Grouping

  /** A link between two ids that looks like this. */
  ghost predicate Joined(links: seq<Link>, from: string, to: string, caption: string, grant: Grant, crossAccount: bool) {
    exists l :: l in links && l.from == from && l.to == to && l.caption == caption && l.grant == grant && l.crossAccount == crossAccount
  }

  ghost predicate SameIncoming(links: seq<Link>, a: string, b: string) {
    forall other, caption, grant, crossAccount ::
      Joined(links, other, a, caption, grant, crossAccount) <==> Joined(links, other, b, caption, grant, crossAccount)
  }

  ghost predicate SameOutgoing(links: seq<Link>, a: string, b: string) {
    forall other, caption, grant, crossAccount ::
      Joined(links, a, other, caption, grant, crossAccount) <==> Joined(links, b, other, caption, grant, crossAccount)
  }

  /** Nothing a card shows tells the two apart: account, type, stage, risks, and the links in and out. */
  ghost predicate Indistinguishable(model: Model, a: Node, b: Node) {
    && a.account == b.account && a.external == b.external && a.labelName == b.labelName && a.stage == b.stage
    && multiset(a.risks) == multiset(b.risks)
    && SameIncoming(model.links, a.id, b.id) && SameOutgoing(model.links, a.id, b.id)
  }

  // ----- that is what a bucket says

  ghost predicate DistinctKeys(links: seq<Link>) {
    forall i, j :: 0 <= i < j < |links| ==> KeyOf(links[i]) != KeyOf(links[j])
  }

  lemma LastKeyIsNew(links: seq<Link>)
    requires links != [] && DistinctKeys(links)
    ensures var front, last := links[..|links| - 1], links[|links| - 1];
            DistinctKeys(front) && forall l :: l in front ==> KeyOf(l) != KeyOf(last)
  {
    var front, last := links[..|links| - 1], links[|links| - 1];
    forall l | l in front ensures KeyOf(l) != KeyOf(last) {
      var i :| 0 <= i < |front| && front[i] == l;
      assert KeyOf(links[i]) != KeyOf(links[|links| - 1]);
    }
  }

  lemma {:induction false} SignaturesOnce(links: seq<Link>, id: string, s: Signature)
    requires DistinctKeys(links)
    ensures IncomingOf(links, id)[s] <= 1 && OutgoingOf(links, id)[s] <= 1
    decreases |links|
  {
    if links != [] {
      LastKeyIsNew(links);
      SignaturesOnce(links[..|links| - 1], id, s);
      SignaturesListed(links[..|links| - 1], id, s);
    }
  }

  lemma JoinedIsSignature(links: seq<Link>, id: string, s: Signature)
    ensures s in IncomingOf(links, id) <==> Joined(links, s.other, id, s.caption, s.grant, s.crossAccount)
    ensures s in OutgoingOf(links, id) <==> Joined(links, id, s.other, s.caption, s.grant, s.crossAccount)
  {
    SignaturesListed(links, id, s);
  }

  lemma SameMultisets(x: multiset<Signature>, y: multiset<Signature>)
    requires forall s :: x[s] <= 1 && y[s] <= 1 && (s in x <==> s in y)
    ensures x == y
  {
    forall s ensures x[s] == y[s] { assert s in x <==> s in y; }
  }

  lemma IncomingSays(links: seq<Link>, a: string, b: string)
    requires DistinctKeys(links)
    ensures IncomingOf(links, a) == IncomingOf(links, b) <==> SameIncoming(links, a, b)
  {
    var x, y := IncomingOf(links, a), IncomingOf(links, b);
    if x == y {
      forall other, caption, grant, crossAccount
        ensures Joined(links, other, a, caption, grant, crossAccount) <==> Joined(links, other, b, caption, grant, crossAccount)
      {
        var s := Signature(other, caption, grant, crossAccount);
        JoinedIsSignature(links, a, s);
        JoinedIsSignature(links, b, s);
      }
    }
    if SameIncoming(links, a, b) {
      forall s: Signature ensures x[s] <= 1 && y[s] <= 1 && (s in x <==> s in y) {
        SignaturesOnce(links, a, s);
        SignaturesOnce(links, b, s);
        JoinedIsSignature(links, a, s);
        JoinedIsSignature(links, b, s);
      }
      SameMultisets(x, y);
    }
  }

  lemma OutgoingSays(links: seq<Link>, a: string, b: string)
    requires DistinctKeys(links)
    ensures OutgoingOf(links, a) == OutgoingOf(links, b) <==> SameOutgoing(links, a, b)
  {
    var x, y := OutgoingOf(links, a), OutgoingOf(links, b);
    if x == y {
      forall other, caption, grant, crossAccount
        ensures Joined(links, a, other, caption, grant, crossAccount) <==> Joined(links, b, other, caption, grant, crossAccount)
      {
        var s := Signature(other, caption, grant, crossAccount);
        JoinedIsSignature(links, a, s);
        JoinedIsSignature(links, b, s);
      }
    }
    if SameOutgoing(links, a, b) {
      forall s: Signature ensures x[s] <= 1 && y[s] <= 1 && (s in x <==> s in y) {
        SignaturesOnce(links, a, s);
        SignaturesOnce(links, b, s);
        JoinedIsSignature(links, a, s);
        JoinedIsSignature(links, b, s);
      }
      SameMultisets(x, y);
    }
  }

  lemma BucketSays(model: Model, a: Node, b: Node)
    requires WellFormed(model)
    ensures BucketOf(model, a) == BucketOf(model, b) <==> Indistinguishable(model, a, b)
  {
    IncomingSays(model.links, a.id, b.id);
    OutgoingSays(model.links, a.id, b.id);
  }

  // ----- who shares a card

  /** The first node, in the order of the model, that could share a card with n. */
  ghost predicate FirstLike(model: Model, n: Node, i: int) {
    && 0 <= i < |model.nodes| && model.nodes[i].id != "khalifa:internet" && Indistinguishable(model, model.nodes[i], n)
    && forall j :: 0 <= j < i ==> model.nodes[j].id == "khalifa:internet" || !Indistinguishable(model, model.nodes[j], n)
  }

  /** The first node like n is expanded, which keeps all like it apart. */
  ghost predicate FirstExpanded(model: Model, expanded: set<string>, n: Node) {
    exists i :: FirstLike(model, n, i) && model.nodes[i].id in expanded
  }

  lemma {:induction false} FirstMember(model: Model, nodes: seq<Node>, b: Bucket) returns (i: nat)
    requires MembersOf(model, nodes, b) != []
    ensures i < |nodes| && nodes[i] == MembersOf(model, nodes, b)[0] && nodes[i].id != INTERNET_ID && BucketOf(model, nodes[i]) == b
    ensures forall j :: 0 <= j < i ==> nodes[j].id == INTERNET_ID || BucketOf(model, nodes[j]) != b
    decreases |nodes|
  {
    var front := nodes[..|nodes| - 1];
    if MembersOf(model, front, b) != [] {
      i := FirstMember(model, front, b);
      forall j | 0 <= j < i ensures nodes[j].id == INTERNET_ID || BucketOf(model, nodes[j]) != b { assert front[j] == nodes[j]; }
    } else {
      i := |nodes| - 1;
      forall j | 0 <= j < i ensures nodes[j].id == INTERNET_ID || BucketOf(model, nodes[j]) != b {
        MembersListed(model, front, b, nodes[j]);
        assert front[j] == nodes[j];
      }
    }
  }

  lemma MemberFirst(model: Model, n: Node) returns (i: nat)
    requires WellFormed(model) && n in model.nodes && n.id != "khalifa:internet"
    ensures FirstLike(model, n, i)
    ensures var g := MembersOf(model, model.nodes, BucketOf(model, n)); g != [] && g[0] == model.nodes[i]
  {
    MembersListed(model, model.nodes, BucketOf(model, n), n);
    i := FirstMember(model, model.nodes, BucketOf(model, n));
    forall m ensures BucketOf(model, m) == BucketOf(model, n) <==> Indistinguishable(model, m, n) { BucketSays(model, m, n); }
  }

  lemma TwoMembers(g: seq<Node>, a: Node, b: Node)
    requires a in g && b in g && a != b
    ensures |g| >= 2
  {
    var i, j :| 0 <= i < |g| && 0 <= j < |g| && g[i] == a && g[j] == b;
  }

  /** Where a node is drawn: beside another that nothing tells from it, both are drawn as the first such
      node unless that one is expanded; alone, a node is drawn as itself. */
  lemma DrawnAsFirst(model: Model, expanded: set<string>, a: Node) returns (i: nat)
    requires WellFormed(model) && a in model.nodes && a.id != "khalifa:internet"
    ensures FirstLike(model, a, i)
    ensures CardOf(model, expanded, a) == a.id || CardOf(model, expanded, a) == model.nodes[i].id
    ensures (exists b :: b in model.nodes && b != a && b.id != "khalifa:internet" && Indistinguishable(model, b, a))
            ==> CardOf(model, expanded, a) == if model.nodes[i].id in expanded then a.id else model.nodes[i].id
  {
    i := MemberFirst(model, a);
    if b :| b in model.nodes && b != a && b.id != "khalifa:internet" && Indistinguishable(model, b, a) {
      BucketSays(model, b, a);
      var g := MembersOf(model, model.nodes, BucketOf(model, a));
      MembersListed(model, model.nodes, BucketOf(model, a), a);
      MembersListed(model, model.nodes, BucketOf(model, a), b);
      TwoMembers(g, a, b);
    }
  }

  /** Two nodes are drawn as one card exactly when neither is the internet, nothing tells them apart, and
      the first node like them is not expanded. */
  lemma ShareCardExactlyWhen(model: Model, expanded: set<string>, groupOf: map<string, string>, a: Node, b: Node)
    requires WellFormed(model) && Groups(model, expanded, groupOf) && a in model.nodes && b in model.nodes && a != b
    ensures To(groupOf, a.id) == To(groupOf, b.id)
       <==> && a.id != "khalifa:internet" && b.id != "khalifa:internet" && Indistinguishable(model, a, b)
            && !FirstExpanded(model, expanded, a)
  {
    if a.id == b.id { SameIdSame(model.nodes, a, b); }
    BucketSays(model, a, b);
    if To(groupOf, a.id) == To(groupOf, b.id) {
      SharedSays(model, expanded, groupOf, a, b);
    }
    if a.id != "khalifa:internet" && b.id != "khalifa:internet" && Indistinguishable(model, a, b) {
      if !FirstExpanded(model, expanded, a) { DrawnTogether(model, expanded, a, b); }
    }
  }

  lemma SharedBucket(model: Model, expanded: set<string>, groupOf: map<string, string>, a: Node, b: Node)
    requires WellFormed(model) && Groups(model, expanded, groupOf) && a in model.nodes && b in model.nodes && a.id != b.id
    requires To(groupOf, a.id) == To(groupOf, b.id)
    ensures BucketOf(model, a) == BucketOf(model, b)
  {
    GroupsAreFaithful(model, expanded, groupOf);
    SharedCard(model, groupOf, a.id, b.id);
    var n, n' :| n in model.nodes && n' in model.nodes && n.id == a.id && n'.id == b.id && BucketOf(model, n) == BucketOf(model, n');
    SameIdSame(model.nodes, n, a);
    SameIdSame(model.nodes, n', b);
  }

  lemma FirstNotExpanded(model: Model, expanded: set<string>, a: Node)
    requires WellFormed(model) && a in model.nodes && a.id != "khalifa:internet"
    requires Collapsed(MembersOf(model, model.nodes, BucketOf(model, a)), expanded)
    ensures !FirstExpanded(model, expanded, a)
  {
    var i := MemberFirst(model, a);
    forall k | FirstLike(model, a, k) ensures k == i {}
  }

  lemma SharedSays(model: Model, expanded: set<string>, groupOf: map<string, string>, a: Node, b: Node)
    requires WellFormed(model) && Groups(model, expanded, groupOf) && a in model.nodes && b in model.nodes && a.id != b.id
    requires To(groupOf, a.id) == To(groupOf, b.id)
    ensures a.id != "khalifa:internet" && b.id != "khalifa:internet" && BucketOf(model, a) == BucketOf(model, b)
    ensures !FirstExpanded(model, expanded, a)
  {
    SharedBucket(model, expanded, groupOf, a, b);
    var g := MembersOf(model, model.nodes, BucketOf(model, a));
    assert CardOf(model, expanded, a) == CardOf(model, expanded, b);
    assert Collapsed(g, expanded);
    MembersListed(model, model.nodes, BucketOf(model, a), g[0]);
    FirstNotExpanded(model, expanded, a);
  }

  lemma DrawnTogether(model: Model, expanded: set<string>, a: Node, b: Node)
    requires WellFormed(model) && a in model.nodes && b in model.nodes && a != b && Indistinguishable(model, a, b)
    requires a.id != "khalifa:internet" && b.id != "khalifa:internet" && !FirstExpanded(model, expanded, a)
    ensures CardOf(model, expanded, a) == CardOf(model, expanded, b)
  {
    BucketSays(model, a, b);
    var g := MembersOf(model, model.nodes, BucketOf(model, a));
    MembersListed(model, model.nodes, BucketOf(model, a), a);
    MembersListed(model, model.nodes, BucketOf(model, a), b);
    TwoMembers(g, a, b);
    var i := MemberFirst(model, a);
  }

  // ----- links, nodes and paths as drawn

  /** The i-th link is the first between its two cards, and d is that link between the cards. */
  predicate DrawnAs(groupOf: map<string, string>, links: seq<Link>, i: int, d: Link) {
    && 0 <= i < |links| && FirstBetween(groupOf, links, i)
    && d == links[i].(from := To(groupOf, links[i].from), to := To(groupOf, links[i].to))
  }

  /** Of the links between the same two cards the first one is drawn, with its own caption, kind, flag and
      policy, and no other. */
  lemma {:induction false} FirstLinkDrawn(groupOf: map<string, string>, links: seq<Link>, d: Link)
    ensures d in DrawnLinks(groupOf, links) <==> exists i :: DrawnAs(groupOf, links, i, d)
    decreases |links|
  {
    if links != [] {
      var front, last := links[..|links| - 1], links[|links| - 1];
      FirstLinkDrawn(groupOf, front, d);
      KeyDrawn(groupOf, front, last);
      DrawnAsMore(groupOf, front, last, d);
      assert links == front + [last];
    }
  }

  lemma DrawnAsMore(groupOf: map<string, string>, front: seq<Link>, last: Link, d: Link)
    ensures (exists i :: DrawnAs(groupOf, front + [last], i, d))
       <==> (exists i :: DrawnAs(groupOf, front, i, d))
            || (d == MapLink(groupOf, last) && !exists j :: 0 <= j < |front| && SameEnds(groupOf, front[j], last))
  {
    var links, n := front + [last], |front|;
    forall i | 0 <= i < n ensures DrawnAs(groupOf, links, i, d) <==> DrawnAs(groupOf, front, i, d) { BetweenSays(groupOf, front, last, i); }
    BetweenSays(groupOf, front, last, n);
    if i :| DrawnAs(groupOf, links, i, d) { if i < n { assert DrawnAs(groupOf, front, i, d); } }
    if i :| DrawnAs(groupOf, front, i, d) { assert DrawnAs(groupOf, links, i, d); }
    if d == MapLink(groupOf, last) && !exists j :: 0 <= j < n && SameEnds(groupOf, front[j], last) { assert DrawnAs(groupOf, links, n, d); }
  }

  lemma BetweenSays(groupOf: map<string, string>, front: seq<Link>, last: Link, i: int)
    requires 0 <= i <= |front|
    ensures (front + [last])[i] == if i < |front| then front[i] else last
    ensures FirstBetween(groupOf, front + [last], i)
       <==> if i < |front| then FirstBetween(groupOf, front, i) else forall j :: 0 <= j < |front| ==> !SameEnds(groupOf, front[j], last)
  {
    var links := front + [last];
    forall j | 0 <= j < |front| ensures links[j] == front[j] {}
    if FirstBetween(groupOf, links, i) {
      forall j | 0 <= j < i ensures !SameEnds(groupOf, front[j], links[i]) { assert !SameEnds(groupOf, links[j], links[i]); }
    }
  }

  predicate SameEnds(groupOf: map<string, string>, a: Link, b: Link) {
    To(groupOf, a.from) == To(groupOf, b.from) && To(groupOf, a.to) == To(groupOf, b.to)
  }

  predicate FirstBetween(groupOf: map<string, string>, links: seq<Link>, i: int)
    requires 0 <= i < |links|
  {
    forall j :: 0 <= j < i ==> !SameEnds(groupOf, links[j], links[i])
  }

  lemma KeyDrawn(groupOf: map<string, string>, front: seq<Link>, last: Link)
    ensures HasKey(DrawnLinks(groupOf, front), KeyOf(MapLink(groupOf, last)))
       <==> exists j :: 0 <= j < |front| && SameEnds(groupOf, front[j], last)
  {
    DrawnFromLinks(groupOf, front);
    if d :| d in DrawnLinks(groupOf, front) && KeyOf(d) == KeyOf(MapLink(groupOf, last)) {
      var l :| l in front && MapLink(groupOf, l) == d;
      var j :| 0 <= j < |front| && front[j] == l;
      assert SameEnds(groupOf, front[j], last);
    }
    if j :| 0 <= j < |front| && SameEnds(groupOf, front[j], last) { assert front[j] in front; }
  }

  /** The first place of a value. */
  predicate FirstAt<T(==)>(xs: seq<T>, x: T, i: int) { 0 <= i < |xs| && xs[i] == x && forall j :: 0 <= j < i ==> xs[j] != x }

  /** A path's ids and keys stay in the order of their first places, each once. */
  lemma {:induction false} DistinctInOrder<T(!new)>(xs: seq<T>, i: nat, j: nat) returns (a: int, b: int)
    requires i < j < |Distinct(xs)|
    ensures FirstAt(xs, Distinct(xs)[i], a) && FirstAt(xs, Distinct(xs)[j], b) && a < b && Distinct(xs)[i] != Distinct(xs)[j]
    decreases |xs|
  {
    var front, n := xs[..|xs| - 1], |xs| - 1;
    if j < |Distinct(front)| {
      a, b := DistinctInOrder(front, i, j);
    } else {
      a := FirstPlace(front, Distinct(front)[i]);
      b := n;
      forall k | 0 <= k < n ensures xs[k] != Distinct(xs)[j] { assert front[k] in front; }
    }
  }

  lemma FirstPlace<T(!new)>(xs: seq<T>, x: T) returns (a: int)
    requires x in xs
    ensures FirstAt(xs, x, a)
  {
    a :| 0 <= a < |xs| && xs[a] == x;
    while exists j :: 0 <= j < a && xs[j] == x
      invariant 0 <= a < |xs| && xs[a] == x
      decreases a
    {
      var j :| 0 <= j < a && xs[j] == x;
      a := j;
    }
  }

  /** A drawn path starts at its start's card, and visits the cards of its ids and the drawn keys of its
      links. */
  lemma PathDrawn(groupOf: map<string, string>, linkOf: map<(string, string), (string, string)>, path: Path)
    ensures var p := MapPath(groupOf, linkOf, path);
            && p.startId == To(groupOf, path.startId)
            && (forall id :: id in p.nodeIds <==> exists i :: 0 <= i < |path.nodeIds| && To(groupOf, path.nodeIds[i]) == id)
            && (forall k :: k in p.linkKeys
                  <==> exists i :: 0 <= i < |path.linkKeys| && k == if path.linkKeys[i] in linkOf then linkOf[path.linkKeys[i]] else path.linkKeys[i])
  {
    var ids := MapIds(groupOf, path.nodeIds);
    var keys := seq(|path.linkKeys|, i requires 0 <= i < |path.linkKeys| => LinkKeyTo(linkOf, path.linkKeys[i]));
    var p := MapPath(groupOf, linkOf, path);
    forall id ensures id in p.nodeIds <==> exists i :: 0 <= i < |path.nodeIds| && To(groupOf, path.nodeIds[i]) == id {
      if i :| 0 <= i < |path.nodeIds| && To(groupOf, path.nodeIds[i]) == id { assert ids[i] == id; }
      if id in ids { var i :| 0 <= i < |ids| && ids[i] == id; }
    }
    forall k ensures k in p.linkKeys
                <==> exists i :: 0 <= i < |path.linkKeys| && k == if path.linkKeys[i] in linkOf then linkOf[path.linkKeys[i]] else path.linkKeys[i] {
      if i :| 0 <= i < |path.linkKeys| && k == if path.linkKeys[i] in linkOf then linkOf[path.linkKeys[i]] else path.linkKeys[i] {
        assert keys[i] == k;
      }
      if k in keys { var i :| 0 <= i < |keys| && keys[i] == k; }
    }
  }
}
