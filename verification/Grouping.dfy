/** The attack graph as drawn, and the merging of indistinguishable siblings into one card. */
module Grouping {
  import opened Basics

  datatype Grant = Access | Conditional | Deny

  /** `via` is a caption only; everything else decides how a link is drawn. */
  datatype Link = Link(from: string, to: string, caption: string, crossAccount: bool, grant: Grant, via: Option<string>)

  datatype Flag = Flag(level: string, text: string)

  datatype Node = Node(id: string, labelName: string, stage: string, account: Option<string>, external: bool, risks: seq<Flag>)

  datatype Path = Path(startId: string, nodeIds: seq<string>, linkKeys: seq<(string, string)>)

  datatype Model = Model(nodes: seq<Node>, links: seq<Link>, paths: seq<Path>)

  const INTERNET_ID := "khalifa:internet"

  function KeyOf(link: Link): (string, string) { (link.from, link.to) }

  /** What the builder guarantees of a model: one node per id, one link per pair of ids. */
  ghost predicate DistinctIds(nodes: seq<Node>) {
    forall i, j :: 0 <= i < j < |nodes| ==> nodes[i].id != nodes[j].id
  }

  lemma SameIdSame(nodes: seq<Node>, n: Node, n': Node)
    requires DistinctIds(nodes) && n in nodes && n' in nodes && n.id == n'.id
    ensures n == n'
  {
    var i :| 0 <= i < |nodes| && nodes[i] == n;
    var j :| 0 <= j < |nodes| && nodes[j] == n';
  }

  ghost predicate WellFormed(model: Model) {
    && DistinctIds(model.nodes)
    && (forall i, j :: 0 <= i < j < |model.links| ==> KeyOf(model.links[i]) != KeyOf(model.links[j]))
  }

  // ----- when two nodes are indistinguishable

  datatype Signature = Signature(other: string, caption: string, grant: Grant, crossAccount: bool)

  function IncomingOf(links: seq<Link>, id: string): multiset<Signature> {
    if links == [] then multiset{} else
      var last := links[|links| - 1];
      IncomingOf(links[..|links| - 1], id)
      + if last.to == id then multiset{Signature(last.from, last.caption, last.grant, last.crossAccount)} else multiset{}
  }

  function OutgoingOf(links: seq<Link>, id: string): multiset<Signature> {
    if links == [] then multiset{} else
      var last := links[|links| - 1];
      OutgoingOf(links[..|links| - 1], id)
      + if last.from == id then multiset{Signature(last.to, last.caption, last.grant, last.crossAccount)} else multiset{}
  }

  /** The bucket a node falls in; sorting the lists there makes them multisets. */
  datatype Bucket = Bucket(account: Option<string>, external: bool, labelName: string, stage: string,
                           risks: multiset<Flag>, incoming: multiset<Signature>, outgoing: multiset<Signature>)

  function BucketOf(model: Model, node: Node): Bucket {
    Bucket(node.account, node.external, node.labelName, node.stage, multiset(node.risks),
           IncomingOf(model.links, node.id), OutgoingOf(model.links, node.id))
  }

  lemma {:induction false} IncomingListed(links: seq<Link>, id: string, s: Signature)
    ensures s in IncomingOf(links, id)
       <==> exists l :: l in links && l.to == id && s == Signature(l.from, l.caption, l.grant, l.crossAccount)
    decreases |links|
  {
    if links != [] {
      var front, last := links[..|links| - 1], links[|links| - 1];
      IncomingListed(front, id, s);
      assert forall l :: l in links <==> l in front || l == last;
    }
  }

  lemma {:induction false} OutgoingListed(links: seq<Link>, id: string, s: Signature)
    ensures s in OutgoingOf(links, id)
       <==> exists l :: l in links && l.from == id && s == Signature(l.to, l.caption, l.grant, l.crossAccount)
    decreases |links|
  {
    if links != [] {
      var front, last := links[..|links| - 1], links[|links| - 1];
      OutgoingListed(front, id, s);
      assert forall l :: l in links <==> l in front || l == last;
    }
  }

  lemma SignaturesListed(links: seq<Link>, id: string, s: Signature)
    ensures s in IncomingOf(links, id)
       <==> exists l :: l in links && l.to == id && s == Signature(l.from, l.caption, l.grant, l.crossAccount)
    ensures s in OutgoingOf(links, id)
       <==> exists l :: l in links && l.from == id && s == Signature(l.to, l.caption, l.grant, l.crossAccount)
  {
    IncomingListed(links, id, s);
    OutgoingListed(links, id, s);
  }

  // ----- the drawing, specified

  function MembersOf(model: Model, nodes: seq<Node>, bucket: Bucket): seq<Node> {
    if nodes == [] then [] else
      var rest := MembersOf(model, nodes[..|nodes| - 1], bucket);
      var last := nodes[|nodes| - 1];
      if last.id != INTERNET_ID && BucketOf(model, last) == bucket then rest + [last] else rest
  }

  lemma {:induction false} MembersListed(model: Model, nodes: seq<Node>, bucket: Bucket, n: Node)
    ensures n in MembersOf(model, nodes, bucket)
       <==> n in nodes && n.id != INTERNET_ID && BucketOf(model, n) == bucket
    decreases |nodes|
  {
    if nodes != [] {
      MembersListed(model, nodes[..|nodes| - 1], bucket, n);
      assert nodes == nodes[..|nodes| - 1] + [nodes[|nodes| - 1]];
    }
  }

  /** `drawn` sends each id to the card it is drawn as. Two ids share a card only when they name
      nodes of one bucket. */
  ghost predicate Faithful(model: Model, drawn: map<string, string>) {
    forall id, id' :: id in drawn && To(drawn, id') == drawn[id] ==> id == id' || Alike(model, id, id')
  }

  ghost predicate Alike(model: Model, id: string, id': string) {
    exists n, n' :: n in model.nodes && n' in model.nodes && n.id == id && n'.id == id'
                 && BucketOf(model, n) == BucketOf(model, n')
  }

  function To(drawn: map<string, string>, id: string): string {
    if id in drawn then drawn[id] else id
  }

  function MapLink(drawn: map<string, string>, link: Link): Link {
    link.(from := To(drawn, link.from), to := To(drawn, link.to))
  }

  predicate HasKey(links: seq<Link>, key: (string, string)) {
    exists l :: l in links && KeyOf(l) == key
  }

  /** The mapped links, the first one winning for each pair of cards. */
  function DrawnLinks(drawn: map<string, string>, links: seq<Link>): seq<Link> {
    if links == [] then [] else
      var rest := DrawnLinks(drawn, links[..|links| - 1]);
      var mapped := MapLink(drawn, links[|links| - 1]);
      if HasKey(rest, KeyOf(mapped)) then rest else rest + [mapped]
  }

  lemma {:induction false} DrawnFromLinks(drawn: map<string, string>, links: seq<Link>)
    ensures forall d :: d in DrawnLinks(drawn, links) ==> exists l :: l in links && MapLink(drawn, l) == d
    ensures forall l :: l in links ==> HasKey(DrawnLinks(drawn, links), KeyOf(MapLink(drawn, l)))
    decreases |links|
  {
    if links != [] {
      var front, last := links[..|links| - 1], links[|links| - 1];
      DrawnFromLinks(drawn, front);
      assert links == front + [last];
      forall d | d in DrawnLinks(drawn, links) ensures exists l :: l in links && MapLink(drawn, l) == d {
        if d in DrawnLinks(drawn, front) {
          var l :| l in front && MapLink(drawn, l) == d;
          assert l in links;
        } else {
          assert last in links;
        }
      }
      forall l | l in links ensures HasKey(DrawnLinks(drawn, links), KeyOf(MapLink(drawn, l))) {
        if l in front {
          var d :| d in DrawnLinks(drawn, front) && KeyOf(d) == KeyOf(MapLink(drawn, l));
          assert d in DrawnLinks(drawn, links);
        } else if HasKey(DrawnLinks(drawn, front), KeyOf(MapLink(drawn, last))) {
          var d :| d in DrawnLinks(drawn, front) && KeyOf(d) == KeyOf(MapLink(drawn, last));
          assert d in DrawnLinks(drawn, links);
        } else {
          assert MapLink(drawn, last) in DrawnLinks(drawn, links);
        }
      }
    }
  }

  // ----- the merge loses and adds nothing

  predicate SameDrawing(a: Link, b: Link) {
    a.caption == b.caption && a.grant == b.grant && a.crossAccount == b.crossAccount
  }

  /** A link to or from a node is there, drawn the same way, for every node of its bucket. */
  lemma AlikeTargets(model: Model, link: Link, id: string)
    requires link in model.links && (link.to == id || Alike(model, link.to, id))
    ensures exists l :: l in model.links && l.from == link.from && l.to == id && SameDrawing(l, link)
  {
    if link.to != id {
      var s := Signature(link.from, link.caption, link.grant, link.crossAccount);
      SignaturesListed(model.links, link.to, s);
      SignaturesListed(model.links, id, s);
    }
  }

  lemma AlikeSources(model: Model, link: Link, id: string)
    requires link in model.links && (link.from == id || Alike(model, link.from, id))
    ensures exists l :: l in model.links && l.to == link.to && l.from == id && SameDrawing(l, link)
  {
    if link.from != id {
      var s := Signature(link.to, link.caption, link.grant, link.crossAccount);
      SignaturesListed(model.links, link.from, s);
      SignaturesListed(model.links, id, s);
    }
  }

  lemma SharedCard(model: Model, drawn: map<string, string>, a: string, b: string)
    requires Faithful(model, drawn) && To(drawn, a) == To(drawn, b)
    ensures a == b || Alike(model, a, b)
  {
    if a in drawn {
      assert To(drawn, b) == drawn[a];
    } else if b in drawn {
      assert To(drawn, a) == drawn[b];
      var n, n' :| n in model.nodes && n' in model.nodes && n.id == b && n'.id == a && BucketOf(model, n) == BucketOf(model, n');
    }
  }

  /** Every drawn link stands for a link, drawn the same way, between every pair of members. */
  lemma DrawnLinkJoinsAllMembers(model: Model, drawn: map<string, string>, d: Link, a: string, b: string)
    requires Faithful(model, drawn) && d in DrawnLinks(drawn, model.links)
    requires To(drawn, a) == d.from && To(drawn, b) == d.to
    ensures exists l :: l in model.links && l.from == a && l.to == b && SameDrawing(l, d)
  {
    DrawnFromLinks(drawn, model.links);
    var l0 :| l0 in model.links && MapLink(drawn, l0) == d;
    SharedCard(model, drawn, l0.from, a);
    AlikeSources(model, l0, a);
    var l1 :| l1 in model.links && l1.to == l0.to && l1.from == a && SameDrawing(l1, l0);
    SharedCard(model, drawn, l1.to, b);
    AlikeTargets(model, l1, b);
  }

  /** And every link is drawn, with its own caption, grant and account flag. */
  lemma EveryLinkIsDrawn(model: Model, drawn: map<string, string>, link: Link)
    requires WellFormed(model) && Faithful(model, drawn) && link in model.links
    ensures exists d :: d in DrawnLinks(drawn, model.links) && SameDrawing(d, link)
                     && d.from == To(drawn, link.from) && d.to == To(drawn, link.to)
  {
    DrawnFromLinks(drawn, model.links);
    var d :| d in DrawnLinks(drawn, model.links) && KeyOf(d) == KeyOf(MapLink(drawn, link));
    DrawnLinkJoinsAllMembers(model, drawn, d, link.from, link.to);
    var l :| l in model.links && l.from == link.from && l.to == link.to && SameDrawing(l, d);
    var i :| 0 <= i < |model.links| && model.links[i] == l;
    var j :| 0 <= j < |model.links| && model.links[j] == link;
    assert KeyOf(l) == KeyOf(link);
  }

  // ----- reach

  /** A walk of at least one link, named by the ids it visits. */
  ghost predicate IsWalk(links: seq<Link>, ids: seq<string>) {
    |ids| >= 2 && forall i :: 0 <= i < |ids| - 1 ==> HasKey(links, (ids[i], ids[i + 1]))
  }

  ghost predicate Reaches(links: seq<Link>, x: string, y: string) {
    exists ids :: IsWalk(links, ids) && ids[0] == x && ids[|ids| - 1] == y
  }

  function MapIds(drawn: map<string, string>, ids: seq<string>): seq<string> {
    seq(|ids|, i requires 0 <= i < |ids| => To(drawn, ids[i]))
  }

  lemma WalkIsDrawn(model: Model, drawn: map<string, string>, ids: seq<string>)
    requires IsWalk(model.links, ids)
    ensures IsWalk(DrawnLinks(drawn, model.links), MapIds(drawn, ids))
  {
    DrawnFromLinks(drawn, model.links);
    forall i | 0 <= i < |ids| - 1
      ensures HasKey(DrawnLinks(drawn, model.links), (MapIds(drawn, ids)[i], MapIds(drawn, ids)[i + 1]))
    {
      assert HasKey(model.links, (ids[i], ids[i + 1]));
      var l :| l in model.links && KeyOf(l) == (ids[i], ids[i + 1]);
      assert KeyOf(MapLink(drawn, l)) == (MapIds(drawn, ids)[i], MapIds(drawn, ids)[i + 1]);
    }
  }

  lemma StepLifts(model: Model, drawn: map<string, string>, a: string, b: string)
    requires Faithful(model, drawn) && HasKey(DrawnLinks(drawn, model.links), (To(drawn, a), To(drawn, b)))
    ensures HasKey(model.links, (a, b))
  {
    var d :| d in DrawnLinks(drawn, model.links) && KeyOf(d) == (To(drawn, a), To(drawn, b));
    DrawnLinkJoinsAllMembers(model, drawn, d, a, b);
  }

  lemma {:induction false} WalkLifts(model: Model, drawn: map<string, string>, cards: seq<string>, x: string, y: string)
    returns (ids: seq<string>)
    requires Faithful(model, drawn) && IsWalk(DrawnLinks(drawn, model.links), cards)
    requires To(drawn, x) == cards[0] && To(drawn, y) == cards[|cards| - 1]
    ensures IsWalk(model.links, ids) && ids[0] == x && ids[|ids| - 1] == y
    decreases |cards|
  {
    var links := DrawnLinks(drawn, model.links);
    assert HasKey(links, (cards[0], cards[1]));
    if |cards| == 2 {
      StepLifts(model, drawn, x, y);
      ids := [x, y];
    } else {
      // the middle card is the end of a drawn link, hence the card of some id
      DrawnFromLinks(drawn, model.links);
      var d :| d in links && KeyOf(d) == (cards[0], cards[1]);
      var l :| l in model.links && MapLink(drawn, l) == d;
      StepLifts(model, drawn, x, l.to);
      var rest := cards[1..];
      forall i | 0 <= i < |rest| - 1 ensures HasKey(links, (rest[i], rest[i + 1])) {
        assert HasKey(links, (cards[i + 1], cards[i + 2]));
      }
      var tail := WalkLifts(model, drawn, rest, l.to, y);
      ids := [x] + tail;
      forall i | 0 <= i < |ids| - 1 ensures HasKey(model.links, (ids[i], ids[i + 1])) {
        if i > 0 { assert HasKey(model.links, (tail[i - 1], tail[i])); }
      }
    }
  }

  /** Grouping preserves reach exactly, for any ids and any set of expanded groups. */
  lemma GroupingPreservesReach(model: Model, drawn: map<string, string>, x: string, y: string)
    requires Faithful(model, drawn)
    ensures Reaches(model.links, x, y) <==> Reaches(DrawnLinks(drawn, model.links), To(drawn, x), To(drawn, y))
  {
    if Reaches(model.links, x, y) {
      var ids :| IsWalk(model.links, ids) && ids[0] == x && ids[|ids| - 1] == y;
      WalkIsDrawn(model, drawn, ids);
      assert MapIds(drawn, ids)[0] == To(drawn, x) && MapIds(drawn, ids)[|ids| - 1] == To(drawn, y);
    }
    if Reaches(DrawnLinks(drawn, model.links), To(drawn, x), To(drawn, y)) {
      var cards :| IsWalk(DrawnLinks(drawn, model.links), cards)
                && cards[0] == To(drawn, x) && cards[|cards| - 1] == To(drawn, y);
      var ids := WalkLifts(model, drawn, cards, x, y);
    }
  }

  // ----- the algorithm

  datatype Grouped = Grouped(model: Model, groupOf: map<string, string>, members: map<string, seq<Node>>,
                             linkOf: map<(string, string), (string, string)>)

  function Distinct<T(==, !new)>(xs: seq<T>): (r: seq<T>)
    ensures forall x :: x in r <==> x in xs
  {
    if xs == [] then [] else
      var rest := Distinct(xs[..|xs| - 1]);
      assert xs == xs[..|xs| - 1] + [xs[|xs| - 1]];
      if xs[|xs| - 1] in rest then rest else rest + [xs[|xs| - 1]]
  }

  function LinkKeyTo(linkOf: map<(string, string), (string, string)>, key: (string, string)): (string, string) {
    if key in linkOf then linkOf[key] else key
  }

  function MapPath(groupOf: map<string, string>, linkOf: map<(string, string), (string, string)>, path: Path): Path {
    Path(To(groupOf, path.startId), Distinct(MapIds(groupOf, path.nodeIds)),
         Distinct(seq(|path.linkKeys|, i requires 0 <= i < |path.linkKeys| => LinkKeyTo(linkOf, path.linkKeys[i]))))
  }

  /** The buckets after the nodes `done`. */
  ghost predicate Filled(model: Model, done: seq<Node>, order: seq<Bucket>, buckets: map<Bucket, seq<Node>>) {
    && (forall b :: b in buckets <==> b in order)
    && (forall b :: MembersOf(model, done, b) == if b in buckets then buckets[b] else [])
    && (forall b :: b in buckets ==> buckets[b] != [])
  }

  lemma FillOneMore(model: Model, done: seq<Node>, order: seq<Bucket>, buckets: map<Bucket, seq<Node>>, node: Node)
    requires Filled(model, done, order, buckets)
    ensures node.id == INTERNET_ID ==> Filled(model, done + [node], order, buckets)
    ensures node.id != INTERNET_ID ==>
              var key := BucketOf(model, node);
              var group := if key in buckets then buckets[key] else [];
              Filled(model, done + [node], if key in buckets then order else order + [key], buckets[key := group + [node]])
  {
    forall b { MembersOneLonger(model, done, node, b); }
  }

  lemma MembersOneLonger(model: Model, done: seq<Node>, node: Node, b: Bucket)
    ensures MembersOf(model, done + [node], b)
         == MembersOf(model, done, b) + if node.id != INTERNET_ID && BucketOf(model, node) == b then [node] else []
  {
    assert (done + [node])[..|done|] == done;
  }

  method FillBuckets(model: Model) returns (order: seq<Bucket>, buckets: map<Bucket, seq<Node>>)
    ensures Filled(model, model.nodes, order, buckets)
  {
    order, buckets := [], map[];
    for i := 0 to |model.nodes|
      invariant Filled(model, model.nodes[..i], order, buckets)
    {
      var node := model.nodes[i];
      assert model.nodes[..i + 1] == model.nodes[..i] + [node];
      FillOneMore(model, model.nodes[..i], order, buckets, node);
      if node.id != INTERNET_ID {
        var key := BucketOf(model, node);
        if key in buckets {
          buckets := buckets[key := buckets[key] + [node]];
        } else {
          order := order + [key];
          buckets := buckets[key := [] + [node]];
        }
      }
    }
    assert model.nodes[..|model.nodes|] == model.nodes;
  }

  /** A bucket is drawn as one card named after its first member, unless it is alone or expanded. */
  predicate Collapsed(group: seq<Node>, expanded: set<string>) {
    |group| >= 2 && group[0].id !in expanded
  }

  function CardOf(model: Model, expanded: set<string>, node: Node): string {
    var group := MembersOf(model, model.nodes, BucketOf(model, node));
    if node.id != INTERNET_ID && Collapsed(group, expanded) then group[0].id else node.id
  }

  /** groupOf names the card of exactly the members of collapsed groups. */
  ghost predicate Groups(model: Model, expanded: set<string>, groupOf: map<string, string>) {
    && (forall n :: n in model.nodes ==> To(groupOf, n.id) == CardOf(model, expanded, n))
    && (forall id :: id in groupOf ==> InCollapsedGroup(model, expanded, id))
  }

  ghost predicate InCollapsedGroup(model: Model, expanded: set<string>, id: string) {
    exists n :: n in model.nodes && n.id == id && n.id != INTERNET_ID
             && Collapsed(MembersOf(model, model.nodes, BucketOf(model, n)), expanded)
  }

  lemma GroupsAreFaithful(model: Model, expanded: set<string>, groupOf: map<string, string>)
    requires WellFormed(model) && Groups(model, expanded, groupOf)
    ensures Faithful(model, groupOf)
  {
    forall id, id' | id in groupOf && To(groupOf, id') == groupOf[id] ensures id == id' || Alike(model, id, id') {
      var n :| n in model.nodes && n.id == id && n.id != INTERNET_ID
            && Collapsed(MembersOf(model, model.nodes, BucketOf(model, n)), expanded);
      var g := MembersOf(model, model.nodes, BucketOf(model, n));
      MembersListed(model, model.nodes, BucketOf(model, n), g[0]);
      assert groupOf[id] == g[0].id;
      if id' in groupOf {
        var n' :| n' in model.nodes && n'.id == id' && n'.id != INTERNET_ID
               && Collapsed(MembersOf(model, model.nodes, BucketOf(model, n')), expanded);
        var g' := MembersOf(model, model.nodes, BucketOf(model, n'));
        MembersListed(model, model.nodes, BucketOf(model, n'), g'[0]);
        SameIdSame(model.nodes, g[0], g'[0]);
      } else {
        assert id' == g[0].id && To(groupOf, g[0].id) == CardOf(model, expanded, g[0]);
      }
    }
  }

  function IdsOf(group: seq<Node>): set<string> { set n | n in group :: n.id }

  /** The card map with these ids sent to one card. */
  function SendAll(groupOf: map<string, string>, ids: set<string>, card: string): map<string, string> {
    groupOf + map id | id in ids :: card
  }

  lemma SendOneMore(groupOf: map<string, string>, ids: set<string>, id: string, card: string)
    ensures SendAll(groupOf, ids, card)[id := card] == SendAll(groupOf, ids + {id}, card)
  {
  }

  /** The inner loop: every member of one group is sent to its card. */
  method AssignGroup(groupOf: map<string, string>, group: seq<Node>, card: string) returns (r: map<string, string>)
    ensures r == SendAll(groupOf, IdsOf(group), card)
  {
    r := groupOf;
    assert r == SendAll(groupOf, {}, card);
    for j := 0 to |group|
      invariant r == SendAll(groupOf, IdsOf(group[..j]), card)
    {
      assert group[..j + 1] == group[..j] + [group[j]];
      assert IdsOf(group[..j + 1]) == IdsOf(group[..j]) + {group[j].id};
      SendOneMore(groupOf, IdsOf(group[..j]), group[j].id, card);
      r := r[group[j].id := card];
    }
    assert group[..|group|] == group;
  }

  /** groupOf after the buckets `done`: exactly the members of their collapsed groups. */
  ghost predicate GroupsSoFar(model: Model, expanded: set<string>, done: seq<Bucket>, groupOf: map<string, string>) {
    && (forall id :: id in groupOf ==> InBuckets(model, expanded, done, id, groupOf[id]))
    && (forall n :: n in model.nodes && SentBy(model, expanded, done, n) ==> n.id in groupOf)
  }

  ghost predicate SentBy(model: Model, expanded: set<string>, done: seq<Bucket>, n: Node) {
    n.id != INTERNET_ID && BucketOf(model, n) in done && CollapsedBucket(model, expanded, BucketOf(model, n))
  }

  predicate CollapsedBucket(model: Model, expanded: set<string>, b: Bucket) {
    Collapsed(MembersOf(model, model.nodes, b), expanded)
  }

  function FirstOf(model: Model, expanded: set<string>, b: Bucket): Node
    requires CollapsedBucket(model, expanded, b)
  {
    MembersOf(model, model.nodes, b)[0]
  }

  /** members after the buckets `done`: each collapsed group under the id of its first member. */
  ghost predicate MembersSoFar(model: Model, expanded: set<string>, done: seq<Bucket>, members: map<string, seq<Node>>) {
    && (forall b :: b in done && CollapsedBucket(model, expanded, b) ==>
          FirstOf(model, expanded, b).id in members
          && members[FirstOf(model, expanded, b).id] == MembersOf(model, model.nodes, b))
    && (forall d :: d in members ==> StandsFor(model, expanded, done, d))
  }

  ghost predicate StandsFor(model: Model, expanded: set<string>, done: seq<Bucket>, d: string) {
    exists b :: b in done && CollapsedBucket(model, expanded, b) && FirstOf(model, expanded, b).id == d
  }

  lemma GroupOneMore(model: Model, expanded: set<string>, done: seq<Bucket>, b: Bucket, groupOf: map<string, string>)
    requires GroupsSoFar(model, expanded, done, groupOf) && CollapsedBucket(model, expanded, b)
    ensures var g := MembersOf(model, model.nodes, b);
            GroupsSoFar(model, expanded, done + [b], SendAll(groupOf, IdsOf(g), g[0].id))
  {
    var g := MembersOf(model, model.nodes, b);
    var groupOf' := SendAll(groupOf, IdsOf(g), g[0].id);
    forall id | id in groupOf' ensures InBuckets(model, expanded, done + [b], id, groupOf'[id]) {
      if id in IdsOf(g) {
        var n :| n in g && n.id == id;
        MembersListed(model, model.nodes, b, n);
      } else {
        assert InBuckets(model, expanded, done, id, groupOf[id]);
      }
    }
    forall n | n in model.nodes && SentBy(model, expanded, done + [b], n) ensures n.id in groupOf' {
      if BucketOf(model, n) == b {
        MembersListed(model, model.nodes, b, n);
        assert n.id in IdsOf(g);
      } else {
        assert SentBy(model, expanded, done, n);
      }
    }
  }

  lemma MembersOneMore(model: Model, expanded: set<string>, done: seq<Bucket>, b: Bucket, members: map<string, seq<Node>>)
    requires WellFormed(model) && MembersSoFar(model, expanded, done, members) && CollapsedBucket(model, expanded, b)
    ensures MembersSoFar(model, expanded, done + [b],
                         members[FirstOf(model, expanded, b).id := MembersOf(model, model.nodes, b)])
  {
    var first := FirstOf(model, expanded, b);
    var members' := members[first.id := MembersOf(model, model.nodes, b)];
    forall b' | b' in done + [b] && CollapsedBucket(model, expanded, b')
      ensures FirstOf(model, expanded, b').id in members'
           && members'[FirstOf(model, expanded, b').id] == MembersOf(model, model.nodes, b')
    {
      SameFirstSameBucket(model, expanded, b, b');
    }
    forall d | d in members' ensures StandsFor(model, expanded, done + [b], d) {
      if d != first.id { assert StandsFor(model, expanded, done, d); }
    }
  }

  lemma SameFirstSameBucket(model: Model, expanded: set<string>, b: Bucket, b': Bucket)
    requires WellFormed(model) && CollapsedBucket(model, expanded, b) && CollapsedBucket(model, expanded, b')
    ensures FirstOf(model, expanded, b).id == FirstOf(model, expanded, b').id ==> b == b'
  {
    var n, n' := FirstOf(model, expanded, b), FirstOf(model, expanded, b');
    MembersListed(model, model.nodes, b, n);
    MembersListed(model, model.nodes, b', n');
    if n.id == n'.id { SameIdSame(model.nodes, n, n'); }
  }

  lemma SkipOne(model: Model, expanded: set<string>, done: seq<Bucket>, b: Bucket,
                groupOf: map<string, string>, members: map<string, seq<Node>>)
    requires GroupsSoFar(model, expanded, done, groupOf) && MembersSoFar(model, expanded, done, members)
    requires !CollapsedBucket(model, expanded, b)
    ensures GroupsSoFar(model, expanded, done + [b], groupOf) && MembersSoFar(model, expanded, done + [b], members)
  {
    forall id | id in groupOf ensures InBuckets(model, expanded, done + [b], id, groupOf[id]) {
      assert InBuckets(model, expanded, done, id, groupOf[id]);
    }
    forall n | n in model.nodes && SentBy(model, expanded, done + [b], n) ensures n.id in groupOf {
      assert SentBy(model, expanded, done, n);
    }
    forall d | d in members ensures StandsFor(model, expanded, done + [b], d) {
      assert StandsFor(model, expanded, done, d);
    }
  }

  method CollapseBuckets(model: Model, expanded: set<string>, order: seq<Bucket>, buckets: map<Bucket, seq<Node>>)
    returns (groupOf: map<string, string>, members: map<string, seq<Node>>)
    requires WellFormed(model) && Filled(model, model.nodes, order, buckets)
    ensures GroupsSoFar(model, expanded, order, groupOf) && MembersSoFar(model, expanded, order, members)
  {
    groupOf, members := map[], map[];
    for i := 0 to |order|
      invariant GroupsSoFar(model, expanded, order[..i], groupOf)
      invariant MembersSoFar(model, expanded, order[..i], members)
    {
      assert order[..i + 1] == order[..i] + [order[i]];
      var b := order[i];
      var group := buckets[b];
      assert group == MembersOf(model, model.nodes, b);
      var drawn := group[0].id;
      if |group| < 2 || drawn in expanded {
        SkipOne(model, expanded, order[..i], b, groupOf, members);
      } else {
        GroupOneMore(model, expanded, order[..i], b, groupOf);
        MembersOneMore(model, expanded, order[..i], b, members);
        members := members[drawn := group];
        groupOf := AssignGroup(groupOf, group, drawn);
      }
    }
    assert order[..|order|] == order;
  }

  ghost predicate InBuckets(model: Model, expanded: set<string>, done: seq<Bucket>, id: string, card: string) {
    exists n :: n in model.nodes && n.id == id && SentBy(model, expanded, done, n)
             && card == FirstOf(model, expanded, BucketOf(model, n)).id
  }

  lemma CardsAgree(model: Model, expanded: set<string>, order: seq<Bucket>, buckets: map<Bucket, seq<Node>>,
                   groupOf: map<string, string>)
    requires WellFormed(model) && Filled(model, model.nodes, order, buckets)
    requires GroupsSoFar(model, expanded, order, groupOf)
    ensures Groups(model, expanded, groupOf)
  {
    forall id | id in groupOf ensures InCollapsedGroup(model, expanded, id) {
      assert InBuckets(model, expanded, order, id, groupOf[id]);
    }
    forall n | n in model.nodes ensures To(groupOf, n.id) == CardOf(model, expanded, n) {
      MembersListed(model, model.nodes, BucketOf(model, n), n);
      if n.id in groupOf {
        CardOfSent(model, expanded, order, groupOf, n);
      } else {
        assert !SentBy(model, expanded, order, n);
        assert n.id != INTERNET_ID ==> MembersOf(model, model.nodes, BucketOf(model, n)) != [];
      }
    }
  }

  lemma CardOfSent(model: Model, expanded: set<string>, order: seq<Bucket>, groupOf: map<string, string>, n: Node)
    requires WellFormed(model) && GroupsSoFar(model, expanded, order, groupOf)
    requires n in model.nodes && n.id in groupOf
    ensures SentBy(model, expanded, order, n) && groupOf[n.id] == FirstOf(model, expanded, BucketOf(model, n)).id
  {
    assert InBuckets(model, expanded, order, n.id, groupOf[n.id]);
    var n' :| n' in model.nodes && n'.id == n.id && SentBy(model, expanded, order, n')
           && groupOf[n.id] == FirstOf(model, expanded, BucketOf(model, n')).id;
    SameIdSame(model.nodes, n, n');
  }

  /** The members listed for a card are exactly the nodes sent to it. */
  ghost predicate MembersMatch(model: Model, groupOf: map<string, string>, members: map<string, seq<Node>>) {
    && (forall d, n :: d in members && n in members[d] ==> SentTo(model, groupOf, n, d))
    && (forall n, d :: SentTo(model, groupOf, n, d) ==> d in members && n in members[d])
  }

  ghost predicate SentTo(model: Model, groupOf: map<string, string>, n: Node, d: string) {
    n in model.nodes && n.id in groupOf && groupOf[n.id] == d
  }

  lemma MembersMatchCards(model: Model, expanded: set<string>, order: seq<Bucket>,
                          groupOf: map<string, string>, members: map<string, seq<Node>>)
    requires WellFormed(model)
    requires GroupsSoFar(model, expanded, order, groupOf) && MembersSoFar(model, expanded, order, members)
    ensures MembersMatch(model, groupOf, members)
  {
    forall n, d | SentTo(model, groupOf, n, d) ensures d in members && n in members[d] {
      CardOfSent(model, expanded, order, groupOf, n);
      MembersListed(model, model.nodes, BucketOf(model, n), n);
    }
    forall d, n | d in members && n in members[d] ensures SentTo(model, groupOf, n, d) {
      assert StandsFor(model, expanded, order, d);
      var b :| b in order && CollapsedBucket(model, expanded, b) && FirstOf(model, expanded, b).id == d;
      MembersListed(model, model.nodes, b, n);
      assert SentBy(model, expanded, order, n);
      CardOfSent(model, expanded, order, groupOf, n);
    }
  }

  method DrawLinks(groupOf: map<string, string>, links: seq<Link>)
    returns (drawn: seq<Link>, linkOf: map<(string, string), (string, string)>)
    ensures drawn == DrawnLinks(groupOf, links)
    ensures forall l :: l in links ==> KeyOf(l) in linkOf && linkOf[KeyOf(l)] == KeyOf(MapLink(groupOf, l))
    ensures forall k :: k in linkOf ==> HasKey(links, k)
  {
    drawn, linkOf := [], map[];
    for i := 0 to |links|
      invariant drawn == DrawnLinks(groupOf, links[..i])
      invariant LinksSent(groupOf, links, i, linkOf)
    {
      assert links[..i + 1][..i] == links[..i];
      var mapped := MapLink(groupOf, links[i]);
      LinkSent(groupOf, links, i, linkOf);
      linkOf := linkOf[KeyOf(links[i]) := KeyOf(mapped)];
      if !HasKey(drawn, KeyOf(mapped)) { drawn := drawn + [mapped]; }
    }
    assert links[..|links|] == links;
  }

  /** The first `n` links are sent to where they are drawn, and nothing but links of the model is. */
  ghost predicate LinksSent(groupOf: map<string, string>, links: seq<Link>, n: nat, linkOf: map<(string, string), (string, string)>)
    requires n <= |links|
  {
    && (forall j :: 0 <= j < n ==> KeyOf(links[j]) in linkOf && linkOf[KeyOf(links[j])] == KeyOf(MapLink(groupOf, links[j])))
    && (forall k :: k in linkOf ==> HasKey(links, k))
  }

  lemma LinkSent(groupOf: map<string, string>, links: seq<Link>, n: nat, linkOf: map<(string, string), (string, string)>)
    requires n < |links| && LinksSent(groupOf, links, n, linkOf)
    ensures LinksSent(groupOf, links, n + 1, linkOf[KeyOf(links[n]) := KeyOf(MapLink(groupOf, links[n]))])
  {
    assert links[n] in links && HasKey(links, KeyOf(links[n]));
  }

  function KeptNodes(groupOf: map<string, string>, nodes: seq<Node>): seq<Node> {
    if nodes == [] then [] else
      var rest := KeptNodes(groupOf, nodes[..|nodes| - 1]);
      var last := nodes[|nodes| - 1];
      if To(groupOf, last.id) == last.id then rest + [last] else rest
  }

  method GroupSiblings(model: Model, expanded: set<string>) returns (r: Grouped)
    requires WellFormed(model)
    ensures Groups(model, expanded, r.groupOf)
    ensures r.model.nodes == KeptNodes(r.groupOf, model.nodes)
    ensures r.model.links == DrawnLinks(r.groupOf, model.links)
    ensures |r.model.paths| == |model.paths|
            && forall i :: 0 <= i < |model.paths| ==> r.model.paths[i] == MapPath(r.groupOf, r.linkOf, model.paths[i])
    ensures forall l :: l in model.links ==> KeyOf(l) in r.linkOf && r.linkOf[KeyOf(l)] == KeyOf(MapLink(r.groupOf, l))
    ensures MembersMatch(model, r.groupOf, r.members)
    // the promise: cards reach each other exactly as their members do
    ensures forall x, y :: Reaches(model.links, x, y) <==> Reaches(r.model.links, To(r.groupOf, x), To(r.groupOf, y))
  {
    var order, buckets := FillBuckets(model);
    var groupOf, members := CollapseBuckets(model, expanded, order, buckets);
    var links, linkOf := DrawLinks(groupOf, model.links);
    var paths := seq(|model.paths|, i requires 0 <= i < |model.paths| => MapPath(groupOf, linkOf, model.paths[i]));
    r := Grouped(Model(KeptNodes(groupOf, model.nodes), links, paths), groupOf, members, linkOf);
    CardsAgree(model, expanded, order, buckets, groupOf);
    GroupsAreFaithful(model, expanded, groupOf);
    MembersMatchCards(model, expanded, order, groupOf, members);
    forall x, y ensures Reaches(model.links, x, y) <==> Reaches(links, To(groupOf, x), To(groupOf, y)) {
      GroupingPreservesReach(model, groupOf, x, y);
    }
  }

  /** Paths stay drawable: when every link key of a path is a link, every mapped key is drawn. */
  lemma PathKeysAreDrawn(model: Model, groupOf: map<string, string>, linkOf: map<(string, string), (string, string)>, path: Path)
    requires forall l :: l in model.links ==> KeyOf(l) in linkOf && linkOf[KeyOf(l)] == KeyOf(MapLink(groupOf, l))
    requires forall k :: k in path.linkKeys ==> HasKey(model.links, k)
    ensures forall k :: k in MapPath(groupOf, linkOf, path).linkKeys ==> HasKey(DrawnLinks(groupOf, model.links), k)
  {
    DrawnFromLinks(groupOf, model.links);
    var mapped := seq(|path.linkKeys|, i requires 0 <= i < |path.linkKeys| => LinkKeyTo(linkOf, path.linkKeys[i]));
    forall k | k in mapped ensures HasKey(DrawnLinks(groupOf, model.links), k) {
      var i :| 0 <= i < |mapped| && mapped[i] == k;
      assert path.linkKeys[i] in path.linkKeys;
      var l :| l in model.links && KeyOf(l) == path.linkKeys[i];
    }
  }

  /** The drawn nodes are one per card: the first member of each collapsed group, and every other node. */
  lemma {:induction false} KeptAreCards(model: Model, expanded: set<string>, groupOf: map<string, string>, n: Node)
    requires WellFormed(model) && Groups(model, expanded, groupOf)
    ensures n in model.nodes ==> exists k :: k in KeptNodes(groupOf, model.nodes) && k.id == To(groupOf, n.id)
    ensures n in KeptNodes(groupOf, model.nodes) <==> n in model.nodes && CardOf(model, expanded, n) == n.id
  {
    KeptListed(groupOf, model.nodes, n);
    if n in model.nodes {
      var g := MembersOf(model, model.nodes, BucketOf(model, n));
      if n.id != INTERNET_ID && Collapsed(g, expanded) {
        MembersListed(model, model.nodes, BucketOf(model, n), g[0]);
        KeptListed(groupOf, model.nodes, g[0]);
        assert CardOf(model, expanded, g[0]) == g[0].id;
      }
    }
  }

  lemma {:induction false} KeptListed(groupOf: map<string, string>, nodes: seq<Node>, n: Node)
    ensures n in KeptNodes(groupOf, nodes) <==> n in nodes && To(groupOf, n.id) == n.id
    decreases |nodes|
  {
    if nodes != [] {
      KeptListed(groupOf, nodes[..|nodes| - 1], n);
      assert nodes == nodes[..|nodes| - 1] + [nodes[|nodes| - 1]];
    }
  }
}
