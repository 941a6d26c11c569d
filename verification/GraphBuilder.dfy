/** Building the attack graph from paths: policy chains collapse to one link, repeated hops merge,
    and entries join the paths they open. */
module GraphBuilder {
  import opened Basics
  import opened Grouping
  import opened Layering

  /** A path vertex with what the builder reads from its properties. */
  datatype PathVertex = PathVertex(id: string, labelName: string, stage: string, account: Option<string>,
                                   risks: seq<Flag>, caption: string, name: string, deny: bool, conditional: bool)

  datatype PathEdge = PathEdge(from: string, to: string, labelName: string)

  datatype PathInput = PathInput(nodes: seq<PathVertex>, edges: seq<PathEdge>)

  datatype Entry = FromInternet | FromOutside(principals: seq<PathVertex>)

  type Key = (string, string)

  // ----- vertices

  predicate IsPolicy(v: PathVertex) { v.labelName == "IamPolicyDocument" || v.labelName == "IamPolicy" }

  predicate IsStatement(v: PathVertex) { v.labelName == "IamPolicyStatement" }

  function NodeOf(v: PathVertex): Node {
    Node(v.id, v.labelName, v.stage, v.account, v.labelName == "ExternalAccount", v.risks)
  }

  function GrantKind(v: PathVertex): Grant {
    if v.deny then Deny else if v.conditional then Conditional else Access
  }

  predicate IsAccountId(account: Option<string>) {
    account.Some? && |account.value| == 12 && forall c :: c in account.value ==> '0' <= c <= '9'
  }

  /** Only two known, different account ids make a hop cross-account. */
  predicate CrossesAccounts(a: Node, b: Node) {
    IsAccountId(a.account) && IsAccountId(b.account) && a.account != b.account
  }

  // ----- one link and the statements behind it

  datatype Granted = Granted(statementId: string, kind: Grant)

  function Strongest(statements: map<string, Grant>): Grant {
    if Access in statements.Values then Access else if Conditional in statements.Values then Conditional else Deny
  }

  function Digits(n: nat): string {
    if n < 10 then [('0' as int + n) as char] else Digits(n / 10) + [('0' as int + n % 10) as char]
  }

  function ManyCaption(kind: Grant, n: nat): string {
    if kind.Deny? then "Denies (" + Digits(n) + " statements)" else "Allows " + Digits(n) + " statements"
  }

  function Recorded(statements: map<string, Grant>, grant: Option<Granted>): map<string, Grant> {
    if grant.Some? then statements[grant.value.statementId := grant.value.kind] else statements
  }

  /** What one more hop between two nodes does to the link drawn between them. */
  function LinkAfter(existing: Option<Link>, statements: map<string, Grant>, plain: Link, grant: Option<Granted>): Link {
    var now := Recorded(statements, grant);
    match existing
    case None => plain.(grant := if grant.Some? then grant.value.kind else Access)
    case Some(link) =>
      if grant.Some? && |now| > 1 then
        link.(grant := Strongest(now), caption := ManyCaption(Strongest(now), |now|), via := None)
      else link
  }

  /** The link and its statements after a whole history of hops between the same two nodes. */
  function LinkHistory(plain: Link, hops: seq<Option<Granted>>): (r: (Option<Link>, map<string, Grant>)) {
    if hops == [] then (None, map[]) else
      var (link, statements) := LinkHistory(plain, hops[..|hops| - 1]);
      var grant := hops[|hops| - 1];
      (Some(LinkAfter(link, statements, plain, grant)), Recorded(statements, grant))
  }

  /** The kind recorded last for the statement of the first hop. */
  function LastKind(hops: seq<Option<Granted>>, id: string): Option<Grant> {
    if hops == [] then None else
      var last := hops[|hops| - 1];
      if last.Some? && last.value.statementId == id then Some(last.value.kind) else LastKind(hops[..|hops| - 1], id)
  }

  lemma {:induction false} GrantedHistory(plain: Link, hops: seq<Option<Granted>>)
    requires hops != [] && hops[0].Some?
    ensures var (link, statements) := LinkHistory(plain, hops);
            && link.Some? && hops[0].value.statementId in statements
            && (|statements| > 1 ==> link.value.grant == Strongest(statements))
            && (|statements| <= 1 ==> link.value.grant == hops[0].value.kind)
            && LastKind(hops, hops[0].value.statementId) == Some(statements[hops[0].value.statementId])
    decreases |hops|
  {
    var front, grant := hops[..|hops| - 1], hops[|hops| - 1];
    if front == [] {
      assert hops == [grant];
      assert LinkHistory(plain, front) == (None, map[]);
      assert map[][grant.value.statementId := grant.value.kind].Keys == {grant.value.statementId};
    } else {
      GrantedHistory(plain, front);
      var (link, statements) := LinkHistory(plain, front);
      if grant.Some? { KeysGrow(statements, grant.value.statementId, grant.value.kind); }
    }
  }

  lemma KeysGrow(statements: map<string, Grant>, id: string, kind: Grant)
    ensures |statements| <= |statements[id := kind]|
  {
    var more := statements[id := kind];
    assert more.Keys == statements.Keys + {id};
    assert |more.Keys| >= |statements.Keys| by {
      if id !in statements.Keys { assert |statements.Keys + {id}| == |statements.Keys| + 1; }
      else { assert statements.Keys + {id} == statements.Keys; }
    }
  }

  /** Exactly when a link first made by a grant is drawn by the strongest statement recorded for it:
      always, unless its only statement was recorded again with another kind than at first. */
  lemma DrawnByStrongest(plain: Link, hops: seq<Option<Granted>>)
    requires hops != [] && hops[0].Some?
    ensures var (link, statements) := LinkHistory(plain, hops);
            link.value.grant == Strongest(statements)
            <==> |statements| > 1 || LastKind(hops, hops[0].value.statementId) == Some(hops[0].value.kind)
  {
    GrantedHistory(plain, hops);
    var (link, statements) := LinkHistory(plain, hops);
    var id := hops[0].value.statementId;
    if |statements| <= 1 { OneStatement(statements, id); }
  }

  /** Some recorded statement has the kind. */
  predicate SomeKind(statements: map<string, Grant>, kind: Grant) { exists id :: id in statements && statements[id] == kind }

  /** What the drawn kind says of the statements behind the link, and what its caption says. */
  ghost predicate DrawnOf(link: Link, statements: map<string, Grant>) {
    && (link.grant.Access? <==> SomeKind(statements, Access))
    && (link.grant.Deny? <==> forall id :: id in statements ==> statements[id].Deny?)
    && (link.grant.Conditional? <==> SomeKind(statements, Conditional) && !SomeKind(statements, Access))
    && link.via.None?
    && link.caption == if link.grant.Deny? then "Denies (" + Digits(|statements|) + " statements)"
                       else "Allows " + Digits(|statements|) + " statements"
  }

  lemma StrongestIs(statements: map<string, Grant>)
    ensures Strongest(statements).Access? <==> SomeKind(statements, Access)
    ensures Strongest(statements).Deny? <==> forall id :: id in statements ==> statements[id].Deny?
    ensures Strongest(statements).Conditional? <==> SomeKind(statements, Conditional) && !SomeKind(statements, Access)
  {
    forall kind ensures kind in statements.Values <==> SomeKind(statements, kind) {
      if id :| id in statements && statements[id] == kind {}
    }
    forall id | id in statements && !statements[id].Deny? ensures statements[id] == Access || statements[id] == Conditional {}
    if Strongest(statements).Deny? {
      forall id | id in statements ensures statements[id].Deny? {
        assert statements[id] == Access ==> SomeKind(statements, Access);
        assert statements[id] == Conditional ==> SomeKind(statements, Conditional);
      }
    }
  }

  /** With two or more statements behind it, one that allows without conditions makes the link an access,
      else one with conditions makes it conditional, and it denies only when all of them deny. With fewer
      it is the plain link of the first hop with that hop's kind, an access if that was no grant. */
  lemma {:induction false} KindOfMany(plain: Link, hops: seq<Option<Granted>>)
    requires hops != []
    ensures var (link, statements) := LinkHistory(plain, hops);
            && link.Some?
            && (|statements| > 1 ==> DrawnOf(link.value, statements))
            && (|statements| <= 1 ==> link.value == plain.(grant := if hops[0].Some? then hops[0].value.kind else Access))
            && link.value.from == plain.from && link.value.to == plain.to && link.value.crossAccount == plain.crossAccount
    decreases |hops|
  {
    var front, grant := hops[..|hops| - 1], hops[|hops| - 1];
    if front == [] {
      assert LinkHistory(plain, front) == (None, map[]);
      if grant.Some? { assert map[][grant.value.statementId := grant.value.kind].Keys == {grant.value.statementId}; }
    } else {
      KindOfMany(plain, front);
      var (link, statements) := LinkHistory(plain, front);
      if grant.Some? {
        KeysGrow(statements, grant.value.statementId, grant.value.kind);
        StrongestIs(Recorded(statements, grant));
      }
    }
  }

  function NumberOf(digits: string): int {
    if digits == "" then 0 else 10 * NumberOf(digits[..|digits| - 1]) + digits[|digits| - 1] as int - '0' as int
  }

  lemma {:induction false} DigitsSay(n: nat)
    ensures Digits(n) != "" && (forall c :: c in Digits(n) ==> '0' <= c <= '9') && NumberOf(Digits(n)) == n
  {
    var d := Digits(n);
    if n >= 10 {
      DigitsSay(n / 10);
      assert d[..|d| - 1] == Digits(n / 10);
    } else {
      assert d[..|d| - 1] == "" && |d| == 1;
    }
  }

  lemma OneStatement(statements: map<string, Grant>, id: string)
    requires id in statements && |statements| <= 1
    ensures Strongest(statements) == statements[id]
  {
    assert |statements.Keys| == |statements|;
    assert |statements.Keys - {id}| == |statements.Keys| - 1;
    assert statements.Keys - {id} == {};
    forall kind ensures kind in statements.Values <==> kind == statements[id] {
      if kind in statements.Values {
        var k :| k in statements.Keys && statements[k] == kind;
        assert k !in statements.Keys - {id};
      }
    }
  }

  // ----- policy collapse, specified

  /** The first index at or after j that is not a policy or policy document. */
  function RunEnd(vs: seq<PathVertex>, j: nat): (e: nat)
    requires j <= |vs|
    ensures j <= e <= |vs|
    ensures forall k :: j <= k < e ==> IsPolicy(vs[k])
    ensures e < |vs| ==> !IsPolicy(vs[e])
    decreases |vs| - j
  {
    if j < |vs| && IsPolicy(vs[j]) then RunEnd(vs, j + 1) else j
  }

  predicate FoldsAt(vs: seq<PathVertex>, i: nat)
    requires i + 1 < |vs|
  {
    var j := RunEnd(vs, i + 1);
    j > i + 1 && j < |vs| && IsStatement(vs[j])
  }

  /** The vertices drawn after vertex i, when vertex i was the last one handled. */
  function DrawnAfter(vs: seq<PathVertex>, i: nat): seq<PathVertex>
    requires i < |vs|
    decreases |vs| - i
  {
    if i + 1 >= |vs| then []
    else if FoldsAt(vs, i) then
      var j := RunEnd(vs, i + 1);
      if j + 1 < |vs| then [vs[j + 1]] + DrawnAfter(vs, j + 1) else []
    else [vs[i + 1]] + DrawnAfter(vs, i + 1)
  }

  predicate InPolicyChain(v: PathVertex) { IsPolicy(v) || IsStatement(v) }

  function CountPlain(vs: seq<PathVertex>, i: nat): nat
    requires i <= |vs|
    decreases |vs| - i
  {
    if i == |vs| then 0 else CountPlain(vs, i + 1) + if InPolicyChain(vs[i]) then 0 else 1
  }

  function CountPolicy(vs: seq<PathVertex>): nat {
    if vs == [] then 0 else CountPolicy(vs[1..]) + if InPolicyChain(vs[0]) then 1 else 0
  }

  /** The API's hop count: a whole policy chain counts once. */
  function DrawnHops(vs: seq<PathVertex>): int {
    var hops := |vs| - 1 - CountPolicy(vs);
    if hops < 0 then 0 else hops
  }

  /** From vertex i on, every run of policies and documents is closed by one statement, followed
      by a plain vertex or the end, and no statement stands without such a run. */
  predicate ChainsWellFormed(vs: seq<PathVertex>, i: nat)
    requires i < |vs|
    decreases |vs| - i
  {
    if i + 1 >= |vs| then true
    else if FoldsAt(vs, i) then
      var j := RunEnd(vs, i + 1);
      j + 1 < |vs| ==> !InPolicyChain(vs[j + 1]) && ChainsWellFormed(vs, j + 1)
    else !InPolicyChain(vs[i + 1]) && ChainsWellFormed(vs, i + 1)
  }

  lemma {:induction false} SkipPolicies(vs: seq<PathVertex>, i: nat, j: nat)
    requires i <= j <= |vs| && forall k :: i <= k < j ==> InPolicyChain(vs[k])
    ensures CountPlain(vs, i) == CountPlain(vs, j)
    decreases j - i
  {
    if i < j { SkipPolicies(vs, i + 1, j); }
  }

  /** Every plain vertex is drawn; what else is drawn is a policy vertex out of place. */
  lemma {:induction false} DrawnCount(vs: seq<PathVertex>, i: nat)
    requires i < |vs|
    ensures |DrawnAfter(vs, i)| >= CountPlain(vs, i + 1)
    ensures |DrawnAfter(vs, i)| == CountPlain(vs, i + 1) <==> ChainsWellFormed(vs, i)
    decreases |vs| - i
  {
    if i + 1 < |vs| {
      var n := NextDrawn(vs, i);
      if n < |vs| { DrawnCount(vs, n); }
      DrawnFrom(vs, i, n);
    }
  }

  /** The vertex drawn after vertex i: the next one, or the one past a chain that folds. */
  function NextDrawn(vs: seq<PathVertex>, i: nat): nat
    requires i + 1 < |vs|
  {
    if FoldsAt(vs, i) then RunEnd(vs, i + 1) + 1 else i + 1
  }

  lemma DrawnFrom(vs: seq<PathVertex>, i: nat, n: nat)
    requires i + 1 < |vs| && n == NextDrawn(vs, i)
    ensures n <= |vs| && CountPlain(vs, i + 1) == CountPlain(vs, n)
    ensures n == |vs| ==> |DrawnAfter(vs, i)| == 0 && ChainsWellFormed(vs, i)
    ensures n < |vs| ==>
              && |DrawnAfter(vs, i)| == 1 + |DrawnAfter(vs, n)|
              && CountPlain(vs, n) == CountPlain(vs, n + 1) + (if InPolicyChain(vs[n]) then 0 else 1)
              && (ChainsWellFormed(vs, i) <==> !InPolicyChain(vs[n]) && ChainsWellFormed(vs, n))
  {
    if FoldsAt(vs, i) { FoldSkips(vs, i); }
  }

  /** A folded chain holds no plain vertex. */
  lemma FoldSkips(vs: seq<PathVertex>, i: nat)
    requires i + 1 < |vs| && FoldsAt(vs, i)
    ensures CountPlain(vs, i + 1) == CountPlain(vs, RunEnd(vs, i + 1) + 1)
  {
    SkipPolicies(vs, i + 1, RunEnd(vs, i + 1) + 1);
  }

  lemma {:induction false} PlainIsRest(vs: seq<PathVertex>, i: nat)
    requires i <= |vs|
    ensures CountPlain(vs, i) + CountPolicy(vs[i..]) == |vs| - i
    decreases |vs| - i
  {
    if i < |vs| {
      PlainIsRest(vs, i + 1);
      assert vs[i..][1..] == vs[i + 1..];
    }
  }

  /** Exactly when the drawing has the API's hop count, for paths that start at a plain vertex:
      when every policy chain on the path is well formed. */
  lemma HopsAgreeExactlyWhen(vs: seq<PathVertex>)
    requires vs != [] && !InPolicyChain(vs[0])
    ensures |DrawnAfter(vs, 0)| == DrawnHops(vs) <==> ChainsWellFormed(vs, 0)
  {
    DrawnCount(vs, 0);
    PlainIsRest(vs, 0);
    assert vs[0..] == vs;
  }

  /** The ids and link keys of a path as drawn. */
  function IdsOfVertices(vs: seq<PathVertex>): seq<string> {
    seq(|vs|, i requires 0 <= i < |vs| => vs[i].id)
  }

  function KeysBetween(ids: seq<string>): seq<Key>
    requires ids != []
  {
    seq(|ids| - 1, i requires 0 <= i < |ids| - 1 => (ids[i], ids[i + 1]))
  }

  /** The ids still to be drawn from vertex i on. */
  function IdsLeft(vs: seq<PathVertex>, i: nat): seq<string>
    requires i < |vs|
  {
    IdsOfVertices(DrawnAfter(vs, i))
  }

  lemma IdsLeftOne(vs: seq<PathVertex>, i: nat, next: nat, ids: seq<string>)
    requires i < next < |vs| && DrawnAfter(vs, i) == [vs[next]] + DrawnAfter(vs, next)
    ensures ids + [vs[next].id] + IdsLeft(vs, next) == ids + IdsLeft(vs, i)
  {
    IdsOfMore(vs[next], DrawnAfter(vs, next));
  }

  lemma IdsLeftPlain(vs: seq<PathVertex>, i: nat, ids: seq<string>)
    requires i + 1 < |vs| && !FoldsAt(vs, i)
    ensures ids + [vs[i + 1].id] + IdsLeft(vs, i + 1) == ids + IdsLeft(vs, i)
  {
    IdsLeftOne(vs, i, i + 1, ids);
  }

  lemma IdsLeftFolded(vs: seq<PathVertex>, i: nat, ids: seq<string>)
    requires i + 1 < |vs| && FoldsAt(vs, i)
    ensures var j := RunEnd(vs, i + 1);
            if j + 1 >= |vs| then IdsLeft(vs, j) == IdsLeft(vs, i)
            else ids + [vs[j + 1].id] + IdsLeft(vs, j + 1) == ids + IdsLeft(vs, i)
  {
    var j := RunEnd(vs, i + 1);
    if j + 1 < |vs| { IdsLeftOne(vs, i, j + 1, ids); }
  }

  function DrawnIds(vs: seq<PathVertex>): (ids: seq<string>)
    requires vs != []
    ensures ids != []
  {
    [vs[0].id] + IdsOfVertices(DrawnAfter(vs, 0))
  }

  // ----- the drawing, as a value

  datatype Drawing = Drawing(nodes: map<string, Node>, links: map<Key, Link>, statements: map<Key, map<string, Grant>>)

  const Blank := Drawing(map[], map[], map[])

  /** What drawing does to the graph: a vertex appears, a hop is drawn, a folded statement's risks
      join those of its principal. */
  datatype Step =
    | Vertex(v: PathVertex)
    | Hop(from: string, to: string, caption: string, via: Option<string>, grant: Option<Granted>)
    | Fold(principal: string, statement: PathVertex)

  function LinkIn(d: Drawing, key: Key): Option<Link> { if key in d.links then Some(d.links[key]) else None }

  function StatementsIn(d: Drawing, key: Key): map<string, Grant> { if key in d.statements then d.statements[key] else map[] }

  predicate Effective(d: Drawing, s: Step) { s.Hop? && s.from in d.nodes && s.to in d.nodes }

  function PlainLink(d: Drawing, s: Step): Link
    requires Effective(d, s)
  {
    Link(s.from, s.to, s.caption, CrossesAccounts(d.nodes[s.from], d.nodes[s.to]), Access, s.via)
  }

  function Put(d: Drawing, s: Step): Drawing {
    match s
    case Vertex(v) => if v.id in d.nodes then d else d.(nodes := d.nodes[v.id := NodeOf(v)])
    case Hop(from, to, _, _, grant) =>
      if !Effective(d, s) then d
      else
        var key := (from, to);
        var link := LinkAfter(LinkIn(d, key), StatementsIn(d, key), PlainLink(d, s), grant);
        Drawing(d.nodes, d.links[key := link],
                if grant.Some? then d.statements[key := Recorded(StatementsIn(d, key), grant)] else d.statements)
    case Fold(principal, statement) =>
      if principal !in d.nodes then d
      else d.(nodes := d.nodes[principal := d.nodes[principal].(risks := MergeFlags(d.nodes[principal].risks, statement.risks))])
  }

  function PutAll(d: Drawing, steps: seq<Step>): Drawing {
    if steps == [] then d else Put(PutAll(d, steps[..|steps| - 1]), steps[|steps| - 1])
  }

  lemma {:induction false} PutConcat(d: Drawing, a: seq<Step>, b: seq<Step>)
    ensures PutAll(d, a + b) == PutAll(PutAll(d, a), b)
    decreases |b|
  {
    if b == [] {
      assert a + b == a;
    } else {
      PutConcat(d, a, b[..|b| - 1]);
      assert (a + b)[..|a + b| - 1] == a + b[..|b| - 1];
    }
  }

  lemma PutOne(d: Drawing, s: Step)
    ensures PutAll(d, [s]) == Put(d, s)
  {
    assert [s][..0] == [];
    assert PutAll(d, [s][..0]) == d;
  }

  lemma PutTwo(d: Drawing, a: Step, b: Step)
    ensures PutAll(d, [a, b]) == Put(Put(d, a), b)
  {
    PutConcat(d, [a], [b]);
    PutOne(d, a);
    PutOne(Put(d, a), b);
    assert [a] + [b] == [a, b];
  }

  function HopSteps(from: string, v: PathVertex, caption: string, via: Option<string>, grant: Option<Granted>): seq<Step> {
    [Vertex(v), Hop(from, v.id, caption, via, grant)]
  }

  /** What drawing a path does from vertex i on, when `at` is the id drawn last: a chain of policies
      closed by a statement folds into one hop with the statement's grant. */
  function StepsAfter(path: PathInput, i: nat, at: string): seq<Step>
    requires i < |path.nodes|
    decreases |path.nodes| - i
  {
    var vs := path.nodes;
    if i + 1 >= |vs| then []
    else if FoldsAt(vs, i) then
      var j := RunEnd(vs, i + 1);
      FoldSteps(at, vs[j], NextAfter(vs, j), vs[i + 1].name)
      + if j + 1 < |vs| then StepsAfter(path, j + 1, vs[j + 1].id) else []
    else HopSteps(at, vs[i + 1], EdgeCaption(path.edges, vs[i].id, vs[i + 1].id), None, None) + StepsAfter(path, i + 1, vs[i + 1].id)
  }

  function PathSteps(path: PathInput): seq<Step> {
    if path.nodes == [] then [] else [Vertex(path.nodes[0])] + StepsAfter(path, 0, path.nodes[0].id)
  }

  function EntrySteps(start: string, openers: seq<PathVertex>, caption: string): seq<Step> {
    if openers == [] then [] else
      var v := openers[|openers| - 1];
      EntrySteps(start, openers[..|openers| - 1], caption) + EntryStep(start, v, caption)
  }

  function EntryStep(start: string, v: PathVertex, caption: string): seq<Step> {
    [Vertex(v), Hop(v.id, start, caption, None, None)]
  }

  function EntryCaption(entry: Entry): string { if entry.FromInternet? then "Exposes" else "Can assume" }

  /** With what is left from vertex i on, the ids and steps so far make up the whole path. */
  ghost predicate DrawnSoFar(path: PathInput, i: nat, ids: seq<string>, did: seq<Step>) {
    && i < |path.nodes| && ids != []
    && ids + IdsLeft(path.nodes, i) == DrawnIds(path.nodes)
    && did + ToDraw(path, i, ids[|ids| - 1]) == ToDraw(path, 0, path.nodes[0].id)
  }

  lemma DrawnFurther(path: PathInput, i: nat, ids: seq<string>, did: seq<Step>, more: seq<Step>, i': nat, ids': seq<string>)
    requires DrawnSoFar(path, i, ids, did) && Turned(path, i, ids, more, i', ids')
    ensures DrawnSoFar(path, i', ids', did + more)
  {
    CoversOn(path, did, i, ids[|ids| - 1], more, i', ids'[|ids'| - 1]);
  }

  lemma AllDrawn(path: PathInput, i: nat, ids: seq<string>, did: seq<Step>)
    requires DrawnSoFar(path, i, ids, did) && i + 1 >= |path.nodes|
    ensures ids == DrawnIds(path.nodes) && did == StepsAfter(path, 0, path.nodes[0].id)
  {
    assert IdsLeft(path.nodes, i) == [];
    assert ToDraw(path, i, ids[|ids| - 1]) == [];
  }

  /** These steps take one drawing to the other. */
  ghost predicate Leads(a: Drawing, steps: seq<Step>, b: Drawing) { b == PutAll(a, steps) }

  /** What is left to draw from i is these steps, then what is left from i'. */
  ghost predicate Covers(path: PathInput, i: nat, at: string, steps: seq<Step>, i': nat, at': string) {
    i < |path.nodes| && i' < |path.nodes| && steps + ToDraw(path, i', at') == ToDraw(path, i, at)
  }

  /** What is left to draw of a path from vertex i on. */
  function ToDraw(path: PathInput, i: nat, at: string): seq<Step>
    requires i < |path.nodes|
  {
    StepsAfter(path, i, at)
  }

  /** One round of the loop: it moves on, and what it did and drew is the front of what was left. */
  ghost predicate Turned(path: PathInput, i: nat, ids: seq<string>, did: seq<Step>, i': nat, ids': seq<string>) {
    && i < i' < |path.nodes| && ids != [] && ids' != []
    && Covers(path, i, ids[|ids| - 1], did, i', ids'[|ids'| - 1])
    && ids' + IdsLeft(path.nodes, i') == ids + IdsLeft(path.nodes, i)
  }

  lemma PlainTurn(path: PathInput, i: nat, ids: seq<string>)
    requires i + 1 < |path.nodes| && !FoldsAt(path.nodes, i) && ids != []
    ensures var vs := path.nodes;
            Turned(path, i, ids, HopSteps(ids[|ids| - 1], vs[i + 1], EdgeCaption(path.edges, vs[i].id, vs[i + 1].id), None, None),
                   i + 1, ids + [vs[i + 1].id])
  {
    IdsLeftPlain(path.nodes, i, ids);
  }

  /** What a folded chain draws: the statement's risks, and a hop to what it grants, if anything. */
  function FoldSteps(at: string, statement: PathVertex, granted: Option<PathVertex>, via: string): seq<Step> {
    if granted.None? then [Fold(at, statement)]
    else [Fold(at, statement)]
         + HopSteps(at, granted.value, statement.caption, Some(via), Some(Granted(statement.id, GrantKind(statement))))
  }

  function NextAfter(vs: seq<PathVertex>, j: nat): Option<PathVertex> {
    if j + 1 < |vs| then Some(vs[j + 1]) else None
  }

  lemma FoldedOn(path: PathInput, i: nat, ids: seq<string>, j: nat)
    requires i + 1 < |path.nodes| && FoldsAt(path.nodes, i) && ids != [] && j == RunEnd(path.nodes, i + 1) && j + 1 < |path.nodes|
    ensures var vs := path.nodes;
            Turned(path, i, ids, FoldSteps(ids[|ids| - 1], vs[j], Some(vs[j + 1]), vs[i + 1].name), j + 1, ids + [vs[j + 1].id])
  {
    IdsLeftFolded(path.nodes, i, ids);
    StepsAtFold(path, i, ids[|ids| - 1], j);
    var longer := ids + [path.nodes[j + 1].id];
    assert longer[|longer| - 1] == path.nodes[j + 1].id;
  }

  lemma StepsAtFold(path: PathInput, i: nat, at: string, j: nat)
    requires i + 1 < |path.nodes| && FoldsAt(path.nodes, i) && j == RunEnd(path.nodes, i + 1) && j + 1 < |path.nodes|
    ensures var vs := path.nodes;
            ToDraw(path, i, at) == FoldSteps(at, vs[j], Some(vs[j + 1]), vs[i + 1].name) + ToDraw(path, j + 1, vs[j + 1].id)
  {
  }

  lemma FoldedLast(path: PathInput, i: nat, ids: seq<string>, j: nat)
    requires i + 1 < |path.nodes| && FoldsAt(path.nodes, i) && ids != [] && j == RunEnd(path.nodes, i + 1) && j + 1 >= |path.nodes|
    ensures Turned(path, i, ids, FoldSteps(ids[|ids| - 1], path.nodes[j], None, path.nodes[i + 1].name), j, ids)
  {
    IdsLeftFolded(path.nodes, i, ids);
    assert ToDraw(path, j, ids[|ids| - 1]) == [];
  }

  /** What one round of the loop draws: a vertex as a hop of its own, or a whole policy chain. */
  datatype Move = Plain(v: PathVertex, caption: string) | Folded(statement: PathVertex, granted: Option<PathVertex>, via: string)

  function MoveSteps(m: Move, at: string): seq<Step> {
    match m
    case Plain(v, caption) => HopSteps(at, v, caption, None, None)
    case Folded(statement, granted, via) => FoldSteps(at, statement, granted, via)
  }

  function MoveIds(m: Move): seq<string> {
    match m
    case Plain(v, _) => [v.id]
    case Folded(_, granted, _) => if granted.Some? then [granted.value.id] else []
  }

  /** One round is this move. */
  ghost predicate Moves(path: PathInput, i: nat, ids: seq<string>, m: Move, i': nat)
    requires ids != []
  {
    Turned(path, i, ids, MoveSteps(m, ids[|ids| - 1]), i', ids + MoveIds(m))
  }

  lemma FoldMoves(path: PathInput, i: nat, ids: seq<string>, j: nat)
    requires i + 1 < |path.nodes| && FoldsAt(path.nodes, i) && ids != [] && j == RunEnd(path.nodes, i + 1)
    ensures var vs := path.nodes;
            && (j + 1 < |vs| ==> Moves(path, i, ids, Folded(vs[j], Some(vs[j + 1]), vs[i + 1].name), j + 1))
            && (j + 1 >= |vs| ==> Moves(path, i, ids, Folded(vs[j], None, vs[i + 1].name), j))
  {
    if j + 1 < |path.nodes| {
      FoldedOn(path, i, ids, j);
    } else {
      FoldedLast(path, i, ids, j);
      assert ids + [] == ids;
    }
  }

  lemma PlainMoves(path: PathInput, i: nat, ids: seq<string>)
    requires i + 1 < |path.nodes| && !FoldsAt(path.nodes, i) && ids != []
    ensures var vs := path.nodes; Moves(path, i, ids, Plain(vs[i + 1], EdgeCaption(path.edges, vs[i].id, vs[i + 1].id)), i + 1)
  {
    PlainTurn(path, i, ids);
  }

  /** The next round from vertex i on: a chain of policies closed by a statement, or a plain vertex. */
  method NextMove(path: PathInput, i: nat, ghost ids: seq<string>) returns (m: Move, i': nat)
    requires i < |path.nodes| - 1 && ids != []
    ensures Moves(path, i, ids, m, i')
  {
    var vs := path.nodes;
    var j := EndOfRun(vs, i + 1);
    if j > i + 1 && j < |vs| && IsStatement(vs[j]) {
      FoldMoves(path, i, ids, j);
      if j + 1 < |vs| {
        return Folded(vs[j], Some(vs[j + 1]), vs[i + 1].name), j + 1;
      }
      return Folded(vs[j], None, vs[i + 1].name), j;
    }
    PlainMoves(path, i, ids);
    return Plain(vs[i + 1], EdgeCaption(path.edges, vs[i].id, vs[i + 1].id)), i + 1;
  }

  lemma LeadsOn(a: Drawing, some: seq<Step>, b: Drawing, more: seq<Step>, c: Drawing)
    requires Leads(a, some, b) && Leads(b, more, c)
    ensures Leads(a, some + more, c)
  {
    PutConcat(a, some, more);
  }

  lemma EntryLeadsOn(d: Drawing, start: string, openers: seq<PathVertex>, caption: string, i: nat, here: Drawing, now: Drawing)
    requires i < |openers|
    requires Leads(d, EntrySteps(start, openers[..i], caption), here) && Leads(here, EntryStep(start, openers[i], caption), now)
    ensures Leads(d, EntrySteps(start, openers[..i + 1], caption), now)
  {
    LeadsOn(d, EntrySteps(start, openers[..i], caption), here, EntryStep(start, openers[i], caption), now);
    assert openers[..i + 1][..i] == openers[..i];
  }

  /** Drawing never removes a node or a link. */
  lemma {:induction false} LeadsGrow(a: Drawing, steps: seq<Step>, b: Drawing)
    requires Leads(a, steps, b)
    ensures a.nodes.Keys <= b.nodes.Keys && a.links.Keys <= b.links.Keys
    decreases |steps|
  {
    if steps != [] { LeadsGrow(a, steps[..|steps| - 1], PutAll(a, steps[..|steps| - 1])); }
  }

  lemma CoversOn(path: PathInput, done: seq<Step>, i: nat, at: string, did: seq<Step>, i': nat, at': string)
    requires Covers(path, i, at, did, i', at')
    ensures (done + did) + ToDraw(path, i', at') == done + ToDraw(path, i, at)
  {
  }

  /** The keys a step adds. */
  lemma PutKeys(d: Drawing, v: PathVertex, hop: Step)
    ensures Put(d, Vertex(v)).nodes.Keys == d.nodes.Keys + {v.id} && Put(d, Vertex(v)).links == d.links
    ensures Put(d, hop).nodes.Keys >= d.nodes.Keys
    ensures Effective(d, hop) ==> Put(d, hop).nodes == d.nodes && Put(d, hop).links.Keys == d.links.Keys + {(hop.from, hop.to)}
  {
  }

  /** A hop at the end of a drawn path makes it one longer. */
  lemma DrawnOn(ids: seq<string>, keys: seq<Key>, nodes: set<string>, links: set<Key>, id: string)
    requires ids != [] && keys == KeysBetween(ids) && KnownIn(ids, keys, nodes, links)
    ensures var key := (ids[|ids| - 1], id);
            && keys + [key] == KeysBetween(ids + [id])
            && KnownIn(ids + [id], keys + [key], nodes + {id}, links + {key})
  {
    Appended(ids, id);
  }

  lemma HopPut(d: Drawing, s: Step, link: Link, statements: map<string, Grant>)
    requires Effective(d, s)
    requires link == LinkAfter(LinkIn(d, (s.from, s.to)), StatementsIn(d, (s.from, s.to)), PlainLink(d, s), s.grant)
    requires statements == Recorded(StatementsIn(d, (s.from, s.to)), s.grant)
    ensures var e := d.(links := d.links[(s.from, s.to) := link]);
            Put(d, s) == if s.grant.Some? then e.(statements := e.statements[(s.from, s.to) := statements]) else e
  {
  }

  lemma LeadsOne(a: Drawing, s: Step, b: Drawing)
    requires b == Put(a, s)
    ensures Leads(a, [s], b)
  {
    PutOne(a, s);
  }

  lemma LeadsTwo(a: Drawing, s: Step, b: Drawing, t: Step, c: Drawing)
    requires b == Put(a, s) && c == Put(b, t)
    ensures Leads(a, [s, t], c)
  {
    PutTwo(a, s, t);
  }

  // ----- a link in the drawing is the history of its hops

  /** The grants of the hops drawn between two nodes, in order. */
  function HopsAt(d: Drawing, steps: seq<Step>, key: Key): seq<Option<Granted>> {
    if steps == [] then [] else
      var front, last := steps[..|steps| - 1], steps[|steps| - 1];
      var rest := HopsAt(d, front, key);
      if Effective(PutAll(d, front), last) && (last.from, last.to) == key then rest + [last.grant] else rest
  }

  /** Whatever else was drawn, the link between two nodes and the statements behind it come from the
      hops between them alone, the first of which decides its plain look. */
  lemma {:induction false} DrawnFromHops(d: Drawing, steps: seq<Step>, key: Key) returns (plain: Link)
    requires key !in d.links && key !in d.statements
    ensures KeyOf(plain) == key
    ensures var e := PutAll(d, steps);
            (LinkIn(e, key), StatementsIn(e, key)) == LinkHistory(plain, HopsAt(d, steps, key))
    decreases |steps|
  {
    if steps == [] {
      plain := Link(key.0, key.1, "", false, Access, None);
    } else {
      var front, last := steps[..|steps| - 1], steps[|steps| - 1];
      plain := DrawnFromHops(d, front, key);
      var before, hops := PutAll(d, front), HopsAt(d, front, key);
      if Effective(before, last) && (last.from, last.to) == key {
        OwnHop(before, last);
        var own := PlainLink(before, last);
        HistoryGrows(plain, own, hops, last.grant);
        if hops == [] { plain := own; }
      } else {
        OtherStep(before, last, key);
      }
    }
  }

  lemma OwnHop(d: Drawing, s: Step)
    requires Effective(d, s)
    ensures var key := (s.from, s.to);
            && LinkIn(Put(d, s), key) == Some(LinkAfter(LinkIn(d, key), StatementsIn(d, key), PlainLink(d, s), s.grant))
            && StatementsIn(Put(d, s), key) == Recorded(StatementsIn(d, key), s.grant)
  {
  }

  lemma OtherStep(d: Drawing, s: Step, key: Key)
    requires !(Effective(d, s) && (s.from, s.to) == key)
    ensures LinkIn(Put(d, s), key) == LinkIn(d, key) && StatementsIn(Put(d, s), key) == StatementsIn(d, key)
  {
  }

  lemma HistoryGrows(plain: Link, own: Link, hops: seq<Option<Granted>>, grant: Option<Granted>)
    ensures var (link, statements) := LinkHistory(plain, hops);
            var now := (Some(LinkAfter(link, statements, own, grant)), Recorded(statements, grant));
            if hops == [] then LinkHistory(own, hops + [grant]) == now else LinkHistory(plain, hops + [grant]) == now
  {
    assert (hops + [grant])[..|hops|] == hops;
  }

  /** Exactly when the drawn link is of the strongest kind of the statements recorded for it, for any
      drawing that starts blank and any link first drawn by a grant. */
  lemma DrawnKindIsStrongest(steps: seq<Step>, key: Key)
    requires HopsAt(Blank, steps, key) != [] && HopsAt(Blank, steps, key)[0].Some?
    ensures var e, hops := PutAll(Blank, steps), HopsAt(Blank, steps, key);
            && key in e.links
            && (e.links[key].grant == Strongest(StatementsIn(e, key))
                <==> |StatementsIn(e, key)| > 1 || LastKind(hops, hops[0].value.statementId) == Some(hops[0].value.kind))
  {
    var plain := DrawnFromHops(Blank, steps, key);
    var hops := HopsAt(Blank, steps, key);
    GrantedHistory(plain, hops);
    DrawnByStrongest(plain, hops);
  }

  /** The same of a whole drawing: what is recorded for a link, and how it looks. */
  lemma DrawnKindOfMany(steps: seq<Step>, key: Key)
    requires HopsAt(Blank, steps, key) != []
    ensures var e, hops := PutAll(Blank, steps), HopsAt(Blank, steps, key);
            && key in e.links
            && (forall id :: id in StatementsIn(e, key) <==> GrantedBy(hops, id))
            && (forall id :: id in StatementsIn(e, key) ==> LastKind(hops, id) == Some(StatementsIn(e, key)[id]))
            && (|StatementsIn(e, key)| > 1 ==> DrawnOf(e.links[key], StatementsIn(e, key)))
            && (|StatementsIn(e, key)| <= 1 ==> e.links[key].grant == if hops[0].Some? then hops[0].value.kind else Access)
  {
    var plain := DrawnFromHops(Blank, steps, key);
    var hops := HopsAt(Blank, steps, key);
    KindOfMany(plain, hops);
    RecordedAre(plain, hops);
  }

  /** Some hop is by that statement. */
  predicate GrantedBy(hops: seq<Option<Granted>>, id: string) {
    exists i :: 0 <= i < |hops| && hops[i].Some? && hops[i].value.statementId == id
  }

  lemma GrantedByMore(front: seq<Option<Granted>>, last: Option<Granted>, id: string)
    ensures GrantedBy(front + [last], id) <==> GrantedBy(front, id) || (last.Some? && last.value.statementId == id)
  {
    var hops := front + [last];
    if i :| 0 <= i < |front| && front[i].Some? && front[i].value.statementId == id { assert hops[i] == front[i]; }
    assert hops[|front|] == last;
  }

  lemma {:induction false} RecordedAre(plain: Link, hops: seq<Option<Granted>>)
    ensures var statements := LinkHistory(plain, hops).1;
            && (forall id :: id in statements <==> GrantedBy(hops, id))
            && (forall id :: id in statements ==> LastKind(hops, id) == Some(statements[id]))
    decreases |hops|
  {
    if hops != [] {
      var front, last := hops[..|hops| - 1], hops[|hops| - 1];
      RecordedAre(plain, front);
      assert hops == front + [last];
      forall id ensures id in LinkHistory(plain, hops).1 <==> GrantedBy(hops, id) { GrantedByMore(front, last, id); }
    }
  }

  /** A user, a policy, its statement and what that grants. */
  function GrantPath(user: PathVertex, policy: PathVertex, statement: PathVertex, target: PathVertex): PathInput {
    PathInput([user, policy, statement, target], [])
  }

  lemma GrantPathSteps(user: PathVertex, policy: PathVertex, statement: PathVertex, target: PathVertex)
    requires IsPolicy(policy) && !IsPolicy(statement) && IsStatement(statement)
    ensures PathSteps(GrantPath(user, policy, statement, target))
         == [Vertex(user), Fold(user.id, statement), Vertex(target),
             Hop(user.id, target.id, statement.caption, Some(policy.name), Some(Granted(statement.id, GrantKind(statement))))]
  {
    var path := GrantPath(user, policy, statement, target);
    assert path.nodes[1] == policy && path.nodes[2] == statement && path.nodes[3] == target;
    assert RunEnd(path.nodes, 2) == 2 && RunEnd(path.nodes, 1) == 2;
    assert FoldsAt(path.nodes, 0);
    assert StepsAfter(path, 3, target.id) == [];
  }

  /** Two paths through one statement, read as a deny on the first and as an allow on the second: the
      link stays drawn as a deny, though an allow is the only grant recorded for it. */
  lemma KindNotStrongest() returns (inputs: seq<PathInput>, key: Key)
    ensures var e := PutAll(Blank, AllPathSteps(inputs));
            key in e.links && e.links[key].grant == Deny && Strongest(StatementsIn(e, key)) == Access
  {
    var user := PathVertex("u", "IamUser", "", None, [], "", "", false, false);
    var policy := PathVertex("p", "IamPolicy", "", None, [], "", "", false, false);
    var denies := PathVertex("s", "IamPolicyStatement", "", None, [], "", "", true, false);
    var allows := denies.(deny := false);
    var target := PathVertex("b", "S3Bucket", "", None, [], "", "", false, false);
    key := ("u", "b");
    GrantPathSteps(user, policy, denies, target);
    GrantPathSteps(user, policy, allows, target);
    var first, second := GrantPath(user, policy, denies, target), GrantPath(user, policy, allows, target);
    inputs := [first, second];
    assert inputs[..1] == [first] && [first][..0] == [];
    assert AllPathSteps([]) == [];
    assert AllPathSteps([first]) == [] + PathSteps(first) == PathSteps(first);
    assert AllPathSteps(inputs) == PathSteps(first) + PathSteps(second);
    PutConcat(Blank, PathSteps(first), PathSteps(second));
    var d := DrawnOnce(Blank, user, denies, target, Some(""), None);
    var e := DrawnOnce(d, user, allows, target, Some(""), Some(Deny));
    assert StatementsIn(e, key)["s"] == Access;
    assert Access in StatementsIn(e, key).Values;
  }

  /** What the four steps of a grant path do to its link, fresh or drawn before by the same statement. */
  lemma DrawnOnce(d: Drawing, user: PathVertex, statement: PathVertex, target: PathVertex, via: Option<string>, before: Option<Grant>)
    returns (e: Drawing)
    requires user.id != target.id
    requires match before
             case None => (user.id, target.id) !in d.links && (user.id, target.id) !in d.statements
             case Some(kind) => (user.id, target.id) in d.links && d.links[(user.id, target.id)].grant == kind
                                && StatementsIn(d, (user.id, target.id)).Keys <= {statement.id}
    ensures e == PutAll(d, [Vertex(user), Fold(user.id, statement), Vertex(target),
                            Hop(user.id, target.id, statement.caption, via, Some(Granted(statement.id, GrantKind(statement))))])
    ensures var key := (user.id, target.id);
            && key in e.links && StatementsIn(e, key) == map[statement.id := GrantKind(statement)]
            && e.links[key].grant == if before.Some? then before.value else GrantKind(statement)
  {
    var hop := Hop(user.id, target.id, statement.caption, via, Some(Granted(statement.id, GrantKind(statement))));
    var b, c := PutFour(d, Vertex(user), Fold(user.id, statement), Vertex(target), hop);
    e := Put(c, hop);
    var key := (user.id, target.id);
    OtherStep(d, Vertex(user), key);
    OtherStep(Put(d, Vertex(user)), Fold(user.id, statement), key);
    OtherStep(b, Vertex(target), key);
    OwnHop(c, hop);
    OnlyStatement(StatementsIn(d, key), statement.id, GrantKind(statement));
  }

  lemma PutFour(d: Drawing, s: Step, t: Step, u: Step, v: Step) returns (b: Drawing, c: Drawing)
    ensures b == Put(Put(d, s), t) && c == Put(b, u) && PutAll(d, [s, t, u, v]) == Put(c, v)
  {
    b, c := Put(Put(d, s), t), Put(Put(Put(d, s), t), u);
    PutTwo(d, s, t);
    PutTwo(b, u, v);
    PutConcat(d, [s, t], [u, v]);
    assert [s, t] + [u, v] == [s, t, u, v];
  }

  lemma OnlyStatement(statements: map<string, Grant>, id: string, kind: Grant)
    requires statements.Keys <= {id}
    ensures statements[id := kind] == map[id := kind] && |statements[id := kind]| == 1
  {
    assert statements[id := kind].Keys == {id};
  }

  // ----- the builder

  /** A list of the keys of a map, each once. */
  ghost predicate InsertionOrder<K(!new)>(order: seq<K>, keys: set<K>) {
    && (forall k :: k in keys <==> k in order)
    && (forall i, j :: 0 <= i < j < |order| ==> order[i] != order[j])
  }

  lemma OneMoreInOrder<K(!new)>(order: seq<K>, keys: set<K>, key: K)
    requires InsertionOrder(order, keys) && key !in keys
    ensures InsertionOrder(order + [key], keys + {key})
  {
  }

  ghost predicate NodesFiled(nodes: map<string, Node>) {
    forall id :: id in nodes ==> nodes[id].id == id
  }

  /** Each link is under its own key and joins two nodes of the graph. */
  ghost predicate LinksFiled(links: map<Key, Link>, ids: set<string>) {
    forall k :: k in links ==> KeyOf(links[k]) == k && k.0 in ids && k.1 in ids
  }

  lemma LinksFiledOnceMore(links: map<Key, Link>, ids: set<string>, key: Key, link: Link)
    requires LinksFiled(links, ids) && KeyOf(link) == key && key.0 in ids && key.1 in ids
    ensures LinksFiled(links[key := link], ids) && links[key := link].Keys == links.Keys + {key}
  {
  }

  class Builder {
    var nodes: map<string, Node>
    var nodeOrder: seq<string>
    var links: map<Key, Link>
    var linkOrder: seq<Key>
    var statementsByLink: map<Key, map<string, Grant>>
    var paths: seq<Path>

    ghost predicate Valid()
      reads this
    {
      && InsertionOrder(nodeOrder, nodes.Keys) && InsertionOrder(linkOrder, links.Keys)
      && NodesFiled(nodes) && LinksFiled(links, nodes.Keys)
      && statementsByLink.Keys <= links.Keys
    }

    /** Everything the recorded paths refer to is in the graph. */
    ghost predicate PathsKnown()
      reads this
    {
      AllKnown(paths, nodes.Keys, links.Keys)
    }

    constructor ()
      ensures Valid() && PathsKnown() && State() == Blank && paths == []
    {
      nodes, nodeOrder, links, linkOrder, statementsByLink, paths := map[], [], map[], [], map[], [];
    }

    ghost function State(): Drawing
      reads this
    {
      Drawing(nodes, links, statementsByLink)
    }

    method AddNode(v: PathVertex)
      requires Valid()
      modifies this`nodes, this`nodeOrder
      ensures Valid()
      ensures State() == Put(old(State()), Vertex(v)) && nodes.Keys == old(nodes).Keys + {v.id}
    {
      if v.id !in nodes {
        OneMoreInOrder(nodeOrder, nodes.Keys, v.id);
        assert nodes[v.id := NodeOf(v)].Keys == nodes.Keys + {v.id};
        nodes := nodes[v.id := NodeOf(v)];
        nodeOrder := nodeOrder + [v.id];
      }
    }

    /** Stores a link, new or redrawn. */
    method SetLink(key: Key, link: Link)
      requires Valid() && KeyOf(link) == key && key.0 in nodes && key.1 in nodes
      modifies this`links, this`linkOrder
      ensures Valid()
      ensures State() == old(State()).(links := old(links)[key := link])
    {
      if key !in links {
        OneMoreInOrder(linkOrder, links.Keys, key);
        linkOrder := linkOrder + [key];
      }
      LinksFiledOnceMore(links, nodes.Keys, key, link);
      links := links[key := link];
    }

    method AddLink(from: string, to: string, caption: string, via: Option<string>, grant: Option<Granted>) returns (key: Key)
      requires Valid() && from in nodes && to in nodes
      modifies this`links, this`linkOrder, this`statementsByLink
      ensures Valid() && key == (from, to)
      ensures State() == Put(old(State()), Hop(from, to, caption, via, grant))
    {
      key := (from, to);
      ghost var d, hop := State(), Hop(from, to, caption, via, grant);
      var link, statements := LinkFor(from, to, caption, via, grant);
      HopPut(d, hop, link, statements);
      SetLink(key, link);
      if grant.Some? { RecordStatements(key, statements); }
    }

    /** The link between two nodes after one more hop, and the statements then behind it. */
    method LinkFor(from: string, to: string, caption: string, via: Option<string>, grant: Option<Granted>)
      returns (link: Link, statements: map<string, Grant>)
      requires from in nodes && to in nodes
      ensures var d, hop := State(), Hop(from, to, caption, via, grant);
              && link == LinkAfter(LinkIn(d, (from, to)), StatementsIn(d, (from, to)), PlainLink(d, hop), grant)
              && statements == Recorded(StatementsIn(d, (from, to)), grant)
    {
      var key := (from, to);
      var existing := if key in links then Some(links[key]) else None;
      statements := if key in statementsByLink then statementsByLink[key] else map[];
      var plain := Link(from, to, caption, CrossesAccounts(nodes[from], nodes[to]), Access, via);
      link := Redraw(existing, statements, plain, grant);
      if grant.Some? { statements := statements[grant.value.statementId := grant.value.kind]; }
    }

    method RecordStatements(key: Key, statements: map<string, Grant>)
      requires Valid() && key in links
      modifies this`statementsByLink
      ensures Valid()
      ensures State() == old(State()).(statements := old(statementsByLink)[key := statements])
    {
      statementsByLink := statementsByLink[key := statements];
    }

    /** The folded statement's risks join those of its principal. */
    method Absorb(principal: string, statement: PathVertex)
      requires Valid() && principal in nodes
      modifies this`nodes
      ensures Valid()
      ensures State() == Put(old(State()), Fold(principal, statement))
    {
      nodes := nodes[principal := nodes[principal].(risks := MergeFlags(nodes[principal].risks, statement.risks))];
    }

    /** A drawn path so far: its link keys join its ids, and all of it is in the graph. */
    ghost predicate Drawn(ids: seq<string>, keys: seq<Key>)
      reads this
    {
      ids != [] && keys == KeysBetween(ids) && KnownIn(ids, keys, nodes.Keys, links.Keys)
    }

    /** One more hop at the end of a drawn path. */
    method Extend(ids: seq<string>, keys: seq<Key>, v: PathVertex, caption: string, via: Option<string>, grant: Option<Granted>)
      returns (keys': seq<Key>)
      requires Valid() && Drawn(ids, keys)
      modifies this
      ensures Valid() && paths == old(paths) && Drawn(ids + [v.id], keys')
      ensures Leads(old(State()), HopSteps(ids[|ids| - 1], v, caption, via, grant), State())
    {
      DrawnOn(ids, keys, nodes.Keys, links.Keys, v.id);
      AddHop(v, ids[|ids| - 1], v.id, caption, via, grant);
      keys' := keys + [(ids[|ids| - 1], v.id)];
    }

    /** A vertex and then a hop from it or to it. */
    method AddHop(v: PathVertex, from: string, to: string, caption: string, via: Option<string>, grant: Option<Granted>)
      requires Valid() && (from in nodes || from == v.id) && (to in nodes || to == v.id)
      modifies this`nodes, this`nodeOrder, this`links, this`linkOrder, this`statementsByLink
      ensures Valid()
      ensures nodes.Keys == old(nodes).Keys + {v.id} && links.Keys == old(links).Keys + {(from, to)}
      ensures Leads(old(State()), [Vertex(v), Hop(from, to, caption, via, grant)], State())
    {
      ghost var a, hop := State(), Hop(from, to, caption, via, grant);
      AddNode(v);
      ghost var b := State();
      PutKeys(a, v, hop);
      PutKeys(b, v, hop);
      var key := AddLink(from, to, caption, via, grant);
      LeadsTwo(a, Vertex(v), b, hop, State());
    }

    method AddPath(path: PathInput) returns (start: Option<string>)
      requires Valid() && PathsKnown()
      modifies this
      ensures Valid() && PathsKnown()
      ensures path.nodes == [] ==> start.None? && paths == old(paths) && links == old(links) && nodes == old(nodes)
      ensures path.nodes != [] ==> start == Some(path.nodes[0].id) && start.value in nodes
      ensures path.nodes != [] ==>
                var ids := DrawnIds(path.nodes); paths == old(paths) + [Path(path.nodes[0].id, ids, KeysBetween(ids))]
      ensures old(nodes).Keys <= nodes.Keys && old(links).Keys <= links.Keys
      ensures Leads(old(State()), PathSteps(path), State())
    {
      var vertices := path.nodes;
      if |vertices| == 0 { return None; }
      ghost var d := State();
      PutOne(d, Vertex(vertices[0]));
      AddNode(vertices[0]);
      ghost var here := State();
      ghost var did;
      var nodeIds, linkKeys;
      nodeIds, linkKeys, did := DrawRest(path);
      LeadsOn(d, [Vertex(vertices[0])], here, did, State());
      LeadsGrow(d, PathSteps(path), State());
      KnownInMore(paths, d.nodes.Keys, d.links.Keys, nodes.Keys, links.Keys);
      paths := paths + [Path(vertices[0].id, nodeIds, linkKeys)];
      start := Some(vertices[0].id);
    }

    /** The path loop, from the first vertex on. */
    method DrawRest(path: PathInput) returns (nodeIds: seq<string>, linkKeys: seq<Key>, ghost did: seq<Step>)
      requires Valid() && path.nodes != [] && path.nodes[0].id in nodes
      modifies this
      ensures Valid() && paths == old(paths) && Drawn(nodeIds, linkKeys)
      ensures nodeIds == DrawnIds(path.nodes) && did == StepsAfter(path, 0, path.nodes[0].id)
      ensures Leads(old(State()), did, State())
    {
      ghost var d := State();
      var i := 0;
      nodeIds, linkKeys, did := [path.nodes[0].id], [], [];
      while i < |path.nodes| - 1
        invariant 0 <= i < |path.nodes|
        invariant Valid() && paths == old(paths) && Drawn(nodeIds, linkKeys)
        invariant Leads(d, did, State()) && DrawnSoFar(path, i, nodeIds, did)
        decreases |path.nodes| - i
      {
        ghost var more, here, i0, ids0 := [], State(), i, nodeIds;
        i, nodeIds, linkKeys, more := DrawNext(path, i, nodeIds, linkKeys);
        LeadsOn(d, did, here, more, State());
        DrawnFurther(path, i0, ids0, did, more, i, nodeIds);
        did := did + more;
      }
      AllDrawn(path, i, nodeIds, did);
    }

    /** A folded chain: the statement's risks, and one hop to what it grants, if the path goes on. */
    method FoldHop(ids: seq<string>, keys: seq<Key>, statement: PathVertex, granted: Option<PathVertex>, via: string)
      returns (keys': seq<Key>)
      requires Valid() && Drawn(ids, keys)
      modifies this
      ensures Valid() && paths == old(paths) && Drawn(ids + MoveIds(Folded(statement, granted, via)), keys')
      ensures Leads(old(State()), FoldSteps(ids[|ids| - 1], statement, granted, via), State())
    {
      ghost var d, at := State(), ids[|ids| - 1];
      Absorb(ids[|ids| - 1], statement);
      ghost var folded := State();
      LeadsOne(d, Fold(at, statement), folded);
      keys' := keys;
      if granted.Some? {
        var grant := Some(Granted(statement.id, GrantKind(statement)));
        keys' := Extend(ids, keys, granted.value, statement.caption, Some(via), grant);
        LeadsOn(d, [Fold(at, statement)], folded, HopSteps(at, granted.value, statement.caption, Some(via), grant), State());
      } else {
        assert ids + [] == ids;
      }
    }

    /** One round of the path loop: a policy chain folds into one hop, any other vertex is its own. */
    method DrawNext(path: PathInput, i: nat, ids: seq<string>, keys: seq<Key>)
      returns (i': nat, ids': seq<string>, keys': seq<Key>, ghost did: seq<Step>)
      requires Valid() && Drawn(ids, keys) && i < |path.nodes| - 1
      modifies this
      ensures Valid() && paths == old(paths) && Drawn(ids', keys')
      ensures Leads(old(State()), did, State())
      ensures Turned(path, i, ids, did, i', ids')
    {
      var m;
      m, i' := NextMove(path, i, ids);
      did := MoveSteps(m, ids[|ids| - 1]);
      match m {
        case Plain(v, caption) => keys' := Extend(ids, keys, v, caption, None, None);
        case Folded(statement, granted, via) => keys' := FoldHop(ids, keys, statement, granted, via);
      }
      ids' := ids + MoveIds(m);
    }

    /** Entry nodes and links join every path that starts at `start`. */
    method AddEntry(start: string, entry: Entry, internet: PathVertex, unresolved: PathVertex)
      requires Valid() && PathsKnown() && start in nodes
      modifies this
      ensures Valid() && PathsKnown()
      ensures old(nodes).Keys <= nodes.Keys && old(links).Keys <= links.Keys
      ensures Leads(old(State()), EntrySteps(start, EntryVertices(entry, internet, unresolved), EntryCaption(entry)), State())
      ensures JoinedIn(EntryVertices(entry, internet, unresolved), start, nodes.Keys, links.Keys)
      ensures paths == OpenedAll(old(paths), EntryVertices(entry, internet, unresolved), start)
    {
      var openers := EntryVertices(entry, internet, unresolved);
      ghost var d := State();
      JoinEntries(start, openers, EntryCaption(entry));
      LeadsGrow(d, EntrySteps(start, openers, EntryCaption(entry)), State());
      KnownInMore(paths, old(nodes).Keys, old(links).Keys, nodes.Keys, links.Keys);
      OpenPaths(start, openers);
    }

    method JoinEntries(start: string, openers: seq<PathVertex>, caption: string)
      requires Valid() && start in nodes
      modifies this
      ensures Valid() && paths == old(paths)
      ensures JoinedIn(openers, start, nodes.Keys, links.Keys)
      ensures Leads(old(State()), EntrySteps(start, openers, caption), State())
    {
      ghost var before := State();
      assert openers[..|openers|] == openers;
      for i := 0 to |openers|
        invariant Valid() && paths == old(paths)
        invariant Leads(before, EntrySteps(start, openers[..i], caption), State())
        invariant JoinedIn(openers[..i], start, nodes.Keys, links.Keys)
      {
        ghost var here := State();
        AddHop(openers[i], openers[i].id, start, caption, None, None);
        EntryLeadsOn(before, start, openers, caption, i, here, State());
        JoinedMore(openers, i, start, here.nodes.Keys, here.links.Keys);
      }
    }

    method OpenPaths(start: string, openers: seq<PathVertex>)
      requires Valid() && PathsKnown()
      requires JoinedIn(openers, start, nodes.Keys, links.Keys)
      modifies this
      ensures Valid() && PathsKnown() && nodes == old(nodes) && links == old(links) && statementsByLink == old(statementsByLink)
      ensures paths == OpenedAll(old(paths), openers, start)
    {
      var joined: seq<Path> := [];
      for i := 0 to |paths|
        modifies {}
        invariant |joined| == i
        invariant forall k :: 0 <= k < i ==> joined[k] == MaybeOpened(paths[k], openers, start)
        invariant AllKnown(joined, nodes.Keys, links.Keys)
      {
        assert paths[i] in paths;
        OpenedKnown(paths[i], openers, start, nodes.Keys, links.Keys);
        joined := joined + [MaybeOpened(paths[i], openers, start)];
      }
      assert joined == OpenedAll(paths, openers, start);
      paths := joined;
    }

    /** The finished model, in insertion order. */
    method Build() returns (model: Model)
      requires Valid() && PathsKnown()
      ensures WellFormed(model) && Closed(model)
      ensures Shows(model, State())
      ensures model.paths == paths
      ensures forall p, k :: p in model.paths && k in p.linkKeys ==> HasKey(model.links, k)
    {
      var ns := seq(|nodeOrder|, i requires 0 <= i < |nodeOrder| && nodeOrder[i] in nodes reads this => nodes[nodeOrder[i]]);
      var ls := seq(|linkOrder|, i requires 0 <= i < |linkOrder| && linkOrder[i] in links reads this => links[linkOrder[i]]);
      model := Model(ns, ls, paths);
      NodesListed(nodeOrder, nodes, ns);
      LinksListed(linkOrder, links, nodes.Keys, ls);
      forall l | l in ls ensures l.from in NodeIds(ns) && l.to in NodeIds(ns) {
        assert nodes[l.from] in ns && nodes[l.to] in ns;
      }
      forall p, k | p in paths && k in p.linkKeys ensures HasKey(ls, k) {
        assert links[k] in ls && KeyOf(links[k]) == k;
      }
    }
  }

  lemma NodesListed(order: seq<string>, nodes: map<string, Node>, ns: seq<Node>)
    requires InsertionOrder(order, nodes.Keys) && NodesFiled(nodes)
    requires |ns| == |order| && forall i :: 0 <= i < |order| ==> order[i] in nodes && ns[i] == nodes[order[i]]
    ensures forall n :: n in ns <==> n.id in nodes && nodes[n.id] == n
    ensures forall i, j :: 0 <= i < j < |ns| ==> ns[i].id != ns[j].id
  {
    forall id | id in nodes ensures nodes[id] in ns {
      var i :| 0 <= i < |order| && order[i] == id;
      assert ns[i] == nodes[id];
    }
    forall i, j | 0 <= i < j < |ns| ensures ns[i].id != ns[j].id {
      assert ns[i].id == order[i] && ns[j].id == order[j];
    }
  }

  lemma LinksListed(order: seq<Key>, links: map<Key, Link>, ids: set<string>, ls: seq<Link>)
    requires InsertionOrder(order, links.Keys) && LinksFiled(links, ids)
    requires |ls| == |order| && forall i :: 0 <= i < |order| ==> order[i] in links && ls[i] == links[order[i]]
    ensures forall l :: l in ls <==> KeyOf(l) in links && links[KeyOf(l)] == l
    ensures forall l :: l in ls ==> l.from in ids && l.to in ids
    ensures forall i, j :: 0 <= i < j < |ls| ==> KeyOf(ls[i]) != KeyOf(ls[j])
  {
    forall k | k in links ensures links[k] in ls {
      var i :| 0 <= i < |order| && order[i] == k;
      assert ls[i] == links[k];
    }
    forall i, j | 0 <= i < j < |ls| ensures KeyOf(ls[i]) != KeyOf(ls[j]) {
      assert KeyOf(ls[i]) == order[i] && KeyOf(ls[j]) == order[j];
    }
  }

  /** Everything a list of ids and keys refers to is in a graph with these ids and keys. */
  ghost predicate KnownIn(pathIds: seq<string>, pathKeys: seq<Key>, ids: set<string>, keys: set<Key>) {
    (forall id :: id in pathIds ==> id in ids) && (forall k :: k in pathKeys ==> k in keys)
  }

  /** Every opener is in the graph and linked to the start. */
  ghost predicate JoinedIn(openers: seq<PathVertex>, start: string, ids: set<string>, keys: set<Key>) {
    forall v :: v in openers ==> v.id in ids && (v.id, start) in keys
  }

  lemma JoinedMore(openers: seq<PathVertex>, i: nat, start: string, ids: set<string>, keys: set<Key>)
    requires i < |openers| && JoinedIn(openers[..i], start, ids, keys)
    ensures JoinedIn(openers[..i + 1], start, ids + {openers[i].id}, keys + {(openers[i].id, start)})
  {
    assert openers[..i + 1] == openers[..i] + [openers[i]];
  }

  ghost predicate AllKnown(paths: seq<Path>, ids: set<string>, keys: set<Key>) {
    forall p :: p in paths ==> KnownIn(p.nodeIds, p.linkKeys, ids, keys)
  }

  lemma KnownInMore(paths: seq<Path>, ids: set<string>, keys: set<Key>, ids': set<string>, keys': set<Key>)
    requires AllKnown(paths, ids, keys) && ids <= ids' && keys <= keys'
    ensures AllKnown(paths, ids', keys')
  {
  }

  function MergeFlags(into: seq<Flag>, extra: seq<Flag>): (r: seq<Flag>)
    ensures into <= r
    ensures forall f :: f in extra ==> exists g :: g in r && g.text == f.text
    decreases |extra|
  {
    if extra == [] then into
    else
      var more := if exists g :: g in into && g.text == extra[0].text then into else into + [extra[0]];
      assert exists g :: g in more && g.text == extra[0].text by {
        if more != into { assert extra[0] in more; }
      }
      MergeFlags(more, extra[1..])
  }

  /** The label of the first edge recorded from one vertex to another. */
  function EdgeCaption(edges: seq<PathEdge>, from: string, to: string): string {
    if edges == [] then "CONNECTED"
    else if edges[0].from == from && edges[0].to == to then edges[0].labelName
    else EdgeCaption(edges[1..], from, to)
  }

  /** A first hop is drawn as it comes; a later one changes the drawing only when it brings a grant
      and the hop now stands for several statements. */
  method Redraw(existing: Option<Link>, statements: map<string, Grant>, plain: Link, grant: Option<Granted>) returns (link: Link)
    ensures link == LinkAfter(existing, statements, plain, grant)
  {
    if existing.None? {
      return if grant.Some? then plain.(grant := grant.value.kind) else plain.(grant := Access);
    }
    link := existing.value;
    if grant.Some? {
      var now := statements[grant.value.statementId := grant.value.kind];
      if |now| > 1 {
        var kind := Strongest(now);
        link := link.(grant := kind, caption := ManyCaption(kind, |now|), via := None);
      }
    }
  }

  function EntryVertices(entry: Entry, internet: PathVertex, unresolved: PathVertex): seq<PathVertex> {
    match entry
    case FromInternet => [internet]
    case FromOutside(principals) => if principals == [] then [unresolved] else principals
  }

  /** Each opener goes to the front, so the last one ends up first. */
  function Opened(p: Path, openers: seq<PathVertex>, start: string): Path {
    if openers == [] then p else
      var rest := Opened(p, openers[..|openers| - 1], start);
      var v := openers[|openers| - 1];
      Path(rest.startId, [v.id] + rest.nodeIds, [(v.id, start)] + rest.linkKeys)
  }

  function MaybeOpened(p: Path, openers: seq<PathVertex>, start: string): Path {
    if p.startId == start then Opened(p, openers, start) else p
  }

  function OpenedAll(paths: seq<Path>, openers: seq<PathVertex>, start: string): (r: seq<Path>)
    ensures |r| == |paths|
  {
    seq(|paths|, i requires 0 <= i < |paths| => MaybeOpened(paths[i], openers, start))
  }

  lemma {:induction false} OpenedKnown(p: Path, openers: seq<PathVertex>, start: string, ids: set<string>, keys: set<Key>)
    requires KnownIn(p.nodeIds, p.linkKeys, ids, keys)
    requires JoinedIn(openers, start, ids, keys)
    ensures var q := Opened(p, openers, start); KnownIn(q.nodeIds, q.linkKeys, ids, keys)
    decreases |openers|
  {
    if openers != [] { OpenedKnown(p, openers[..|openers| - 1], start, ids, keys); }
  }

  /** The path's link keys join its consecutive ids. */
  ghost predicate Chains(p: Path) { p.nodeIds != [] && p.linkKeys == KeysBetween(p.nodeIds) }

  /** Every opener but the last one listed has the id that they open at. */
  predicate OpenInOne(openers: seq<PathVertex>, start: string) {
    forall i :: 0 <= i < |openers| - 1 ==> openers[i].id == start
  }

  /** One id and one key in front: they join when the path went on from where the key leads. */
  lemma ChainsInFront(p: Path, v: string, start: string)
    requires p.nodeIds != []
    ensures Chains(Path(p.startId, [v] + p.nodeIds, [(v, start)] + p.linkKeys)) <==> Chains(p) && p.nodeIds[0] == start
  {
    var ids, keys := [v] + p.nodeIds, [(v, start)] + p.linkKeys;
    assert KeysBetween(ids) == [(v, p.nodeIds[0])] + KeysBetween(p.nodeIds);
    if keys == KeysBetween(ids) {
      assert keys[0] == KeysBetween(ids)[0];
      assert keys[1..] == p.linkKeys && KeysBetween(ids)[1..] == KeysBetween(p.nodeIds);
    }
  }

  /** Exactly when an opened path still chains: every opener but the last listed is the start itself, so
      with two principals or more from outside practically never. */
  lemma {:induction false} OpenedChainsExactlyWhen(p: Path, openers: seq<PathVertex>, start: string)
    requires Chains(p) && p.nodeIds[0] == start
    ensures Chains(Opened(p, openers, start)) <==> OpenInOne(openers, start)
    ensures var q := Opened(p, openers, start);
            q.nodeIds != [] && q.nodeIds[0] == if openers == [] then start else openers[|openers| - 1].id
    decreases |openers|
  {
    if openers != [] {
      var front, v := openers[..|openers| - 1], openers[|openers| - 1];
      OpenedChainsExactlyWhen(p, front, start);
      ChainsInFront(Opened(p, front, start), v.id, start);
      OneMoreOpener(openers, start);
    }
  }

  lemma OneMoreOpener(openers: seq<PathVertex>, start: string)
    requires openers != []
    ensures var front := openers[..|openers| - 1];
            OpenInOne(openers, start) <==> OpenInOne(front, start) && (front == [] || front[|front| - 1].id == start)
  {
  }

  /** Two principals in front of a one-vertex path: the keys no longer join the ids. */
  lemma TwoPrincipalsBreakTheChain(a: PathVertex, b: PathVertex)
    requires a.id != "role"
    ensures var p := Path("role", ["role"], []);
            Chains(p) && Opened(p, [a, b], "role") == Path("role", [b.id, a.id, "role"], [(b.id, "role"), (a.id, "role")])
            && !Chains(Opened(p, [a, b], "role"))
  {
    var p := Path("role", ["role"], []);
    assert [a, b][..1] == [a] && [a][..0] == [];
    assert Opened(p, [], "role") == p;
    assert Opened(p, [a], "role") == Path("role", [a.id] + ["role"], [(a.id, "role")] + []);
    assert [b.id] + ([a.id] + ["role"]) == [b.id, a.id, "role"];
    assert [(b.id, "role")] + ([(a.id, "role")] + []) == [(b.id, "role"), (a.id, "role")];
    OpenedChainsExactlyWhen(p, [a, b], "role");
    assert [a, b][0].id == a.id;
  }

  lemma Appended(ids: seq<string>, id: string)
    requires ids != []
    ensures KeysBetween(ids + [id]) == KeysBetween(ids) + [(ids[|ids| - 1], id)]
  {
  }

  method EndOfRun(vertices: seq<PathVertex>, from: nat) returns (j: nat)
    requires from <= |vertices|
    ensures j == RunEnd(vertices, from)
  {
    j := from;
    while j < |vertices| && IsPolicy(vertices[j])
      invariant from <= j <= |vertices|
      invariant RunEnd(vertices, j) == RunEnd(vertices, from)
    {
      j := j + 1;
    }
  }

  lemma IdsOfMore(v: PathVertex, rest: seq<PathVertex>)
    ensures IdsOfVertices([v] + rest) == [v.id] + IdsOfVertices(rest)
  {
  }

  /** The model lists exactly the nodes and links of the drawing. */
  ghost predicate Shows(model: Model, d: Drawing) {
    && (forall n :: n in model.nodes <==> n.id in d.nodes && d.nodes[n.id] == n)
    && (forall l :: l in model.links <==> KeyOf(l) in d.links && d.links[KeyOf(l)] == l)
  }

  // ----- many paths and their entries

  function AllPathSteps(inputs: seq<PathInput>): seq<Step> {
    if inputs == [] then [] else AllPathSteps(inputs[..|inputs| - 1]) + PathSteps(inputs[|inputs| - 1])
  }

  function DrawnPaths(inputs: seq<PathInput>): seq<Path> {
    if inputs == [] then [] else
      var rest, vs := DrawnPaths(inputs[..|inputs| - 1]), inputs[|inputs| - 1].nodes;
      if vs == [] then rest else rest + [Path(vs[0].id, DrawnIds(vs), KeysBetween(DrawnIds(vs)))]
  }

  /** The ids that paths start at, in order of first appearance. */
  function StartsOf(inputs: seq<PathInput>): seq<string> {
    if inputs == [] then [] else
      var rest, vs := StartsOf(inputs[..|inputs| - 1]), inputs[|inputs| - 1].nodes;
      if vs == [] || vs[0].id in rest then rest else rest + [vs[0].id]
  }

  function OpenersAt(id: string, entries: map<string, Entry>, internet: PathVertex, unresolved: map<string, PathVertex>): seq<PathVertex> {
    if id in entries && id in unresolved then EntryVertices(entries[id], internet, unresolved[id]) else []
  }

  function AllEntrySteps(starts: seq<string>, entries: map<string, Entry>, internet: PathVertex, unresolved: map<string, PathVertex>): seq<Step> {
    if starts == [] then [] else
      var id := starts[|starts| - 1];
      AllEntrySteps(starts[..|starts| - 1], entries, internet, unresolved)
      + if id in entries then EntrySteps(id, OpenersAt(id, entries, internet, unresolved), EntryCaption(entries[id])) else []
  }

  function AllOpened(drawn: seq<Path>, starts: seq<string>, entries: map<string, Entry>, internet: PathVertex,
                     unresolved: map<string, PathVertex>): (r: seq<Path>)
    ensures |r| == |drawn|
  {
    if starts == [] then drawn else
      var id := starts[|starts| - 1];
      var rest := AllOpened(drawn, starts[..|starts| - 1], entries, internet, unresolved);
      if id in entries then OpenedAll(rest, OpenersAt(id, entries, internet, unresolved), id) else rest
  }

  /** One more path: its steps, its summary, and its start if that is new. */
  lemma PathOneMore(inputs: seq<PathInput>, i: nat)
    requires i < |inputs|
    ensures AllPathSteps(inputs[..i + 1]) == AllPathSteps(inputs[..i]) + PathSteps(inputs[i])
    ensures var vs := inputs[i].nodes;
            && DrawnPaths(inputs[..i + 1])
               == (if vs == [] then DrawnPaths(inputs[..i])
                   else DrawnPaths(inputs[..i]) + [Path(vs[0].id, DrawnIds(vs), KeysBetween(DrawnIds(vs)))])
            && StartsOf(inputs[..i + 1])
               == (if vs == [] || vs[0].id in StartsOf(inputs[..i]) then StartsOf(inputs[..i]) else StartsOf(inputs[..i]) + [vs[0].id])
  {
    assert inputs[..i + 1][..i] == inputs[..i];
  }

  lemma EntriesOneMore(starts: seq<string>, i: nat, entries: map<string, Entry>, internet: PathVertex, unresolved: map<string, PathVertex>,
                       drawn: seq<Path>)
    requires i < |starts|
    ensures var id := starts[i];
            var openers := OpenersAt(id, entries, internet, unresolved);
            var rest := AllOpened(drawn, starts[..i], entries, internet, unresolved);
            && AllEntrySteps(starts[..i + 1], entries, internet, unresolved)
               == AllEntrySteps(starts[..i], entries, internet, unresolved)
                  + (if id in entries then EntrySteps(id, openers, EntryCaption(entries[id])) else [])
            && AllOpened(drawn, starts[..i + 1], entries, internet, unresolved)
               == (if id in entries then OpenedAll(rest, openers, id) else rest)
  {
    assert starts[..i + 1][..i] == starts[..i];
  }

  lemma {:induction false} StartsListed(inputs: seq<PathInput>)
    ensures forall i, j :: 0 <= i < j < |StartsOf(inputs)| ==> StartsOf(inputs)[i] != StartsOf(inputs)[j]
    ensures forall p :: p in DrawnPaths(inputs) ==> p.startId in StartsOf(inputs) && Chains(p) && p.nodeIds[0] == p.startId
    decreases |inputs|
  {
    if inputs != [] { StartsListed(inputs[..|inputs| - 1]); }
  }

  /** Starts are listed once, so a path is opened at most once, by the entry of its own start. */
  lemma {:induction false} OpenedByOwnEntry(drawn: seq<Path>, starts: seq<string>, entries: map<string, Entry>, internet: PathVertex,
                                            unresolved: map<string, PathVertex>, i: nat)
    requires i < |drawn| && forall x, y :: 0 <= x < y < |starts| ==> starts[x] != starts[y]
    ensures var id := drawn[i].startId;
            && AllOpened(drawn, starts, entries, internet, unresolved)[i]
               == (if id in starts && id in entries then Opened(drawn[i], OpenersAt(id, entries, internet, unresolved), id) else drawn[i])
    decreases |starts|
  {
    if starts != [] {
      var front, last := starts[..|starts| - 1], starts[|starts| - 1];
      OpenedByOwnEntry(drawn, front, entries, internet, unresolved, i);
      assert forall x :: x in starts <==> x in front || x == last;
      OpenedStartId(drawn[i], OpenersAt(drawn[i].startId, entries, internet, unresolved), drawn[i].startId);
    }
  }

  lemma {:induction false} OpenedStartId(p: Path, openers: seq<PathVertex>, start: string)
    ensures Opened(p, openers, start).startId == p.startId
    decreases |openers|
  {
    if openers != [] { OpenedStartId(p, openers[..|openers| - 1], start); }
  }

  predicate ChainsThrough(id: string, entries: map<string, Entry>, internet: PathVertex, unresolved: map<string, PathVertex>) {
    id in entries ==> OpenInOne(OpenersAt(id, entries, internet, unresolved), id)
  }

  /** Over a whole graph: a path of the model chains exactly when its start has no entry, or one whose
      openers but the last are that start. */
  lemma PathsChainExactlyWhen(inputs: seq<PathInput>, entries: map<string, Entry>, internet: PathVertex,
                              unresolved: map<string, PathVertex>, i: nat)
    requires i < |DrawnPaths(inputs)|
    ensures var id := DrawnPaths(inputs)[i].startId;
            Chains(AllOpened(DrawnPaths(inputs), StartsOf(inputs), entries, internet, unresolved)[i])
            <==> ChainsThrough(id, entries, internet, unresolved)
  {
    var p := DrawnPaths(inputs)[i];
    StartsListed(inputs);
    assert p in DrawnPaths(inputs);
    OpenedByOwnEntry(DrawnPaths(inputs), StartsOf(inputs), entries, internet, unresolved, i);
    OpenedChainsExactlyWhen(p, OpenersAt(p.startId, entries, internet, unresolved), p.startId);
  }

  method DrawPaths(builder: Builder, inputs: seq<PathInput>) returns (starts: seq<string>)
    requires builder.Valid() && builder.PathsKnown() && builder.State() == Blank && builder.paths == []
    modifies builder
    ensures builder.Valid() && builder.PathsKnown()
    ensures Leads(Blank, AllPathSteps(inputs), builder.State()) && builder.paths == DrawnPaths(inputs)
    ensures starts == StartsOf(inputs) && forall s :: s in starts ==> s in builder.nodes
  {
    starts := [];
    for i := 0 to |inputs|
      invariant builder.Valid() && builder.PathsKnown()
      invariant Leads(Blank, AllPathSteps(inputs[..i]), builder.State()) && builder.paths == DrawnPaths(inputs[..i])
      invariant starts == StartsOf(inputs[..i]) && forall s :: s in starts ==> s in builder.nodes
    {
      PathOneMore(inputs, i);
      ghost var here := builder.State();
      var start := builder.AddPath(inputs[i]);
      LeadsOn(Blank, AllPathSteps(inputs[..i]), here, PathSteps(inputs[i]), builder.State());
      if start.Some? && start.value !in starts { starts := starts + [start.value]; }
    }
    assert inputs[..|inputs|] == inputs;
  }

  method DrawEntries(builder: Builder, starts: seq<string>, entries: map<string, Entry>, internet: PathVertex,
                     unresolved: map<string, PathVertex>)
    requires builder.Valid() && builder.PathsKnown() && forall s :: s in starts ==> s in builder.nodes && s in unresolved
    modifies builder
    ensures builder.Valid() && builder.PathsKnown()
    ensures Leads(old(builder.State()), AllEntrySteps(starts, entries, internet, unresolved), builder.State())
    ensures builder.paths == AllOpened(old(builder.paths), starts, entries, internet, unresolved)
  {
    ghost var d, drawn := builder.State(), builder.paths;
    for i := 0 to |starts|
      invariant builder.Valid() && builder.PathsKnown()
      invariant Leads(d, AllEntrySteps(starts[..i], entries, internet, unresolved), builder.State())
      invariant builder.paths == AllOpened(drawn, starts[..i], entries, internet, unresolved)
    {
      EntriesOneMore(starts, i, entries, internet, unresolved, drawn);
      ghost var here, some := builder.State(), AllEntrySteps(starts[..i], entries, internet, unresolved);
      assert some + [] == some;
      if starts[i] in entries {
        LeadsGrow(d, some, here);
        builder.AddEntry(starts[i], entries[starts[i]], internet, unresolved[starts[i]]);
        LeadsOn(d, some, here, EntrySteps(starts[i], OpenersAt(starts[i], entries, internet, unresolved), EntryCaption(entries[starts[i]])),
                builder.State());
      }
    }
    assert starts[..|starts|] == starts;
  }

  lemma StartsKnown(inputs: seq<PathInput>, unresolved: map<string, PathVertex>)
    requires forall path :: path in inputs && path.nodes != [] ==> path.nodes[0].id in unresolved
    ensures forall s :: s in StartsOf(inputs) ==> s in unresolved
  {
    if inputs != [] { StartsKnown(inputs[..|inputs| - 1], unresolved); }
  }

  /** Paths merged into one graph, with the entries of the vertices they start at: the model shows
      exactly what the steps of the paths and then of the entries draw. */
  method BuildAttackGraph(inputs: seq<PathInput>, entries: map<string, Entry>, internet: PathVertex,
                          unresolved: map<string, PathVertex>)
    returns (model: Model)
    requires forall path :: path in inputs && path.nodes != [] ==> path.nodes[0].id in unresolved
    ensures WellFormed(model) && Closed(model)
    ensures var starts := StartsOf(inputs);
            && Shows(model, PutAll(Blank, AllPathSteps(inputs) + AllEntrySteps(starts, entries, internet, unresolved)))
            && model.paths == AllOpened(DrawnPaths(inputs), starts, entries, internet, unresolved)
    ensures forall i :: 0 <= i < |model.paths| ==>
              (Chains(model.paths[i]) <==> ChainsThrough(DrawnPaths(inputs)[i].startId, entries, internet, unresolved))
    ensures forall p, k :: p in model.paths && k in p.linkKeys ==> HasKey(model.links, k)
  {
    var builder := new Builder();
    var starts := DrawPaths(builder, inputs);
    StartsKnown(inputs, unresolved);
    ghost var here := builder.State();
    DrawEntries(builder, starts, entries, internet, unresolved);
    LeadsOn(Blank, AllPathSteps(inputs), here, AllEntrySteps(starts, entries, internet, unresolved), builder.State());
    forall i | 0 <= i < |builder.paths|
      ensures Chains(builder.paths[i]) <==> ChainsThrough(DrawnPaths(inputs)[i].startId, entries, internet, unresolved)
    {
      PathsChainExactlyWhen(inputs, entries, internet, unresolved, i);
    }
    model := builder.Build();
  }
}
