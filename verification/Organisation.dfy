/** Which accounts a deployment collects: the walk over the organisation's units, the listed accounts,
    and the work items. A hierarchy may hold cycles and shared children. */
module Organisation {
  import opened Basics
  import opened Pagination

  /** An account as the service lists it. */
  datatype Listed = Listed(id: Option<string>, name: Option<string>, state: Option<string>)

  datatype Account = Account(accountId: string, name: Option<string>, state: string, parentId: Option<string>)

  /** How the service answers the two listings of one parent, request by request. */
  datatype Parent = Parent(accounts: nat -> Response<Listed>, units: nat -> Response<Option<string>>)

  /** A parent that is absent makes the service refuse the listing. */
  type Org = map<string, Parent>

  const MAX_PAGES := 1000

  function Truthy(s: Option<string>): bool { s.Some? && s.value != "" }

  function Entry(a: Listed, id: string, parent: string): Account {
    Account(id, a.name, if Truthy(a.state) then a.state.value else "UNKNOWN", Some(parent))
  }

  /** The last account listed with an id. */
  function LastListed(listed: seq<Listed>, id: string): Option<Listed> {
    if listed == [] then None else
      var last := listed[|listed| - 1];
      if last.id == Some(id) then Some(last) else LastListed(listed[..|listed| - 1], id)
  }

  /** The last place in a listing that names the id. */
  predicate ListedLastAt(listed: seq<Listed>, id: string, i: int) {
    0 <= i < |listed| && listed[i].id == Some(id) && forall j :: i < j < |listed| ==> listed[j].id != Some(id)
  }

  lemma {:induction false} LastListedExactly(listed: seq<Listed>, id: string)
    ensures LastListed(listed, id).Some? <==> exists a :: a in listed && a.id == Some(id)
    ensures LastListed(listed, id).Some? ==> exists i :: ListedLastAt(listed, id, i) && LastListed(listed, id) == Some(listed[i])
    decreases |listed|
  {
    if listed != [] {
      var front, last := listed[..|listed| - 1], listed[|listed| - 1];
      LastListedExactly(front, id);
      assert forall a :: a in listed <==> a in front || a == last;
      if last.id == Some(id) {
        assert ListedLastAt(listed, id, |listed| - 1);
      } else if i :| ListedLastAt(front, id, i) && LastListed(front, id) == Some(front[i]) {
        assert ListedLastAt(listed, id, i);
      }
    }
  }

  // ----- what the hierarchy says

  /** Both listings of the parent reach their end, and every account has an id. */
  ghost predicate Healthy(org: Org, p: string) {
    && p in org
    && Listing(org[p].accounts, MAX_PAGES).Some?
    && Listing(org[p].units, MAX_PAGES).Some?
    && forall a :: a in Listing(org[p].accounts, MAX_PAGES).value ==> Truthy(a.id)
  }

  ghost predicate IsChild(org: Org, p: string, c: string) {
    p in org && Listing(org[p].units, MAX_PAGES).Some? && c != "" && Some(c) in Listing(org[p].units, MAX_PAGES).value
  }

  /** `path` descends from one of the roots. */
  ghost predicate Descends(org: Org, roots: seq<string>, path: seq<string>) {
    && path != [] && path[0] in roots
    && forall i :: 0 <= i < |path| - 1 ==> Healthy(org, path[i]) && IsChild(org, path[i], path[i + 1])
  }

  ghost predicate Reachable(org: Org, roots: seq<string>, p: string) {
    exists path :: Descends(org, roots, path) && path[|path| - 1] == p
  }

  ghost predicate Under(org: Org, p: string, accountId: string) {
    p in org && Listing(org[p].accounts, MAX_PAGES).Some?
    && LastListed(Listing(org[p].accounts, MAX_PAGES).value, accountId).Some?
  }

  /** How a parent lists one of its accounts. */
  ghost function EntryAt(org: Org, p: string, accountId: string): Account
    requires Under(org, p, accountId)
  {
    Entry(LastListed(Listing(org[p].accounts, MAX_PAGES).value, accountId).value, accountId, p)
  }

  /** The last of the visited parents to list an account. */
  ghost function LastParent(org: Org, visits: seq<string>, accountId: string): Option<string> {
    if visits == [] then None else
      var last := visits[|visits| - 1];
      if Under(org, last, accountId) then Some(last) else LastParent(org, visits[..|visits| - 1], accountId)
  }

  lemma {:induction false} LastParentIsUnder(org: Org, visits: seq<string>, accountId: string)
    ensures var p := LastParent(org, visits, accountId);
            && (p.Some? <==> exists q :: q in visits && Under(org, q, accountId))
            && (p.Some? ==> p.value in visits && Under(org, p.value, accountId))
    decreases |visits|
  {
    if visits != [] {
      var front, last := visits[..|visits| - 1], visits[|visits| - 1];
      LastParentIsUnder(org, front, accountId);
      assert forall q :: q in visits <==> q in front || q == last;
    }
  }

  lemma ChildIsReachable(org: Org, roots: seq<string>, p: string, c: string)
    requires Reachable(org, roots, p) && Healthy(org, p) && IsChild(org, p, c)
    ensures Reachable(org, roots, c)
  {
    var path :| Descends(org, roots, path) && path[|path| - 1] == p;
    var longer := path + [c];
    forall i | 0 <= i < |longer| - 1 ensures Healthy(org, longer[i]) && IsChild(org, longer[i], longer[i + 1]) {
      if i < |path| - 1 { assert longer[i + 1] == path[i + 1]; }
    }
    assert Descends(org, roots, longer) && longer[|longer| - 1] == c;
  }

  lemma RootIsReachable(org: Org, roots: seq<string>, p: string)
    requires p in roots
    ensures Reachable(org, roots, p)
  {
    assert Descends(org, roots, [p]);
    assert [p][|[p]| - 1] == p;
  }

  /** A set that holds the roots and the children of its members holds all that is reachable. */
  lemma {:induction false} ClosedHoldsReachable(org: Org, roots: seq<string>, closed: set<string>, path: seq<string>)
    requires forall r :: r in roots ==> r in closed
    requires forall p, c :: p in closed && IsChild(org, p, c) ==> c in closed
    requires Descends(org, roots, path)
    ensures path[|path| - 1] in closed
    decreases |path|
  {
    if |path| > 1 {
      var shorter := path[..|path| - 1];
      assert Descends(org, roots, shorter);
      ClosedHoldsReachable(org, roots, closed, shorter);
      assert IsChild(org, path[|path| - 2], path[|path| - 1]);
    }
  }

  ghost predicate AllHealthy(org: Org, roots: seq<string>) {
    forall p :: Reachable(org, roots, p) ==> Healthy(org, p)
  }

  ghost predicate UnderRoots(org: Org, roots: seq<string>, accountId: string) {
    exists p :: Reachable(org, roots, p) && Under(org, p, accountId)
  }

  // ----- the walk

  /** The accounts found so far, in order of first appearance; a later parent's entry replaces an
      earlier one's. */
  datatype Found = Found(order: seq<string>, byId: map<string, Account>)

  ghost predicate Ordered(f: Found) {
    && (forall id :: id in f.byId <==> id in f.order)
    && (forall i, j :: 0 <= i < j < |f.order| ==> f.order[i] != f.order[j])
    && (forall id :: id in f.byId ==> f.byId[id].accountId == id)
  }

  /** The accounts found are exactly those under a reachable parent, each as one that lists it has it. */
  ghost predicate FoundUnder(org: Org, roots: seq<string>, f: Found) {
    && (forall id :: id in f.byId <==> UnderRoots(org, roots, id))
    && (forall id :: id in f.byId ==> FiledRight(org, id, f.byId[id]) && Reachable(org, roots, f.byId[id].parentId.value))
  }

  ghost predicate FiledRight(org: Org, id: string, a: Account) {
    a.parentId.Some? && Under(org, a.parentId.value, id) && a == EntryAt(org, a.parentId.value, id)
  }

  function Set(f: Found, a: Account): Found {
    Found(if a.accountId in f.byId then f.order else f.order + [a.accountId], f.byId[a.accountId := a])
  }

  /** `g` is `f` with the listed accounts set in it, filed under `parent`. */
  ghost predicate Merges(f: Found, listed: seq<Listed>, parent: string, g: Found) {
    && Ordered(g)
    && (forall id :: id in g.byId <==> id in f.byId || LastListed(listed, id).Some?)
    && (forall id :: id in g.byId ==>
          if LastListed(listed, id).Some? then g.byId[id] == Entry(LastListed(listed, id).value, id, parent)
          else id in f.byId && g.byId[id] == f.byId[id])
  }

  lemma LastListedMore(listed: seq<Listed>, a: Listed, id: string)
    ensures LastListed(listed + [a], id) == if a.id == Some(id) then Some(a) else LastListed(listed, id)
  {
    assert (listed + [a])[..|listed|] == listed;
  }

  lemma MergesOneMore(f: Found, listed: seq<Listed>, parent: string, g: Found, a: Listed)
    requires Merges(f, listed, parent, g) && a.id.Some?
    ensures Merges(f, listed + [a], parent, Set(g, Entry(a, a.id.value, parent)))
  {
    forall id ensures LastListed(listed + [a], id) == if a.id == Some(id) then Some(a) else LastListed(listed, id) {
      LastListedMore(listed, a, id);
    }
    SetKeepsOrder(g, Entry(a, a.id.value, parent));
  }

  lemma SetKeepsOrder(f: Found, a: Account)
    requires Ordered(f)
    ensures Ordered(Set(f, a))
  {
  }

  method AddAccounts(f: Found, listed: seq<Listed>, parent: string) returns (r: Option<Found>)
    requires Ordered(f)
    ensures r.Some? <==> forall a :: a in listed ==> Truthy(a.id)
    ensures r.Some? ==> Merges(f, listed, parent, r.value)
  {
    var found := f;
    for i := 0 to |listed|
      invariant forall a :: a in listed[..i] ==> Truthy(a.id)
      invariant Merges(f, listed[..i], parent, found)
    {
      assert listed[..i + 1] == listed[..i] + [listed[i]];
      if !Truthy(listed[i].id) { return None; }
      MergesOneMore(f, listed[..i], parent, found, listed[i]);
      found := Set(found, Entry(listed[i], listed[i].id.value, parent));
    }
    assert listed[..|listed|] == listed;
    return Some(found);
  }

  function Named(units: seq<Option<string>>): (r: seq<string>)
    ensures forall c :: c in r <==> c != "" && Some(c) in units
  {
    if units == [] then [] else
      var rest := Named(units[..|units| - 1]);
      var last := units[|units| - 1];
      assert units == units[..|units| - 1] + [last];
      if Truthy(last) then rest + [last.value] else rest
  }

  /** One parent: its accounts added to those found, and its child units. */
  method ListParent(org: Org, parent: string, found: Found) returns (more: Option<Found>, children: seq<string>)
    requires Ordered(found)
    ensures more.Some? <==> Healthy(org, parent)
    ensures more.Some? ==> forall c :: c in children <==> IsChild(org, parent, c)
    ensures more.Some? ==> Ordered(more.value) && Adds(org, parent, found, more.value)
  {
    if parent !in org { return None, []; }
    var accounts := CollectPaginated(org[parent].accounts, MAX_PAGES);
    if accounts.None? { return None, []; }
    more := AddAccounts(found, accounts.value, parent);
    if more.None? { return None, []; }
    var units := CollectPaginated(org[parent].units, MAX_PAGES);
    if units.None? { return None, []; }
    children := Named(units.value);
  }

  /** Visits no parent twice, so it ends on cyclic hierarchies too. Fails exactly when some reachable
      parent cannot be listed; otherwise the visited parents are the reachable ones, and each account
      under them is returned once. */
  method ListAccountsForParents(org: Org, roots: seq<string>) returns (r: Option<Found>, ghost visits: seq<string>)
    ensures EachOnce(visits)
    ensures r.Some? <==> AllHealthy(org, roots)
    ensures r.Some? ==> Ordered(r.value) && FoundUnder(org, roots, r.value) && Holds(org, visits, r.value)
    ensures r.Some? ==> forall p :: p in visits <==> Reachable(org, roots, p)
  {
    var found := Found([], map[]);
    var pending: seq<string>, visited: set<string> := roots, {};
    visits := [];
    FrontierStart(org, roots);
    while pending != []
      invariant Walk(org, roots, visited, pending, visits, found)
      decreases |org.Keys - visited|, |pending|
    {
      var parent, rest := pending[0], pending[1..];
      if parent in visited {
        FrontierSkips(org, roots, visited, pending);
        pending := rest;
        continue;
      }
      var more, children := ListParent(org, parent, found);
      if more.None? {
        FrontierReached(org, roots, visited, pending);
        VisitRecorded(visits, visited, parent);
        return None, visits + [parent];
      }
      WalkVisits(org, roots, visited, pending, visits, found, more.value, children);
      found, pending, visited, visits := more.value, rest + children, visited + {parent}, visits + [parent];
    }
    FrontierEmpty(org, roots, visited);
    EverythingFound(org, roots, visits, found);
    return Some(found), visits;
  }

  ghost predicate Walk(org: Org, roots: seq<string>, visited: set<string>, pending: seq<string>, visits: seq<string>, found: Found) {
    && EachOnce(visits) && Recorded(visits, visited)
    && visited <= org.Keys
    && Frontier(org, roots, visited, pending)
    && Ordered(found) && Holds(org, visits, found)
  }

  lemma WalkVisits(org: Org, roots: seq<string>, visited: set<string>, pending: seq<string>, visits: seq<string>,
                   found: Found, more: Found, children: seq<string>)
    requires Walk(org, roots, visited, pending, visits, found)
    requires pending != [] && pending[0] !in visited && Healthy(org, pending[0])
    requires forall c :: c in children <==> IsChild(org, pending[0], c)
    requires Ordered(more) && Adds(org, pending[0], found, more)
    ensures Walk(org, roots, visited + {pending[0]}, pending[1..] + children, visits + [pending[0]], more)
    ensures |org.Keys - (visited + {pending[0]})| < |org.Keys - visited|
  {
    VisitRecorded(visits, visited, pending[0]);
    HoldsMore(org, visits, pending[0], found, more);
    FrontierVisits(org, roots, visited, pending, children);
    assert org.Keys - (visited + {pending[0]}) == org.Keys - visited - {pending[0]};
  }

  /** `g` is `f` with one parent's accounts set in it. */
  ghost predicate Adds(org: Org, parent: string, f: Found, g: Found) {
    && (forall id :: id in g.byId <==> id in f.byId || Under(org, parent, id))
    && (forall id :: id in g.byId ==> if Under(org, parent, id) then g.byId[id] == EntryAt(org, parent, id) else g.byId[id] == f.byId[id])
  }

  /** Everything seen is reachable, and everything reachable from the visited parents has been seen. */
  ghost predicate Frontier(org: Org, roots: seq<string>, visited: set<string>, pending: seq<string>) {
    && (forall p :: p in visited ==> Reachable(org, roots, p) && Healthy(org, p))
    && (forall p :: p in pending ==> Reachable(org, roots, p))
    && (forall p :: p in roots ==> p in visited || p in pending)
    && (forall p, c :: p in visited && IsChild(org, p, c) ==> c in visited || c in pending)
  }

  lemma FrontierStart(org: Org, roots: seq<string>)
    ensures Frontier(org, roots, {}, roots)
  {
    forall p | p in roots ensures Reachable(org, roots, p) { RootIsReachable(org, roots, p); }
  }

  lemma FrontierReached(org: Org, roots: seq<string>, visited: set<string>, pending: seq<string>)
    requires Frontier(org, roots, visited, pending) && pending != []
    ensures AllHealthy(org, roots) ==> Healthy(org, pending[0])
  {
    assert pending[0] in pending;
  }

  lemma FrontierSkips(org: Org, roots: seq<string>, visited: set<string>, pending: seq<string>)
    requires Frontier(org, roots, visited, pending) && pending != [] && pending[0] in visited
    ensures Frontier(org, roots, visited, pending[1..])
  {
    HeadOrRest(pending);
  }

  lemma HeadOrRest(pending: seq<string>)
    requires pending != []
    ensures forall p :: p in pending <==> p == pending[0] || p in pending[1..]
  {
  }

  lemma FrontierVisits(org: Org, roots: seq<string>, visited: set<string>, pending: seq<string>, children: seq<string>)
    requires Frontier(org, roots, visited, pending) && pending != [] && Healthy(org, pending[0])
    requires forall c :: c in children <==> IsChild(org, pending[0], c)
    ensures Frontier(org, roots, visited + {pending[0]}, pending[1..] + children)
  {
    HeadOrRest(pending);
    forall c | c in children ensures Reachable(org, roots, c) { ChildIsReachable(org, roots, pending[0], c); }
  }

  /** With nothing pending, the visited parents are the reachable ones. */
  lemma FrontierEmpty(org: Org, roots: seq<string>, visited: set<string>)
    requires Frontier(org, roots, visited, [])
    ensures forall p :: p in visited <==> Reachable(org, roots, p)
    ensures AllHealthy(org, roots)
  {
    forall p | Reachable(org, roots, p) ensures p in visited {
      var path :| Descends(org, roots, path) && path[|path| - 1] == p;
      ClosedHoldsReachable(org, roots, visited, path);
    }
  }

  lemma EverythingFound(org: Org, roots: seq<string>, visits: seq<string>, f: Found)
    requires Holds(org, visits, f) && forall p :: p in visits <==> Reachable(org, roots, p)
    ensures FoundUnder(org, roots, f)
  {
    forall id ensures id in f.byId <==> UnderRoots(org, roots, id) {
      LastParentIsUnder(org, visits, id);
      if UnderRoots(org, roots, id) {
        var p :| Reachable(org, roots, p) && Under(org, p, id);
        assert p in visits;
      }
    }
    forall id | id in f.byId ensures FiledRight(org, id, f.byId[id]) && Reachable(org, roots, f.byId[id].parentId.value) {
      LastParentIsUnder(org, visits, id);
      assert FiledLast(org, visits, id, f.byId[id]);
    }
  }

  ghost predicate EachOnce(visits: seq<string>) {
    forall i, j :: 0 <= i < j < |visits| ==> visits[i] != visits[j]
  }

  ghost predicate Recorded(visits: seq<string>, visited: set<string>) {
    forall p :: p in visits <==> p in visited
  }

  lemma VisitRecorded(visits: seq<string>, visited: set<string>, p: string)
    requires EachOnce(visits) && Recorded(visits, visited) && p !in visited
    ensures EachOnce(visits + [p]) && Recorded(visits + [p], visited + {p})
  {
  }

  /** The accounts found are those under the visited parents, each as the last one to list it has it. */
  ghost predicate Holds(org: Org, visits: seq<string>, f: Found) {
    && (forall id :: id in f.byId <==> LastParent(org, visits, id).Some?)
    && (forall id :: id in f.byId ==> FiledLast(org, visits, id, f.byId[id]))
  }

  ghost predicate FiledLast(org: Org, visits: seq<string>, id: string, a: Account) {
    var p := LastParent(org, visits, id);
    p.Some? && Under(org, p.value, id) && a == EntryAt(org, p.value, id)
  }

  lemma HoldsMore(org: Org, visits: seq<string>, parent: string, f: Found, g: Found)
    requires Holds(org, visits, f) && Adds(org, parent, f, g)
    ensures Holds(org, visits + [parent], g)
  {
    assert (visits + [parent])[..|visits|] == visits;
    forall id ensures LastParent(org, visits + [parent], id) == if Under(org, parent, id) then Some(parent) else LastParent(org, visits, id) {
    }
    forall id | id in g.byId ensures FiledLast(org, visits + [parent], id, g.byId[id]) {
      if !Under(org, parent, id) { assert FiledLast(org, visits, id, f.byId[id]); }
    }
  }

  /** A found account is what the last entry for its id in the listing of its parent says: its name, and its
      state or that this is unknown. */
  lemma FoundAccountExactly(org: Org, id: string, a: Account)
    requires FiledRight(org, id, a)
    ensures a.accountId == id && a.parentId.Some? && a.parentId.value in org
    ensures var listing := Listing(org[a.parentId.value].accounts, 1000);
            && listing.Some?
            && exists i :: ListedLastAt(listing.value, id, i) && a.name == listing.value[i].name
                           && a.state == if listing.value[i].state == None || listing.value[i].state == Some("") then "UNKNOWN"
                                         else listing.value[i].state.value
  {
    LastListedExactly(Listing(org[a.parentId.value].accounts, MAX_PAGES).value, id);
  }

  /** A parent can be listed exactly when it is known, both its listings end, and every account has an id. */
  lemma HealthyExactlyWhen(org: Org, p: string)
    ensures Healthy(org, p)
       <==> && p in org && Listing(org[p].accounts, 1000).Some? && Listing(org[p].units, 1000).Some?
            && forall a :: a in Listing(org[p].accounts, 1000).value ==> a.id != None && a.id != Some("")
  {
  }

  // ----- listed accounts and work items

  /** A listed account is taken as active; only its name may be known. */
  function ListedAccount(id: string, names: map<string, string>): Account {
    Account(id, if id in names then Some(names[id]) else None, "ACTIVE", None)
  }

  /** The last name the organisation's list of all accounts gives an id. */
  function LastName(listed: seq<Listed>, id: string): Option<string> {
    if listed == [] then None else
      var last := listed[|listed| - 1];
      if last.id == Some(id) && Truthy(last.name) then last.name else LastName(listed[..|listed| - 1], id)
  }

  /** The name of an id is that of its last entry with one that is not empty. */
  lemma {:induction false} LastNameExactly(listed: seq<Listed>, id: string)
    ensures LastName(listed, id).Some?
       <==> exists i :: 0 <= i < |listed| && listed[i].id == Some(id) && listed[i].name.Some? && listed[i].name != Some("")
    ensures LastName(listed, id).Some? ==> exists i :: NamedLastAt(listed, id, i) && listed[i].name == LastName(listed, id)
    decreases |listed|
  {
    if listed != [] {
      var front, last := listed[..|listed| - 1], listed[|listed| - 1];
      LastNameExactly(front, id);
      if i :| NamedLastAt(front, id, i) && front[i].name == LastName(front, id) {
        assert listed[i] == front[i];
        if !(last.id == Some(id) && Truthy(last.name)) { assert NamedLastAt(listed, id, i); }
      }
      if last.id == Some(id) && Truthy(last.name) { assert NamedLastAt(listed, id, |listed| - 1); }
    }
  }

  predicate NamedLastAt(listed: seq<Listed>, id: string, i: int) {
    && 0 <= i < |listed| && listed[i].id == Some(id) && listed[i].name.Some? && listed[i].name != Some("")
    && forall j :: i < j < |listed| ==> listed[j].id != Some(id) || listed[j].name == None || listed[j].name == Some("")
  }

  /** The name of an id, when the list of all accounts can be read and has one. */
  ghost function KnownName(all: nat -> Response<Listed>, id: string): Option<string> {
    if id != "" && Listing(all, MAX_PAGES).Some? then LastName(Listing(all, MAX_PAGES).value, id) else None
  }

  /** A list of accounts that cannot be read leaves every account without a name. */
  method NameListedAccounts(all: nat -> Response<Listed>, accountIds: seq<string>) returns (names: map<string, string>)
    ensures forall id :: id in names <==> id in accountIds && KnownName(all, id).Some?
    ensures forall id :: id in names ==> KnownName(all, id) == Some(names[id])
  {
    names := map[];
    if |accountIds| == 0 { return; }
    var accounts := CollectPaginated(all, MAX_PAGES);
    if accounts.None? { return; }
    for i := 0 to |accounts.value|
      invariant forall id :: id in names <==> id in accountIds && id != "" && LastName(accounts.value[..i], id).Some?
      invariant forall id :: id in names ==> LastName(accounts.value[..i], id) == Some(names[id])
    {
      assert accounts.value[..i + 1][..i] == accounts.value[..i];
      var a := accounts.value[i];
      if Truthy(a.id) && Truthy(a.name) && a.id.value in accountIds { names := names[a.id.value := a.name.value]; }
    }
    assert accounts.value[..|accounts.value|] == accounts.value;
  }

  // ----- the order of the result

  /** How two ids compare: any total order. */
  ghost predicate TotalOrder(leq: (string, string) -> bool) {
    && (forall a, b :: leq(a, b) || leq(b, a))
    && (forall a, b, c :: leq(a, b) && leq(b, c) ==> leq(a, c))
  }

  predicate SortedById(accounts: seq<Account>, leq: (string, string) -> bool) {
    forall i, j | 0 <= i < j < |accounts| :: leq(accounts[i].accountId, accounts[j].accountId)
  }

  function InsertById(sorted: seq<Account>, a: Account, leq: (string, string) -> bool): seq<Account> {
    if sorted == [] || leq(sorted[|sorted| - 1].accountId, a.accountId) then sorted + [a]
    else InsertById(sorted[..|sorted| - 1], a, leq) + [sorted[|sorted| - 1]]
  }

  function SortById(accounts: seq<Account>, leq: (string, string) -> bool): seq<Account> {
    if accounts == [] then [] else InsertById(SortById(accounts[..|accounts| - 1], leq), accounts[|accounts| - 1], leq)
  }

  lemma {:induction false} InsertKeepsOrder(sorted: seq<Account>, a: Account, leq: (string, string) -> bool)
    requires TotalOrder(leq) && SortedById(sorted, leq)
    ensures var r := InsertById(sorted, a, leq);
            SortedById(r, leq) && (forall x :: x in r <==> x in sorted || x == a) && |r| == |sorted| + 1
    decreases |sorted|
  {
    if sorted != [] && !leq(sorted[|sorted| - 1].accountId, a.accountId) {
      var front, last := sorted[..|sorted| - 1], sorted[|sorted| - 1];
      InsertKeepsOrder(front, a, leq);
      assert forall x :: x in sorted <==> x in front || x == last;
      var r := InsertById(front, a, leq);
      forall i | 0 <= i < |r| ensures leq(r[i].accountId, last.accountId) {
        assert r[i] in r;
        if r[i] != a { var k :| 0 <= k < |front| && front[k] == r[i]; }
      }
    } else {
      forall i | 0 <= i < |sorted| ensures leq(sorted[i].accountId, a.accountId) {}
    }
  }

  /** Sorting orders the accounts and keeps them, each once. */
  lemma {:induction false} SortKeeps(accounts: seq<Account>, leq: (string, string) -> bool)
    requires TotalOrder(leq) && DistinctAccounts(accounts)
    ensures var r := SortById(accounts, leq);
            SortedById(r, leq) && (forall x :: x in r <==> x in accounts) && DistinctAccounts(r)
    decreases |accounts|
  {
    if accounts != [] {
      var front, last := accounts[..|accounts| - 1], accounts[|accounts| - 1];
      SortKeeps(front, leq);
      InsertKeepsOrder(SortById(front, leq), last, leq);
      assert forall x :: x in accounts <==> x in front || x == last;
      forall x | x in front ensures x.accountId != last.accountId {
        var i :| 0 <= i < |front| && front[i] == x;
        assert accounts[i] == x;
      }
      InsertKeepsDistinct(SortById(front, leq), last, leq);
    }
  }

  lemma {:induction false} InsertKeepsDistinct(sorted: seq<Account>, a: Account, leq: (string, string) -> bool)
    requires DistinctAccounts(sorted) && forall x :: x in sorted ==> x.accountId != a.accountId
    ensures DistinctAccounts(InsertById(sorted, a, leq))
    ensures forall x :: x in InsertById(sorted, a, leq) <==> x in sorted || x == a
    decreases |sorted|
  {
    if sorted != [] && !leq(sorted[|sorted| - 1].accountId, a.accountId) {
      var front, last := sorted[..|sorted| - 1], sorted[|sorted| - 1];
      assert forall x :: x in sorted <==> x in front || x == last;
      InsertKeepsDistinct(front, a, leq);
      var r := InsertById(front, a, leq);
      forall i | 0 <= i < |r| ensures r[i].accountId != last.accountId {
        assert r[i] in r;
        if r[i] != a {
          var k :| 0 <= k < |front| && front[k] == r[i];
          assert sorted[k].accountId != sorted[|sorted| - 1].accountId;
        }
      }
    }
  }

  /** The accounts to collect: those found, then the listed ones not among them, taken as active, by id.
      `all` answers the listing of every account, asked only when names are wanted. */
  method DiscoverAccounts(org: Org, parentIds: seq<string>, accountIds: seq<string>, nameListed: bool,
                          all: nat -> Response<Listed>, leq: (string, string) -> bool)
    returns (r: Option<seq<Account>>)
    requires TotalOrder(leq)
    ensures r.Some? <==> AllHealthy(org, parentIds)
    ensures r.Some? ==> DistinctAccounts(r.value) && SortedById(r.value, leq)
    ensures r.Some? ==> forall id :: (exists a :: a in r.value && a.accountId == id) <==>
              id in accountIds || UnderRoots(org, parentIds, id)
    ensures r.Some? ==> forall a :: a in r.value ==>
              if UnderRoots(org, parentIds, a.accountId) then FiledRight(org, a.accountId, a)
              else a == Account(a.accountId, if nameListed then KnownName(all, a.accountId) else None, "ACTIVE", None)
  {
    var walked;
    ghost var visits;
    walked, visits := ListAccountsForParents(org, parentIds);
    if walked.None? { return None; }
    var listed := NotFound(accountIds, walked.value);
    var names := map[];
    if nameListed { names := NameListedAccounts(all, listed); }
    var selected := AddListed(walked.value, listed, names);
    var accounts := Values(selected);
    forall id ensures (exists a :: a in accounts && a.accountId == id) <==> id in selected.byId {
      if id in selected.byId { assert selected.byId[id].accountId == id; }
    }
    SortKeeps(accounts, leq);
    return Some(SortById(accounts, leq));
  }

  function NotFound(ids: seq<string>, f: Found): (r: seq<string>)
    ensures forall id :: id in r <==> id in ids && id !in f.byId
  {
    if ids == [] then [] else
      var rest, last := NotFound(ids[..|ids| - 1], f), ids[|ids| - 1];
      assert forall id :: id in ids <==> id in ids[..|ids| - 1] || id == last;
      if last in f.byId then rest else rest + [last]
  }

  /** `g` is `f` with the ids it lacks added as listed accounts. */
  ghost predicate WithListed(f: Found, ids: seq<string>, names: map<string, string>, g: Found) {
    && Ordered(g)
    && (forall id :: id in g.byId <==> id in f.byId || id in ids)
    && (forall id :: id in g.byId ==> g.byId[id] == if id in f.byId then f.byId[id] else ListedAccount(id, names))
  }

  lemma ListedOneMore(f: Found, ids: seq<string>, names: map<string, string>, g: Found, id: string)
    requires WithListed(f, ids, names, g)
    ensures WithListed(f, ids + [id], names, if id in f.byId then g else Set(g, ListedAccount(id, names)))
  {
    var h := if id in f.byId then g else Set(g, ListedAccount(id, names));
    SetKeepsOrder(g, ListedAccount(id, names));
    forall x
      ensures x in h.byId <==> x in f.byId || x in ids + [id]
      ensures x in h.byId ==> h.byId[x] == if x in f.byId then f.byId[x] else ListedAccount(x, names)
    {
      assert x in ids + [id] <==> x in ids || x == id;
    }
  }

  method AddListed(found: Found, accountIds: seq<string>, names: map<string, string>) returns (selected: Found)
    requires Ordered(found)
    ensures WithListed(found, accountIds, names, selected)
  {
    selected := found;
    for i := 0 to |accountIds|
      invariant WithListed(found, accountIds[..i], names, selected)
    {
      assert accountIds[..i + 1] == accountIds[..i] + [accountIds[i]];
      var id := accountIds[i];
      ListedOneMore(found, accountIds[..i], names, selected, id);
      if id !in found.byId {
        selected := Set(selected, ListedAccount(id, names));
      }
    }
    assert accountIds[..|accountIds|] == accountIds;
  }

  /** The accounts of a map, in insertion order. */
  method Values(f: Found) returns (accounts: seq<Account>)
    requires Ordered(f)
    ensures DistinctAccounts(accounts)
    ensures forall a :: a in accounts ==> a.accountId in f.byId && a == f.byId[a.accountId]
    ensures forall id :: id in f.byId ==> f.byId[id] in accounts
  {
    accounts := [];
    for i := 0 to |f.order|
      invariant |accounts| == i
      invariant forall k :: 0 <= k < i ==> f.order[k] in f.byId && accounts[k] == f.byId[f.order[k]]
    {
      assert f.order[i] in f.order;
      accounts := accounts + [f.byId[f.order[i]]];
    }
    ListedOnce(f, accounts);
  }

  predicate DistinctAccounts(accounts: seq<Account>) {
    forall i, j :: 0 <= i < j < |accounts| ==> accounts[i].accountId != accounts[j].accountId
  }

  lemma ListedOnce(f: Found, accounts: seq<Account>)
    requires Ordered(f) && |accounts| == |f.order|
    requires forall k :: 0 <= k < |accounts| ==> f.order[k] in f.byId && accounts[k] == f.byId[f.order[k]]
    ensures DistinctAccounts(accounts)
    ensures forall a :: a in accounts ==> a.accountId in f.byId && a == f.byId[a.accountId]
    ensures forall id :: id in f.byId ==> f.byId[id] in accounts
  {
    forall i, j | 0 <= i < j < |accounts| ensures accounts[i].accountId != accounts[j].accountId {
      assert f.order[i] in f.byId && f.order[j] in f.byId;
    }
    forall id | id in f.byId ensures f.byId[id] in accounts {
      var k :| 0 <= k < |f.order| && f.order[k] == id;
      assert accounts[k] == f.byId[id];
    }
  }

  datatype WorkItem = WorkItem(accountId: string, region: string, collectGlobal: bool)

  function ItemsOf(account: Account, regions: seq<string>): seq<WorkItem> {
    seq(|regions|, i requires 0 <= i < |regions| => WorkItem(account.accountId, regions[i], i == 0))
  }

  function BuildWorkItems(accounts: seq<Account>, regions: seq<string>): seq<WorkItem> {
    if accounts == [] then [] else
      var rest := BuildWorkItems(accounts[..|accounts| - 1], regions);
      var last := accounts[|accounts| - 1];
      if last.state == "ACTIVE" then rest + ItemsOf(last, regions) else rest
  }

  ghost predicate IsActive(accounts: seq<Account>, id: string) {
    exists a :: a in accounts && a.accountId == id && a.state == "ACTIVE"
  }

  predicate InRegions(w: WorkItem, regions: seq<string>) {
    exists i | 0 <= i < |regions| :: w.region == regions[i] && w.collectGlobal == (i == 0)
  }

  /** The items are those of the active accounts, one for each place in the list of regions. */
  lemma {:induction false} WorkItemsOfActive(accounts: seq<Account>, regions: seq<string>)
    ensures forall w :: w in BuildWorkItems(accounts, regions) <==> IsActive(accounts, w.accountId) && InRegions(w, regions)
    decreases |accounts|
  {
    if accounts != [] {
      var fewer, last := accounts[..|accounts| - 1], accounts[|accounts| - 1];
      assert accounts == fewer + [last];
      WorkItemsOfActive(fewer, regions);
      assert forall id :: IsActive(accounts, id) <==> IsActive(fewer, id) || (id == last.accountId && last.state == "ACTIVE");
      forall w: WorkItem ensures w in ItemsOf(last, regions) <==> w.accountId == last.accountId && InRegions(w, regions) {
        if w.accountId == last.accountId && InRegions(w, regions) {
          var i :| 0 <= i < |regions| && w.region == regions[i] && w.collectGlobal == (i == 0);
          assert ItemsOf(last, regions)[i] == w;
        }
      }
    }
  }

  /** No two items are for the same account and region, nor two global ones for the same account. */
  predicate NoRepeats(items: seq<WorkItem>) {
    forall i, j :: 0 <= i < j < |items| && items[i].accountId == items[j].accountId ==>
      items[i].region != items[j].region && !(items[i].collectGlobal && items[j].collectGlobal)
  }

  lemma {:induction false} WorkItemsNeverRepeat(accounts: seq<Account>, regions: seq<string>)
    requires DistinctAccounts(accounts)
    requires forall i, j :: 0 <= i < j < |regions| ==> regions[i] != regions[j]
    ensures NoRepeats(BuildWorkItems(accounts, regions))
    decreases |accounts|
  {
    if accounts != [] {
      var fewer, last := accounts[..|accounts| - 1], accounts[|accounts| - 1];
      assert accounts == fewer + [last];
      WorkItemsNeverRepeat(fewer, regions);
      WorkItemsOfActive(fewer, regions);
      var rest := BuildWorkItems(fewer, regions);
      forall i | 0 <= i < |rest| ensures rest[i].accountId != last.accountId {
        assert rest[i] in rest;
        var a :| a in fewer && a.accountId == rest[i].accountId;
      }
    }
  }

  ghost predicate HasItem(items: seq<WorkItem>, id: string, region: string) {
    exists w :: w in items && w.accountId == id && w.region == region
  }

  ghost predicate HasGlobal(items: seq<WorkItem>, id: string) {
    exists w :: w in items && w.accountId == id && w.collectGlobal
  }

  /** An item for each active account and region and for no other, and a global one for each active
      account; NoRepeats makes each of them the only one. */
  lemma OneItemPerAccountAndRegion(accounts: seq<Account>, regions: seq<string>, id: string, region: string)
    ensures HasItem(BuildWorkItems(accounts, regions), id, region) <==> IsActive(accounts, id) && region in regions
    ensures HasGlobal(BuildWorkItems(accounts, regions), id) <==> IsActive(accounts, id) && regions != []
  {
    WorkItemsOfActive(accounts, regions);
    if region in regions {
      var i :| 0 <= i < |regions| && regions[i] == region;
      assert InRegions(WorkItem(id, region, i == 0), regions);
      assert WorkItem(id, region, i == 0).region == region;
    }
    if regions != [] {
      assert InRegions(WorkItem(id, regions[0], true), regions);
      assert WorkItem(id, regions[0], true).collectGlobal;
    }
  }
}
