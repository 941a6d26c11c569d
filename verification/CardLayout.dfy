/** Where the cards go: one horizontal lane per account, one column per layer. */
module CardLayout {
  import opened Basics
  import opened Grouping
  import opened Layering

  const CARD_W: int := 200
  const CARD_H: int := 48
  const ROW: int := 64
  const STEP: int := 320
  const MAX_STEP: int := 520
  const PAD: int := 24
  const LANE_HEAD: int := 30
  const BAND_GAP: int := 12

  /** Positions are card centres. */
  datatype Point = Point(x: real, y: int)

  datatype Band = Band(account: Option<string>, external: bool, y: int, height: int)

  datatype Layout = Layout(positions: map<string, Point>, bands: seq<Band>, width: real, height: int)

  // ----- stable sorting by a numeric key, where None sorts last

  predicate KeyAtMost(a: Option<real>, b: Option<real>) {
    b.None? || (a.Some? && a.value <= b.value)
  }

  function InsertByKey(sorted: seq<Node>, node: Node, key: Node -> Option<real>): seq<Node> {
    if sorted == [] || KeyAtMost(key(sorted[|sorted| - 1]), key(node)) then sorted + [node]
    else InsertByKey(sorted[..|sorted| - 1], node, key) + [sorted[|sorted| - 1]]
  }

  function SortByKey(nodes: seq<Node>, key: Node -> Option<real>): seq<Node> {
    if nodes == [] then []
    else InsertByKey(SortByKey(nodes[..|nodes| - 1], key), nodes[|nodes| - 1], key)
  }

  ghost predicate SortedByKey(nodes: seq<Node>, key: Node -> Option<real>) {
    forall i, j :: 0 <= i < j < |nodes| ==> KeyAtMost(key(nodes[i]), key(nodes[j]))
  }

  lemma {:induction false} InsertSorts(sorted: seq<Node>, node: Node, key: Node -> Option<real>)
    requires SortedByKey(sorted, key)
    ensures SortedByKey(InsertByKey(sorted, node, key), key)
    ensures multiset(InsertByKey(sorted, node, key)) == multiset(sorted) + multiset{node}
    decreases |sorted|
  {
    if sorted != [] && !KeyAtMost(key(sorted[|sorted| - 1]), key(node)) {
      var front, last := sorted[..|sorted| - 1], sorted[|sorted| - 1];
      InsertSorts(front, node, key);
      var r := InsertByKey(front, node, key);
      assert sorted == front + [last];
      forall i | 0 <= i < |r| ensures KeyAtMost(key(r[i]), key(last)) {
        if r[i] != node { FromBefore(r, front, node, i); }
      }
      SortedPlus(r, last, key);
    } else {
      SortedThrough(sorted, node, key);
    }
  }

  lemma SortedPlus(sorted: seq<Node>, last: Node, key: Node -> Option<real>)
    requires SortedByKey(sorted, key) && forall i :: 0 <= i < |sorted| ==> KeyAtMost(key(sorted[i]), key(last))
    ensures SortedByKey(sorted + [last], key)
  {
  }

  lemma SortedThrough(sorted: seq<Node>, last: Node, key: Node -> Option<real>)
    requires SortedByKey(sorted, key)
    requires sorted == [] || KeyAtMost(key(sorted[|sorted| - 1]), key(last))
    ensures SortedByKey(sorted + [last], key)
  {
  }

  lemma FromBefore(r: seq<Node>, front: seq<Node>, node: Node, i: nat)
    requires multiset(r) == multiset(front) + multiset{node} && i < |r| && r[i] != node
    ensures exists k :: 0 <= k < |front| && front[k] == r[i]
  {
    assert r[i] in multiset(r);
    assert r[i] in multiset(front);
  }

  lemma {:induction false} SortSorts(nodes: seq<Node>, key: Node -> Option<real>)
    ensures SortedByKey(SortByKey(nodes, key), key)
    ensures multiset(SortByKey(nodes, key)) == multiset(nodes)
    decreases |nodes|
  {
    if nodes != [] {
      var front, last := nodes[..|nodes| - 1], nodes[|nodes| - 1];
      SortSorts(front, key);
      InsertSorts(SortByKey(front, key), last, key);
      assert nodes == front + [last];
    }
  }

  lemma SameMembers(a: seq<Node>, b: seq<Node>)
    requires multiset(a) == multiset(b)
    ensures |a| == |b| && forall n :: n in a <==> n in b
  {
    assert |multiset(a)| == |a| && |multiset(b)| == |b|;
    forall n ensures n in a <==> n in b { assert n in multiset(a) <==> n in multiset(b); }
  }

  lemma {:induction false} DistinctMultiset(nodes: seq<Node>, n: Node)
    requires DistinctIds(nodes)
    ensures multiset(nodes)[n] <= 1
    decreases |nodes|
  {
    if nodes != [] {
      var front, last := nodes[..|nodes| - 1], nodes[|nodes| - 1];
      DistinctMultiset(front, n);
      assert nodes == front + [last];
      forall i | 0 <= i < |front| ensures front[i] != last { assert nodes[i].id != nodes[|nodes| - 1].id; }
    }
  }

  lemma TwiceInMultiset(b: seq<Node>, i: nat, j: nat)
    requires i < j < |b| && b[i] == b[j]
    ensures multiset(b)[b[i]] >= 2
  {
    assert b == b[..i] + [b[i]] + b[i + 1..j] + [b[j]] + b[j + 1..];
  }

  lemma PermutedDistinct(a: seq<Node>, b: seq<Node>)
    requires DistinctIds(a) && multiset(a) == multiset(b)
    ensures DistinctIds(b)
  {
    SameMembers(a, b);
    forall i, j | 0 <= i < j < |b| ensures b[i].id != b[j].id {
      assert b[i] in b && b[j] in b;
      var x :| 0 <= x < |a| && a[x] == b[i];
      var y :| 0 <= y < |a| && a[y] == b[j];
      if b[i] == b[j] {
        TwiceInMultiset(b, i, j);
        DistinctMultiset(a, b[i]);
      }
    }
  }

  // ----- lanes

  function Rank(account: Option<string>, external: bool): int {
    if account.None? then 0 else if external then 1 else 2
  }

  function OrderKey(layer: map<string, nat>, columns: nat): Node -> Option<real> {
    (n: Node) => Some((Rank(n.account, n.external) * (columns + 1) + (if n.id in layer then layer[n.id] else 0)) as real)
  }

  /** One comparison stands for "rank, then column" as long as every column is in range. */
  lemma OrderKeyIsLexicographic(layer: map<string, nat>, columns: nat, a: Node, b: Node)
    requires a.id in layer && b.id in layer && layer[a.id] <= columns && layer[b.id] <= columns
    ensures KeyAtMost(OrderKey(layer, columns)(a), OrderKey(layer, columns)(b))
       <==> Rank(a.account, a.external) < Rank(b.account, b.external)
            || (Rank(a.account, a.external) == Rank(b.account, b.external) && layer[a.id] <= layer[b.id])
  {
  }

  /** The internet before everyone, outside accounts before collected ones. */
  predicate MayPrecede(a: Band, b: Band) {
    (b.account == None ==> a.account == None) && (b.account != None && b.external ==> a.account == None || a.external)
  }

  type Lane = (Option<string>, bool)

  /** The accounts in order of first appearance, each with its first node's kind. */
  function LanesOf(nodes: seq<Node>): seq<Lane> {
    if nodes == [] then [] else
      var rest := LanesOf(nodes[..|nodes| - 1]);
      var last := nodes[|nodes| - 1];
      if HasLane(rest, last.account) then rest else rest + [(last.account, last.external)]
  }

  predicate HasLane(lanes: seq<Lane>, account: Option<string>) {
    exists i :: 0 <= i < |lanes| && lanes[i].0 == account
  }

  ghost predicate OpenedBy(nodes: seq<Node>, lane: Lane) {
    exists n :: n in nodes && lane == (n.account, n.external)
  }

  /** Every node's account has its lane, and no account has two. */
  lemma {:induction false} LanesCover(nodes: seq<Node>)
    ensures forall n :: n in nodes ==> HasLane(LanesOf(nodes), n.account)
    ensures forall i, j :: 0 <= i < j < |LanesOf(nodes)| ==> LanesOf(nodes)[i].0 != LanesOf(nodes)[j].0
    decreases |nodes|
  {
    if nodes != [] {
      var front, last := nodes[..|nodes| - 1], nodes[|nodes| - 1];
      LanesCover(front);
      var lanes, rest := LanesOf(nodes), LanesOf(front);
      forall n | n in nodes ensures HasLane(lanes, n.account) {
        if n in front {
          LaneKept(rest, lanes, n.account);
        } else if HasLane(rest, last.account) {
          assert n == last;
        } else {
          assert n == last && lanes[|rest|].0 == n.account;
        }
      }
    }
  }

  lemma LaneKept(rest: seq<Lane>, lanes: seq<Lane>, account: Option<string>)
    requires rest <= lanes && HasLane(rest, account)
    ensures HasLane(lanes, account)
  {
    var i :| 0 <= i < |rest| && rest[i].0 == account;
    assert lanes[i].0 == account;
  }

  /** Every lane is some node's. */
  lemma {:induction false} LanesOpened(nodes: seq<Node>, lane: Lane)
    requires lane in LanesOf(nodes)
    ensures OpenedBy(nodes, lane)
    decreases |nodes|
  {
    if nodes != [] {
      var front, last := nodes[..|nodes| - 1], nodes[|nodes| - 1];
      if lane in LanesOf(front) {
        LanesOpened(front, lane);
        var n :| n in front && lane == (n.account, n.external);
        assert n in nodes;
      } else {
        assert last in nodes && lane == (last.account, last.external);
      }
    }
  }

  ghost predicate LanesInOrder(lanes: seq<Lane>) {
    forall i, j :: 0 <= i < j < |lanes| ==> Rank(lanes[i].0, lanes[i].1) <= Rank(lanes[j].0, lanes[j].1)
  }

  ghost predicate NodesInOrder(nodes: seq<Node>) {
    forall i, j :: 0 <= i < j < |nodes| ==> Rank(nodes[i].account, nodes[i].external) <= Rank(nodes[j].account, nodes[j].external)
  }

  lemma LaneBefore(nodes: seq<Node>, lane: Lane)
    requires nodes != [] && NodesInOrder(nodes) && lane in LanesOf(nodes[..|nodes| - 1])
    ensures var last := nodes[|nodes| - 1]; Rank(lane.0, lane.1) <= Rank(last.account, last.external)
  {
    var front := nodes[..|nodes| - 1];
    LanesOpened(front, lane);
    var n :| n in front && lane == (n.account, n.external);
    var k :| 0 <= k < |front| && front[k] == n;
    assert nodes[k] == n;
  }

  /** Lanes come out in the order the internet, outside accounts, collected accounts. */
  lemma {:induction false} LanesRanked(nodes: seq<Node>)
    requires NodesInOrder(nodes)
    ensures LanesInOrder(LanesOf(nodes))
    decreases |nodes|
  {
    if nodes != [] {
      var front, last := nodes[..|nodes| - 1], nodes[|nodes| - 1];
      LanesRanked(front);
      var rest := LanesOf(front);
      forall i | 0 <= i < |rest| ensures Rank(rest[i].0, rest[i].1) <= Rank(last.account, last.external) {
        LaneBefore(nodes, rest[i]);
      }
      assert LanesInOrder(rest + [(last.account, last.external)]);
    }
  }

  /** The cards of one lane and column, in drawing order. */
  function CellOf(nodes: seq<Node>, layer: map<string, nat>, account: Option<string>, column: int): seq<Node> {
    if nodes == [] then [] else
      var rest := CellOf(nodes[..|nodes| - 1], layer, account, column);
      var last := nodes[|nodes| - 1];
      if last.account == account && Column(layer, last) == column then rest + [last] else rest
  }

  function Column(layer: map<string, nat>, n: Node): nat {
    if n.id in layer then layer[n.id] else 0
  }

  lemma {:induction false} CellListed(nodes: seq<Node>, layer: map<string, nat>, account: Option<string>, column: int)
    ensures forall n :: n in CellOf(nodes, layer, account, column)
                   <==> n in nodes && n.account == account && Column(layer, n) == column
    ensures DistinctIds(nodes) ==> DistinctIds(CellOf(nodes, layer, account, column))
    decreases |nodes|
  {
    if nodes != [] {
      var front, last := nodes[..|nodes| - 1], nodes[|nodes| - 1];
      CellListed(front, layer, account, column);
      assert forall n :: n in nodes <==> n in front || n == last;
      if DistinctIds(nodes) {
        var c := CellOf(front, layer, account, column);
        forall i | 0 <= i < |c| ensures c[i].id != last.id {
          assert c[i] in c;
          var k :| 0 <= k < |front| && front[k] == c[i];
          assert nodes[k].id != nodes[|nodes| - 1].id;
        }
      }
    }
  }

  function LastColumn(nodes: seq<Node>, layer: map<string, nat>): nat {
    if nodes == [] then 0 else
      var rest, last := LastColumn(nodes[..|nodes| - 1], layer), Column(layer, nodes[|nodes| - 1]);
      if last > rest then last else rest
  }

  lemma {:induction false} LastColumnIsSomeNodes(nodes: seq<Node>, layer: map<string, nat>)
    ensures LastColumn(nodes, layer) == 0 || exists n :: n in nodes && Column(layer, n) == LastColumn(nodes, layer)
    decreases |nodes|
  {
    if nodes != [] {
      var front, last := nodes[..|nodes| - 1], nodes[|nodes| - 1];
      LastColumnIsSomeNodes(front, layer);
      assert last in nodes && forall n :: n in front ==> n in nodes;
    }
  }

  method MaxColumn(nodes: seq<Node>, layer: map<string, nat>) returns (maxLayer: nat)
    ensures forall n :: n in nodes ==> Column(layer, n) <= maxLayer
    ensures maxLayer == LastColumn(nodes, layer)
  {
    maxLayer := 0;
    for i := 0 to |nodes|
      invariant forall j :: 0 <= j < i ==> Column(layer, nodes[j]) <= maxLayer
      invariant maxLayer == LastColumn(nodes[..i], layer)
    {
      assert nodes[..i + 1][..i] == nodes[..i];
      if Column(layer, nodes[i]) > maxLayer { maxLayer := Column(layer, nodes[i]); }
    }
    assert nodes[..|nodes|] == nodes;
  }

  method RowsOf(nodes: seq<Node>, layer: map<string, nat>, account: Option<string>, maxLayer: nat) returns (rows: nat)
    ensures rows >= 1 && forall column :: 0 <= column <= maxLayer ==> |CellOf(nodes, layer, account, column)| <= rows
    ensures rows == 1 || exists column :: 0 <= column <= maxLayer && |CellOf(nodes, layer, account, column)| == rows
  {
    rows := 1;
    ghost var fullest := 0;
    for column := 0 to maxLayer + 1
      invariant rows >= 1 && forall c :: 0 <= c < column ==> |CellOf(nodes, layer, account, c)| <= rows
      invariant rows == 1 || (0 <= fullest <= maxLayer && |CellOf(nodes, layer, account, fullest)| == rows)
    {
      if |CellOf(nodes, layer, account, column)| > rows {
        rows := |CellOf(nodes, layer, account, column)|;
        fullest := column;
      }
    }
  }

  /** Lanes stacked downwards with a gap, each tall enough for its fullest column. */
  ghost predicate Stacked(bands: seq<Band>, bottom: int) {
    && (forall i :: 0 <= i < |bands| ==> bands[i].y >= 12 && bands[i].height >= LANE_HEAD + ROW)
    && (forall i :: 0 <= i < |bands| ==> bands[i].y + bands[i].height + BAND_GAP <= bottom)
    && (forall i, j :: 0 <= i < j < |bands| ==> bands[i].y + bands[i].height + BAND_GAP <= bands[j].y)
    && bottom >= 12
  }

  /** Lanes begin at the top and follow each other with a gap, and so does what is below the last. */
  predicate StackedTightly(bands: seq<Band>, bottom: int) {
    && (bands == [] ==> bottom == 12)
    && (bands != [] ==> bands[0].y == 12 && bands[|bands| - 1].y + bands[|bands| - 1].height + 12 == bottom)
    && forall i :: 0 <= i < |bands| - 1 ==> bands[i].y + bands[i].height + 12 == bands[i + 1].y
  }

  /** A heading and as many rows as the fullest column of the lane has cards, but at least one. */
  ghost predicate AsTallAs(nodes: seq<Node>, layer: map<string, nat>, band: Band) {
    exists rows :: RowsOfLane(nodes, layer, band, rows)
  }

  ghost predicate RowsOfLane(nodes: seq<Node>, layer: map<string, nat>, band: Band, rows: int) {
    && rows >= 1 && band.height == 30 + 64 * rows
    && (forall column: nat :: |CellOf(nodes, layer, band.account, column)| <= rows)
    && (rows == 1 || exists column: nat :: |CellOf(nodes, layer, band.account, column)| == rows)
  }

  /** The same, read off the columns up to the last. */
  ghost predicate RowsUpTo(nodes: seq<Node>, layer: map<string, nat>, band: Band, maxLayer: nat, rows: int) {
    && rows >= 1 && band.height == LANE_HEAD + rows * ROW
    && (forall column :: 0 <= column <= maxLayer ==> |CellOf(nodes, layer, band.account, column)| <= rows)
    && (rows == 1 || exists column :: 0 <= column <= maxLayer && |CellOf(nodes, layer, band.account, column)| == rows)
  }

  ghost predicate TallUpTo(nodes: seq<Node>, layer: map<string, nat>, band: Band, maxLayer: nat) {
    exists rows :: RowsUpTo(nodes, layer, band, maxLayer, rows)
  }

  /** One lane, from y on. */
  method OneLane(nodes: seq<Node>, layer: map<string, nat>, lane: Lane, maxLayer: nat, y: int) returns (band: Band)
    ensures band.y == y && LaneDone(nodes, layer, lane, maxLayer, band)
  {
    var rows := RowsOf(nodes, layer, lane.0, maxLayer);
    band := Band(lane.0, lane.1, y, LANE_HEAD + rows * ROW);
    assert RowsUpTo(nodes, layer, band, maxLayer, rows);
  }

  lemma LaneIsTall(nodes: seq<Node>, layer: map<string, nat>, band: Band, maxLayer: nat)
    requires TallUpTo(nodes, layer, band, maxLayer) && forall n :: n in nodes ==> Column(layer, n) <= maxLayer
    ensures AsTallAs(nodes, layer, band)
  {
    var rows :| RowsUpTo(nodes, layer, band, maxLayer, rows);
    forall column: nat ensures |CellOf(nodes, layer, band.account, column)| <= rows {
      if column > maxLayer {
        var cell := CellOf(nodes, layer, band.account, column);
        CellListed(nodes, layer, band.account, column);
        if cell != [] { assert cell[0] in cell; }
      }
    }
    assert RowsOfLane(nodes, layer, band, rows);
  }

  lemma {:induction false} CellCounts(nodes: seq<Node>, layer: map<string, nat>, account: Option<string>, column: int, n: Node)
    ensures multiset(CellOf(nodes, layer, account, column))[n]
         == if n.account == account && Column(layer, n) == column then multiset(nodes)[n] else 0
    decreases |nodes|
  {
    if nodes != [] {
      var front, last := nodes[..|nodes| - 1], nodes[|nodes| - 1];
      CellCounts(front, layer, account, column, n);
      assert nodes == front + [last];
    }
  }

  lemma SameCells(a: seq<Node>, b: seq<Node>, layer: map<string, nat>, account: Option<string>, column: int)
    requires multiset(a) == multiset(b)
    ensures |CellOf(a, layer, account, column)| == |CellOf(b, layer, account, column)|
  {
    var x, y := multiset(CellOf(a, layer, account, column)), multiset(CellOf(b, layer, account, column));
    forall n ensures x[n] == y[n] {
      CellCounts(a, layer, account, column, n);
      CellCounts(b, layer, account, column, n);
    }
    assert x == y;
    assert |x| == |CellOf(a, layer, account, column)| && |y| == |CellOf(b, layer, account, column)|;
  }

  lemma TallForBoth(a: seq<Node>, b: seq<Node>, layer: map<string, nat>, band: Band)
    requires multiset(a) == multiset(b) && AsTallAs(a, layer, band)
    ensures AsTallAs(b, layer, band)
  {
    forall column: nat ensures |CellOf(a, layer, band.account, column)| == |CellOf(b, layer, band.account, column)| {
      SameCells(a, b, layer, band.account, column);
    }
    var rows :| RowsOfLane(a, layer, band, rows);
    assert RowsOfLane(b, layer, band, rows);
  }

  /** The first lanes, stacked: each as its list says and tall enough, down to y. */
  ghost predicate LanesSoFar(nodes: seq<Node>, layer: map<string, nat>, lanes: seq<Lane>, maxLayer: nat, bands: seq<Band>, y: int) {
    && |bands| <= |lanes| && Stacked(bands, y) && StackedTightly(bands, y)
    && (forall i :: 0 <= i < |bands| ==> LaneDone(nodes, layer, lanes[i], maxLayer, bands[i]))
  }

  ghost predicate LaneDone(nodes: seq<Node>, layer: map<string, nat>, lane: Lane, maxLayer: nat, band: Band) {
    && band.account == lane.0 && band.external == lane.1 && band.height >= LANE_HEAD + ROW
    && TallUpTo(nodes, layer, band, maxLayer) && FitsCells(nodes, layer, lane.0, maxLayer, band.height)
  }

  ghost predicate FitsCells(nodes: seq<Node>, layer: map<string, nat>, account: Option<string>, maxLayer: nat, height: int) {
    forall column :: 0 <= column <= maxLayer ==> LANE_HEAD + |CellOf(nodes, layer, account, column)| * ROW <= height
  }

  lemma OneMoreLane(nodes: seq<Node>, layer: map<string, nat>, lanes: seq<Lane>, maxLayer: nat, bands: seq<Band>, y: int, band: Band)
    requires LanesSoFar(nodes, layer, lanes, maxLayer, bands, y) && |bands| < |lanes|
    requires LaneDone(nodes, layer, lanes[|bands|], maxLayer, band) && band.y == y
    ensures LanesSoFar(nodes, layer, lanes, maxLayer, bands + [band], y + band.height + BAND_GAP)
  {
    OneMoreStacked(bands, y, band);
    OneMoreTight(bands, y, band);
    var more := bands + [band];
    forall i | 0 <= i < |more| ensures LaneDone(nodes, layer, lanes[i], maxLayer, more[i]) {
      if i < |bands| { assert more[i] == bands[i]; }
    }
  }

  lemma OneMoreStacked(bands: seq<Band>, y: int, band: Band)
    requires Stacked(bands, y) && band.y == y && band.height >= LANE_HEAD + ROW
    ensures Stacked(bands + [band], y + band.height + BAND_GAP)
  {
  }

  lemma OneMoreTight(bands: seq<Band>, y: int, band: Band)
    requires StackedTightly(bands, y) && band.y == y
    ensures StackedTightly(bands + [band], y + band.height + BAND_GAP)
  {
  }

  method StackBands(nodes: seq<Node>, layer: map<string, nat>, lanes: seq<Lane>, maxLayer: nat)
    returns (bands: seq<Band>, y: int)
    ensures |bands| == |lanes| && LanesSoFar(nodes, layer, lanes, maxLayer, bands, y)
  {
    bands, y := [], 12;
    for i := 0 to |lanes|
      invariant |bands| == i && LanesSoFar(nodes, layer, lanes, maxLayer, bands, y)
    {
      var band := OneLane(nodes, layer, lanes[i], maxLayer, y);
      OneMoreLane(nodes, layer, lanes, maxLayer, bands, y, band);
      bands := bands + [band];
      y := y + band.height + BAND_GAP;
    }
  }

  /** What stacking hands on. */
  lemma LanesAre(nodes: seq<Node>, layer: map<string, nat>, lanes: seq<Lane>, maxLayer: nat, bands: seq<Band>, y: int)
    requires |bands| == |lanes| && LanesSoFar(nodes, layer, lanes, maxLayer, bands, y)
    ensures Stacked(bands, y) && StackedTightly(bands, y) && AllTall(nodes, layer, bands, maxLayer)
    ensures forall i :: 0 <= i < |bands| ==> (bands[i].account, bands[i].external) == lanes[i]
    ensures forall i, column :: 0 <= i < |bands| && 0 <= column <= maxLayer ==>
              LANE_HEAD + |CellOf(nodes, layer, lanes[i].0, column)| * ROW <= bands[i].height
  {
    forall i | 0 <= i < |bands| ensures FitsCells(nodes, layer, lanes[i].0, maxLayer, bands[i].height) {
      assert LaneDone(nodes, layer, lanes[i], maxLayer, bands[i]);
    }
  }

  // ----- cards

  function Centre(band: Band, column: int, slot: int, step: real): Point {
    Point(PAD as real + column as real * step + CARD_W as real / 2.0, band.y + LANE_HEAD + slot * ROW + ROW / 2)
  }

  /** Where a lane, a column and a slot put a card. */
  type Placer = (Band, int, int) -> Point

  function CentreAt(step: real): Placer {
    (band, column, slot) => Centre(band, column, slot, step)
  }

  /** Slot of each placed card within its lane and column. */
  ghost predicate Placed(nodes: seq<Node>, layer: map<string, nat>, bands: seq<Band>, place: Placer,
                         positions: map<string, Point>, slots: map<string, nat>, n: Node) {
    && n.id in positions && n.id in slots
    && slots[n.id] < |CellOf(nodes, layer, n.account, Column(layer, n))|
    && exists b :: 0 <= b < |bands| && bands[b].account == n.account
                && positions[n.id] == place(bands[b], Column(layer, n), slots[n.id])
  }

  /** The mean height of the sources already placed, None when there is none. */
  function Barycentre(links: seq<Link>, positions: map<string, Point>): Node -> Option<real> {
    (n: Node) =>
      var ys := IncomingHeights(links, positions, n.id);
      if |ys| == 0 then None else Some(Sum(ys) as real / |ys| as real)
  }

  function IncomingHeights(links: seq<Link>, positions: map<string, Point>, id: string): seq<int> {
    if links == [] then [] else
      var rest := IncomingHeights(links[..|links| - 1], positions, id);
      var last := links[|links| - 1];
      if last.to == id && last.from in positions then rest + [positions[last.from].y] else rest
  }

  function Sum(ys: seq<int>): int {
    if ys == [] then 0 else Sum(ys[..|ys| - 1]) + ys[|ys| - 1]
  }

  /** The ids of a list, each with a value made from its index. */
  function IndexMap<V>(nodes: seq<Node>, at: nat -> V): map<string, V> {
    if nodes == [] then map[] else IndexMap(nodes[..|nodes| - 1], at)[nodes[|nodes| - 1].id := at(|nodes| - 1)]
  }

  lemma {:induction false} IndexMapKeys<V>(nodes: seq<Node>, at: nat -> V)
    ensures IndexMap(nodes, at).Keys == NodeIds(nodes)
    decreases |nodes|
  {
    if nodes != [] {
      var front, last := nodes[..|nodes| - 1], nodes[|nodes| - 1];
      IndexMapKeys(front, at);
      assert nodes == front + [last];
    }
  }

  lemma {:induction false} IndexMapAt<V>(nodes: seq<Node>, at: nat -> V, i: nat)
    requires DistinctIds(nodes) && i < |nodes|
    ensures nodes[i].id in IndexMap(nodes, at) && IndexMap(nodes, at)[nodes[i].id] == at(i)
    decreases |nodes|
  {
    var front := nodes[..|nodes| - 1];
    if i < |front| { IndexMapAt(front, at, i); }
  }

  lemma IndexMapValues<V>(nodes: seq<Node>, at: nat -> V)
    requires DistinctIds(nodes)
    ensures IndexMap(nodes, at).Keys == NodeIds(nodes)
    ensures forall i :: 0 <= i < |nodes| ==> nodes[i].id in IndexMap(nodes, at) && IndexMap(nodes, at)[nodes[i].id] == at(i)
  {
    IndexMapKeys(nodes, at);
    forall i | 0 <= i < |nodes| ensures nodes[i].id in IndexMap(nodes, at) && IndexMap(nodes, at)[nodes[i].id] == at(i) {
      IndexMapAt(nodes, at, i);
    }
  }

  function AtSlot(place: Placer, band: Band, column: int): nat -> Point {
    slot => place(band, column, slot)
  }

  function ItsSlot(): nat -> nat { slot => slot }

  /** Places one cell, top to bottom. */
  method PlaceCell(sorted: seq<Node>, band: Band, column: nat, place: Placer, positions: map<string, Point>)
    returns (positions': map<string, Point>)
    ensures positions' == positions + IndexMap(sorted, AtSlot(place, band, column))
  {
    positions' := positions;
    for slot := 0 to |sorted|
      invariant positions' == positions + IndexMap(sorted[..slot], AtSlot(place, band, column))
    {
      assert sorted[..slot + 1][..slot] == sorted[..slot];
      positions' := positions'[sorted[slot].id := place(band, column, slot)];
    }
    assert sorted[..|sorted|] == sorted;
  }

  /** The nodes of columns before `column`, and of this column in lanes before `b`. */
  ghost predicate Before(layer: map<string, nat>, bands: seq<Band>, n: Node, column: int, b: int) {
    Column(layer, n) < column || (Column(layer, n) == column && exists i :: 0 <= i < b && i < |bands| && bands[i].account == n.account)
  }

  /** Everything before the point is placed, nothing else is, and cards of one cell differ in slot. */
  ghost predicate PlacedSoFar(nodes: seq<Node>, layer: map<string, nat>, bands: seq<Band>, place: Placer,
                              positions: map<string, Point>, slots: map<string, nat>, column: int, b: int) {
    && (forall n :: n in nodes && Before(layer, bands, n, column, b) ==> Placed(nodes, layer, bands, place, positions, slots, n))
    && (forall n, n' :: n in nodes && n' in nodes && n.id != n'.id && Before(layer, bands, n, column, b) ==>
          DifferentSlots(layer, slots, n, n'))
    && (forall id :: id in positions ==> id in NodeIds(nodes))
  }

  /** Two cards of one cell, once both have a slot, have different ones. */
  ghost predicate DifferentSlots(layer: map<string, nat>, slots: map<string, nat>, n: Node, n': Node) {
    (n.account == n'.account && Column(layer, n) == Column(layer, n') && n.id in slots && n'.id in slots) ==>
      slots[n.id] != slots[n'.id]
  }

  ghost predicate DistinctLanes(bands: seq<Band>) {
    forall i, j :: 0 <= i < j < |bands| ==> bands[i].account != bands[j].account
  }

  lemma SortedCell(nodes: seq<Node>, layer: map<string, nat>, account: Option<string>, column: nat, sorted: seq<Node>, n: Node)
    requires DistinctIds(nodes) && n in nodes
    requires multiset(sorted) == multiset(CellOf(nodes, layer, account, column))
    ensures DistinctIds(sorted)
    ensures n in sorted <==> n.account == account && Column(layer, n) == column
    ensures n.id in NodeIds(sorted) <==> n in sorted
  {
    var cell := CellOf(nodes, layer, account, column);
    SameMembers(sorted, cell);
    CellListed(nodes, layer, account, column);
    PermutedDistinct(cell, sorted);
    if n.id in NodeIds(sorted) {
      var n' :| n' in sorted && n'.id == n.id;
      SameIdSame(nodes, n, n');
    }
  }

  /** What placing a cell adds: each of its cards at its slot, other cards where they were. */
  lemma CellPlaced(nodes: seq<Node>, layer: map<string, nat>, bands: seq<Band>, place: Placer, column: nat, b: nat, sorted: seq<Node>,
                   positions: map<string, Point>, slots: map<string, nat>, n: Node)
    requires DistinctIds(nodes) && b < |bands| && n in nodes
    requires multiset(sorted) == multiset(CellOf(nodes, layer, bands[b].account, column))
    ensures var positions', slots' := positions + IndexMap(sorted, AtSlot(place, bands[b], column)), slots + IndexMap(sorted, ItsSlot());
            if n.account == bands[b].account && Column(layer, n) == column then
              exists i :: 0 <= i < |sorted| && sorted[i] == n && n.id in positions' && n.id in slots'
                       && slots'[n.id] == i && positions'[n.id] == place(bands[b], column, i)
            else
              && (n.id in positions' <==> n.id in positions) && (n.id in positions ==> positions'[n.id] == positions[n.id])
              && (n.id in slots' <==> n.id in slots) && (n.id in slots ==> slots'[n.id] == slots[n.id])
  {
    SortedCell(nodes, layer, bands[b].account, column, sorted, n);
    var i := JoinedAt(sorted, AtSlot(place, bands[b], column), positions, n);
    var j := JoinedAt(sorted, ItsSlot(), slots, n);
  }

  /** A map joined with an index map: the slot's value for a listed node, unchanged for an id not listed. */
  lemma JoinedAt<V>(sorted: seq<Node>, at: nat -> V, before: map<string, V>, n: Node) returns (i: nat)
    requires DistinctIds(sorted) && (n.id in NodeIds(sorted) <==> n in sorted)
    ensures var joined := before + IndexMap(sorted, at);
            if n in sorted then i < |sorted| && sorted[i] == n && n.id in joined && joined[n.id] == at(i)
            else (n.id in joined <==> n.id in before) && (n.id in before ==> joined[n.id] == before[n.id])
  {
    IndexMapValues(sorted, at);
    i := 0;
    if n in sorted {
      i :| 0 <= i < |sorted| && sorted[i] == n;
      assert sorted[i].id in IndexMap(sorted, at);
    }
  }

  lemma PlacedStays(nodes: seq<Node>, layer: map<string, nat>, bands: seq<Band>, place: Placer, column: nat, b: nat, sorted: seq<Node>,
                    positions: map<string, Point>, slots: map<string, nat>, n: Node)
    requires DistinctIds(nodes) && b < |bands| && DistinctLanes(bands) && n in nodes
    requires multiset(sorted) == multiset(CellOf(nodes, layer, bands[b].account, column))
    requires PlacedSoFar(nodes, layer, bands, place, positions, slots, column, b)
    requires Before(layer, bands, n, column, b + 1)
    ensures Placed(nodes, layer, bands, place, positions + IndexMap(sorted, AtSlot(place, bands[b], column)),
                   slots + IndexMap(sorted, ItsSlot()), n)
  {
    CellPlaced(nodes, layer, bands, place, column, b, sorted, positions, slots, n);
    if n.account == bands[b].account && Column(layer, n) == column {
      SameMembers(sorted, CellOf(nodes, layer, bands[b].account, column));
    } else {
      assert Before(layer, bands, n, column, b);
      assert Placed(nodes, layer, bands, place, positions, slots, n);
    }
  }

  lemma SlotsStayApart(nodes: seq<Node>, layer: map<string, nat>, bands: seq<Band>, place: Placer, column: nat, b: nat, sorted: seq<Node>,
                       positions: map<string, Point>, slots: map<string, nat>, n: Node, n': Node)
    requires DistinctIds(nodes) && b < |bands| && DistinctLanes(bands) && n in nodes && n' in nodes && n.id != n'.id
    requires multiset(sorted) == multiset(CellOf(nodes, layer, bands[b].account, column))
    requires PlacedSoFar(nodes, layer, bands, place, positions, slots, column, b)
    requires Before(layer, bands, n, column, b + 1)
    ensures DifferentSlots(layer, slots + IndexMap(sorted, ItsSlot()), n, n')
  {
    CellPlaced(nodes, layer, bands, place, column, b, sorted, positions, slots, n);
    CellPlaced(nodes, layer, bands, place, column, b, sorted, positions, slots, n');
    if !(n.account == bands[b].account && Column(layer, n) == column) {
      assert Before(layer, bands, n, column, b);
      assert DifferentSlots(layer, slots, n, n');
    }
  }

  lemma PlacingOneCell(nodes: seq<Node>, layer: map<string, nat>, bands: seq<Band>, place: Placer, column: nat, b: nat, sorted: seq<Node>,
                       positions: map<string, Point>, slots: map<string, nat>)
    requires DistinctIds(nodes) && b < |bands| && DistinctLanes(bands)
    requires multiset(sorted) == multiset(CellOf(nodes, layer, bands[b].account, column))
    requires PlacedSoFar(nodes, layer, bands, place, positions, slots, column, b)
    ensures PlacedSoFar(nodes, layer, bands, place, positions + IndexMap(sorted, AtSlot(place, bands[b], column)),
                        slots + IndexMap(sorted, ItsSlot()), column, b + 1)
  {
    var positions' := positions + IndexMap(sorted, AtSlot(place, bands[b], column));
    var slots' := slots + IndexMap(sorted, ItsSlot());
    forall n | n in nodes && Before(layer, bands, n, column, b + 1)
      ensures Placed(nodes, layer, bands, place, positions', slots', n)
    {
      PlacedStays(nodes, layer, bands, place, column, b, sorted, positions, slots, n);
    }
    forall n, n' | n in nodes && n' in nodes && n.id != n'.id && Before(layer, bands, n, column, b + 1)
      ensures DifferentSlots(layer, slots', n, n')
    {
      SlotsStayApart(nodes, layer, bands, place, column, b, sorted, positions, slots, n, n');
    }
    var cell := CellOf(nodes, layer, bands[b].account, column);
    SameMembers(sorted, cell);
    CellListed(nodes, layer, bands[b].account, column);
    PermutedDistinct(cell, sorted);
    IndexMapValues(sorted, AtSlot(place, bands[b], column));
    forall id | id in positions' ensures id in NodeIds(nodes) {
      if id in NodeIds(sorted) {
        var n :| n in sorted && n.id == id;
        assert n in nodes;
      }
    }
  }

  lemma NextColumn(nodes: seq<Node>, layer: map<string, nat>, bands: seq<Band>, place: Placer, column: int,
                   positions: map<string, Point>, slots: map<string, nat>)
    requires PlacedSoFar(nodes, layer, bands, place, positions, slots, column, |bands|)
    requires forall n :: n in nodes ==> exists i :: 0 <= i < |bands| && bands[i].account == n.account
    ensures PlacedSoFar(nodes, layer, bands, place, positions, slots, column + 1, 0)
  {
    forall n | n in nodes && Before(layer, bands, n, column + 1, 0) ensures Before(layer, bands, n, column, |bands|) {
    }
  }

  // ----- the order within a cell

  /** Every link goes to a later column. */
  predicate GoRight(links: seq<Link>, layer: map<string, nat>) {
    forall l :: l in links ==> l.from in layer && l.to in layer && layer[l.from] < layer[l.to]
  }

  /** The mean height of one card's sources is at most that of the other's, or the other has none. */
  predicate MeanAtMost(links: seq<Link>, positions: map<string, Point>, n: Node, n': Node) {
    KeyAtMost(Barycentre(links, positions)(n), Barycentre(links, positions)(n'))
  }

  predicate SameCell(layer: map<string, nat>, n: Node, n': Node) { n.account == n'.account && Column(layer, n) == Column(layer, n') }

  /** In every cell that has its cards, up to this column, they stand in the order of their sources' means. */
  ghost predicate InOrder(nodes: seq<Node>, links: seq<Link>, layer: map<string, nat>, positions: map<string, Point>,
                          slots: map<string, nat>, column: int) {
    && (forall n :: n in nodes && n.id in slots ==> Column(layer, n) <= column)
    && (forall n, n' :: n in nodes && n' in nodes && SlotAbove(layer, slots, n, n') ==> MeanAtMost(links, positions, n, n'))
  }

  predicate SlotAbove(layer: map<string, nat>, slots: map<string, nat>, n: Node, n': Node) {
    SameCell(layer, n, n') && n.id in slots && n'.id in slots && slots[n.id] < slots[n'.id]
  }

  lemma {:induction false} HeightsStay(links: seq<Link>, positions: map<string, Point>, positions': map<string, Point>, id: string)
    requires forall l :: l in links && l.to == id ==>
               (l.from in positions <==> l.from in positions') && (l.from in positions ==> positions'[l.from] == positions[l.from])
    ensures IncomingHeights(links, positions', id) == IncomingHeights(links, positions, id)
    decreases |links|
  {
    if links != [] { HeightsStay(links[..|links| - 1], positions, positions', id); }
  }

  /** What a card's mean is made of does not move when cards of its own column or later ones are placed. */
  lemma MeanStays(nodes: seq<Node>, links: seq<Link>, layer: map<string, nat>, bands: seq<Band>, place: Placer, column: nat, b: nat,
                  sorted: seq<Node>, positions: map<string, Point>, n: Node)
    requires DistinctIds(nodes) && b < |bands| && GoRight(links, layer) && n.id in layer && Column(layer, n) <= column
    requires (forall m :: m in nodes ==> m.id in layer) && multiset(sorted) == multiset(CellOf(nodes, layer, bands[b].account, column))
    ensures var positions' := positions + IndexMap(sorted, AtSlot(place, bands[b], column));
            Barycentre(links, positions')(n) == Barycentre(links, positions)(n)
  {
    var positions' := positions + IndexMap(sorted, AtSlot(place, bands[b], column));
    IndexMapKeys(sorted, AtSlot(place, bands[b], column));
    SameMembers(sorted, CellOf(nodes, layer, bands[b].account, column));
    CellListed(nodes, layer, bands[b].account, column);
    forall l | l in links && l.to == n.id ensures l.from !in NodeIds(sorted) {
      assert layer[l.from] < layer[n.id];
    }
    HeightsStay(links, positions, positions', n.id);
  }

  lemma CellInOrder(nodes: seq<Node>, links: seq<Link>, layer: map<string, nat>, bands: seq<Band>, place: Placer, column: nat, b: nat,
                    sorted: seq<Node>, positions: map<string, Point>, slots: map<string, nat>)
    requires DistinctIds(nodes) && b < |bands| && GoRight(links, layer) && forall n :: n in nodes ==> n.id in layer
    requires multiset(sorted) == multiset(CellOf(nodes, layer, bands[b].account, column)) && SortedByKey(sorted, Barycentre(links, positions))
    requires InOrder(nodes, links, layer, positions, slots, column)
    ensures InOrder(nodes, links, layer, positions + IndexMap(sorted, AtSlot(place, bands[b], column)),
                    slots + IndexMap(sorted, ItsSlot()), column)
  {
    var positions' := positions + IndexMap(sorted, AtSlot(place, bands[b], column));
    var slots' := slots + IndexMap(sorted, ItsSlot());
    forall n | n in nodes && n.id in slots' ensures Column(layer, n) <= column {
      CellPlaced(nodes, layer, bands, place, column, b, sorted, positions, slots, n);
    }
    forall n, n' | n in nodes && n' in nodes && SlotAbove(layer, slots', n, n')
      ensures MeanAtMost(links, positions', n, n')
    {
      PairInOrder(nodes, links, layer, bands, place, column, b, sorted, positions, slots, n, n');
      MeanStays(nodes, links, layer, bands, place, column, b, sorted, positions, n);
      MeanStays(nodes, links, layer, bands, place, column, b, sorted, positions, n');
    }
  }

  lemma PairInOrder(nodes: seq<Node>, links: seq<Link>, layer: map<string, nat>, bands: seq<Band>, place: Placer, column: nat, b: nat,
                    sorted: seq<Node>, positions: map<string, Point>, slots: map<string, nat>, n: Node, n': Node)
    requires DistinctIds(nodes) && b < |bands| && n in nodes && n' in nodes
    requires multiset(sorted) == multiset(CellOf(nodes, layer, bands[b].account, column)) && SortedByKey(sorted, Barycentre(links, positions))
    requires InOrder(nodes, links, layer, positions, slots, column) && SlotAbove(layer, slots + IndexMap(sorted, ItsSlot()), n, n')
    ensures MeanAtMost(links, positions, n, n')
  {
    CellPlaced(nodes, layer, bands, place, column, b, sorted, positions, slots, n);
    CellPlaced(nodes, layer, bands, place, column, b, sorted, positions, slots, n');
  }

  /** Of two cards of a cell the higher one has sources that are higher in the mean. */
  ghost predicate CellsInOrder(model: Model, layer: map<string, nat>, positions: map<string, Point>) {
    forall n, n' :: n in model.nodes && n' in model.nodes && CardAbove(layer, positions, n, n') ==> MeanAtMost(model.links, positions, n, n')
  }

  predicate CardAbove(layer: map<string, nat>, positions: map<string, Point>, n: Node, n': Node) {
    SameCell(layer, n, n') && n.id in positions && n'.id in positions && positions[n.id].y < positions[n'.id].y
  }

  method PlaceCards(nodes: seq<Node>, links: seq<Link>, layer: map<string, nat>, bands: seq<Band>, maxLayer: nat, place: Placer)
    returns (positions: map<string, Point>, ghost slots: map<string, nat>)
    requires DistinctIds(nodes) && DistinctLanes(bands)
    requires forall n :: n in nodes ==> Column(layer, n) <= maxLayer
    requires forall n :: n in nodes ==> exists i :: 0 <= i < |bands| && bands[i].account == n.account
    requires forall n :: n in nodes ==> n.id in layer
    ensures PlacedSoFar(nodes, layer, bands, place, positions, slots, maxLayer + 1, 0)
    ensures GoRight(links, layer) ==> InOrder(nodes, links, layer, positions, slots, maxLayer + 1)
  {
    positions, slots := map[], map[];
    for column := 0 to maxLayer + 1
      invariant PlacedSoFar(nodes, layer, bands, place, positions, slots, column, 0)
      invariant GoRight(links, layer) ==> InOrder(nodes, links, layer, positions, slots, column)
    {
      for b := 0 to |bands|
        invariant PlacedSoFar(nodes, layer, bands, place, positions, slots, column, b)
        invariant GoRight(links, layer) ==> InOrder(nodes, links, layer, positions, slots, column)
      {
        var cell := CellOf(nodes, layer, bands[b].account, column);
        var sorted := SortByKey(cell, Barycentre(links, positions));
        SortSorts(cell, Barycentre(links, positions));
        PlacingOneCell(nodes, layer, bands, place, column, b, sorted, positions, slots);
        if GoRight(links, layer) { CellInOrder(nodes, links, layer, bands, place, column, b, sorted, positions, slots); }
        positions := PlaceCell(sorted, bands[b], column, place, positions);
        slots := slots + IndexMap(sorted, ItsSlot());
      }
      NextColumn(nodes, layer, bands, place, column, positions, slots);
    }
  }

  // ----- the whole layout

  function MinReal(a: real, b: real): real { if a < b then a else b }
  function MaxReal(a: real, b: real): real { if a < b then b else a }

  /** Two cards do not overlap: they are a card apart on one axis. */
  predicate Apart(p: Point, q: Point) {
    || p.x + CARD_W as real <= q.x || q.x + CARD_W as real <= p.x
    || p.y + CARD_H <= q.y || q.y + CARD_H <= p.y
  }

  /** The card lies inside the lane, below its heading. */
  predicate InsideBand(p: Point, band: Band) {
    band.y + LANE_HEAD <= p.y - CARD_H / 2 && p.y + CARD_H / 2 <= band.y + band.height
  }

  predicate InsideCanvas(p: Point, width: real, height: int) {
    && 0.0 <= p.x - CARD_W as real / 2.0 && p.x + CARD_W as real / 2.0 <= width
    && 0 <= p.y - CARD_H / 2 && p.y + CARD_H / 2 <= height
  }

  lemma ColumnsApart(a: nat, b: nat, step: real)
    requires a < b && step >= STEP as real
    ensures a as real * step + CARD_W as real <= b as real * step
  {
    assert b as real * step - a as real * step == (b - a) as real * step;
    assert (b - a) as real >= 1.0;
    MulAtLeast((b - a) as real, step);
  }

  lemma MulAtLeast(n: real, step: real)
    requires n >= 1.0 && step >= 0.0
    ensures n * step >= step
  {
    assert (n - 1.0) * step >= 0.0;
  }

  lemma MulMono(a: nat, b: nat, step: real)
    requires a <= b && step >= 0.0
    ensures 0.0 <= a as real * step <= b as real * step
  {
    assert (b - a) as real * step >= 0.0;
    assert b as real * step - a as real * step == (b - a) as real * step;
  }

  lemma CentreFits(bands: seq<Band>, b: nat, bottom: int, column: nat, slot: nat, cards: nat, maxLayer: nat, step: real, width: real)
    requires Stacked(bands, bottom) && b < |bands| && slot < cards && LANE_HEAD + cards * ROW <= bands[b].height
    requires column <= maxLayer && step >= STEP as real
    requires width >= (PAD * 2 + CARD_W) as real + maxLayer as real * step
    ensures InsideBand(Centre(bands[b], column, slot, step), bands[b])
    ensures InsideCanvas(Centre(bands[b], column, slot, step), width, bottom)
  {
    MulMono(column, maxLayer, step);
    assert slot * ROW + ROW <= cards * ROW;
  }

  lemma CentresApart(bands: seq<Band>, bottom: int, b: nat, b': nat, column: nat, column': nat, slot: nat, slot': nat,
                     cards: nat, cards': nat, step: real)
    requires Stacked(bands, bottom) && b < |bands| && b' < |bands| && step >= STEP as real
    requires slot < cards && LANE_HEAD + cards * ROW <= bands[b].height
    requires slot' < cards' && LANE_HEAD + cards' * ROW <= bands[b'].height
    requires b == b' && column == column' ==> slot != slot'
    ensures Apart(Centre(bands[b], column, slot, step), Centre(bands[b'], column', slot', step))
  {
    if b == b' && column == column' {
      if slot < slot' { assert slot * ROW + ROW <= slot' * ROW; } else { assert slot' * ROW + ROW <= slot * ROW; }
    } else if b == b' {
      if column < column' { ColumnsApart(column, column', step); } else { ColumnsApart(column', column, step); }
    } else {
      assert slot * ROW + ROW <= cards * ROW && slot' * ROW + ROW <= cards' * ROW;
    }
  }

  /** The spare width spread over the columns, within limits. */
  function Spacing(minWidth: real, maxLayer: nat): (step: real)
    ensures STEP as real <= step <= MAX_STEP as real
  {
    var spare := if maxLayer > 0 then (minWidth - (PAD * 2) as real - CARD_W as real) / maxLayer as real else 0.0;
    MinReal(MAX_STEP as real, MaxReal(STEP as real, spare))
  }

  /** Between the limits the last column ends a margin before the right edge; at the narrowest the columns
      need all of the width or more, at the widest they leave some or none. */
  lemma SpacingFits(minWidth: real, columns: nat)
    requires columns > 0
    ensures var step, needed := Spacing(minWidth, columns), 248.0 + columns as real * Spacing(minWidth, columns);
            && 320.0 <= step <= 520.0
            && (320.0 < step < 520.0 ==> needed == minWidth)
            && (step == 320.0 ==> needed >= minWidth) && (step == 520.0 ==> needed <= minWidth)
  {
    var n, room := columns as real, minWidth - 248.0;
    var spare := room / n;
    assert spare * n == room;
    if spare <= 320.0 { AtMostTimes(spare, 320.0, n); }
    if spare >= 520.0 { AtMostTimes(520.0, spare, n); }
  }

  lemma AtMostTimes(a: real, b: real, n: real)
    requires a <= b && n >= 0.0
    ensures a * n <= b * n
  {
    assert (b - a) * n >= 0.0;
    assert b * n - a * n == (b - a) * n;
  }

  method LayoutAttackGraph(model: Model, minWidth: real)
    returns (layout: Layout, ghost layer: map<string, nat>, ghost step: real, ghost columns: nat)
    requires DistinctIds(model.nodes) && Closed(model)
    // columns are longest hop distances when the links are acyclic
    ensures layer.Keys == NodeIds(model.nodes)
    ensures Acyclic(model.links) ==> forall id :: id in layer ==> IsLongest(model.links, id, layer[id])
    // each node gets one position, in the column of its layer
    ensures layout.positions.Keys == NodeIds(model.nodes)
    ensures forall n :: n in model.nodes ==>
              layout.positions[n.id].x == PAD as real + layer[n.id] as real * step + CARD_W as real / 2.0
    // no two cards overlap
    ensures forall n, n' :: n in model.nodes && n' in model.nodes && n.id != n'.id ==>
              Apart(layout.positions[n.id], layout.positions[n'.id])
    // each card lies in its account's lane, and on the canvas
    ensures forall n :: n in model.nodes ==>
              exists b :: 0 <= b < |layout.bands| && layout.bands[b].account == n.account
                       && InsideBand(layout.positions[n.id], layout.bands[b])
    ensures forall n :: n in model.nodes ==> InsideCanvas(layout.positions[n.id], layout.width, layout.height)
    // lanes are disjoint, one per account, the internet first and collected accounts last
    ensures Stacked(layout.bands, layout.height) && DistinctLanes(layout.bands)
    ensures forall i, j :: 0 <= i < j < |layout.bands| ==> MayPrecede(layout.bands[i], layout.bands[j])
    // lanes begin at the top and follow each other with a gap; each is some node's and as tall as its fullest cell
    ensures AsPromised(model.nodes, layer, layout.bands, layout.height)
    // the canvas is as wide as asked for, or as the columns need at the spacing that fits best
    ensures columns == LastColumn(model.nodes, layer) && step == Spacing(minWidth, columns)
    ensures layout.width == MaxReal(minWidth, (PAD * 2 + CARD_W) as real + columns as real * step)
    // on acyclic links the cards of a cell stand in the order of the mean heights of the cards that link to them
    ensures Acyclic(model.links) ==> CellsInOrder(model, layer, layout.positions)
  {
    var layers := AssignLayers(model);
    layer := layers;
    var ordered, lanes, bands, bottom, maxLayer := ArrangeLanes(model.nodes, layers);
    var spacing := Spacing(minWidth, maxLayer);
    step, columns := spacing, maxLayer;
    var positions;
    ghost var slots;
    positions, slots := PlaceCards(ordered, model.links, layers, bands, maxLayer, CentreAt(spacing));
    var width := MaxReal(minWidth, (PAD * 2 + CARD_W) as real + maxLayer as real * spacing);
    layout := Layout(positions, bands, width, bottom);
    AllPlaced(ordered, layers, lanes, bands, bottom, maxLayer, spacing, width, positions, slots);
    if Acyclic(model.links) { CellsAreInOrder(model, ordered, layers, bands, maxLayer, spacing, positions, slots); }
  }

  lemma CellsAreInOrder(model: Model, nodes: seq<Node>, layer: map<string, nat>, bands: seq<Band>, maxLayer: nat, step: real,
                        positions: map<string, Point>, slots: map<string, nat>)
    requires Closed(model) && layer.Keys == NodeIds(model.nodes) && forall id :: id in layer ==> IsLongest(model.links, id, layer[id])
    requires (forall n :: n in nodes <==> n in model.nodes) && DistinctLanes(bands)
    requires forall n :: n in nodes ==> Column(layer, n) <= maxLayer
    requires PlacedSoFar(nodes, layer, bands, CentreAt(step), positions, slots, maxLayer + 1, 0)
    requires GoRight(model.links, layer) ==> InOrder(nodes, model.links, layer, positions, slots, maxLayer + 1)
    ensures CellsInOrder(model, layer, positions)
  {
    LongestGoRight(model, layer);
    forall n, n' | n in model.nodes && n' in model.nodes && CardAbove(layer, positions, n, n') ensures MeanAtMost(model.links, positions, n, n') {
      AllAreBefore(nodes, layer, bands, maxLayer, positions, slots, CentreAt(step), n);
      AllAreBefore(nodes, layer, bands, maxLayer, positions, slots, CentreAt(step), n');
      HigherIsEarlier(nodes, layer, bands, step, positions, slots, n, n');
    }
  }

  lemma LongestGoRight(model: Model, layer: map<string, nat>)
    requires Closed(model) && layer.Keys == NodeIds(model.nodes) && forall id :: id in layer ==> IsLongest(model.links, id, layer[id])
    ensures GoRight(model.links, layer)
  {
    forall l | l in model.links ensures l.from in layer && l.to in layer && layer[l.from] < layer[l.to] { LinksGoRight(model, layer, l); }
  }

  lemma AllAreBefore(nodes: seq<Node>, layer: map<string, nat>, bands: seq<Band>, maxLayer: nat, positions: map<string, Point>,
                     slots: map<string, nat>, place: Placer, n: Node)
    requires PlacedSoFar(nodes, layer, bands, place, positions, slots, maxLayer + 1, 0) && n in nodes && Column(layer, n) <= maxLayer
    ensures Placed(nodes, layer, bands, place, positions, slots, n)
  {
    assert Before(layer, bands, n, maxLayer + 1, 0);
  }

  lemma HigherIsEarlier(nodes: seq<Node>, layer: map<string, nat>, bands: seq<Band>, step: real,
                        positions: map<string, Point>, slots: map<string, nat>, n: Node, n': Node)
    requires DistinctLanes(bands) && CardAbove(layer, positions, n, n')
    requires Placed(nodes, layer, bands, CentreAt(step), positions, slots, n) && Placed(nodes, layer, bands, CentreAt(step), positions, slots, n')
    ensures SlotAbove(layer, slots, n, n')
  {
    var b :| 0 <= b < |bands| && bands[b].account == n.account && positions[n.id] == Centre(bands[b], Column(layer, n), slots[n.id], step);
    var b' :| 0 <= b' < |bands| && bands[b'].account == n'.account && positions[n'.id] == Centre(bands[b'], Column(layer, n'), slots[n'.id], step);
    assert b == b';
  }

  /** Orders the nodes, opens a lane per account and stacks the lanes. */
  method ArrangeLanes(nodes: seq<Node>, layer: map<string, nat>)
    returns (ordered: seq<Node>, lanes: seq<Lane>, bands: seq<Band>, bottom: int, maxLayer: nat)
    requires DistinctIds(nodes) && layer.Keys == NodeIds(nodes)
    ensures Prepared(ordered, layer, lanes, bands, bottom, maxLayer)
    ensures (forall n :: n in ordered <==> n in nodes) && NodeIds(ordered) == NodeIds(nodes)
    ensures forall n :: n in ordered ==> exists i :: 0 <= i < |bands| && bands[i].account == n.account
    ensures LanesInOrder(lanes) && AsPromised(nodes, layer, bands, bottom)
    ensures maxLayer == LastColumn(nodes, layer)
  {
    maxLayer := MaxColumn(nodes, layer);
    ordered := OrderNodes(nodes, layer, maxLayer);
    lanes, bands, bottom := OpenLanes(ordered, layer, maxLayer);
    SortSorts(nodes, OrderKey(layer, maxLayer));
    Promised(ordered, nodes, layer, lanes, bands, bottom, maxLayer);
  }

  method OpenLanes(ordered: seq<Node>, layer: map<string, nat>, maxLayer: nat)
    returns (lanes: seq<Lane>, bands: seq<Band>, bottom: int)
    requires DistinctIds(ordered) && NodesInOrder(ordered)
    requires forall n :: n in ordered ==> n.id in layer && Column(layer, n) <= maxLayer
    ensures Prepared(ordered, layer, lanes, bands, bottom, maxLayer) && LanesInOrder(lanes) && lanes == LanesOf(ordered)
    ensures StackedTightly(bands, bottom) && AllTall(ordered, layer, bands, maxLayer)
    ensures forall n :: n in ordered ==> exists i :: 0 <= i < |bands| && bands[i].account == n.account
  {
    lanes := LanesOf(ordered);
    LanesCover(ordered);
    LanesRanked(ordered);
    bands, bottom := StackBands(ordered, layer, lanes, maxLayer);
    LanesAre(ordered, layer, lanes, maxLayer, bands, bottom);
    LanesToBands(ordered, lanes, bands);
  }

  ghost predicate AllTall(nodes: seq<Node>, layer: map<string, nat>, bands: seq<Band>, maxLayer: nat) {
    forall i :: 0 <= i < |bands| ==> TallUpTo(nodes, layer, bands[i], maxLayer)
  }

  function BandAt(bands: seq<Band>, i: int): Band
    requires 0 <= i < |bands|
  {
    bands[i]
  }

  /** Lanes without gaps but the usual ones, each some node's and as tall as its fullest cell. */
  ghost predicate AsPromised(nodes: seq<Node>, layer: map<string, nat>, bands: seq<Band>, bottom: int) {
    && StackedTightly(bands, bottom)
    && forall i :: 0 <= i < |bands| ==>
         OpenedBy(nodes, (BandAt(bands, i).account, BandAt(bands, i).external)) && AsTallAs(nodes, layer, BandAt(bands, i))
  }

  lemma Promised(ordered: seq<Node>, nodes: seq<Node>, layer: map<string, nat>, lanes: seq<Lane>, bands: seq<Band>, bottom: int, maxLayer: nat)
    requires multiset(ordered) == multiset(nodes) && lanes == LanesOf(ordered) && StackedTightly(bands, bottom)
    requires AllTall(ordered, layer, bands, maxLayer) && forall n :: n in ordered ==> Column(layer, n) <= maxLayer
    requires |bands| == |lanes| && forall i :: 0 <= i < |bands| ==> (bands[i].account, bands[i].external) == lanes[i]
    ensures AsPromised(nodes, layer, bands, bottom)
  {
    forall i | 0 <= i < |bands|
      ensures OpenedBy(nodes, (BandAt(bands, i).account, BandAt(bands, i).external)) && AsTallAs(nodes, layer, BandAt(bands, i))
    {
      LanePromised(ordered, nodes, layer, lanes[i], bands[i], maxLayer);
    }
  }

  lemma LanePromised(ordered: seq<Node>, nodes: seq<Node>, layer: map<string, nat>, lane: Lane, band: Band, maxLayer: nat)
    requires multiset(ordered) == multiset(nodes) && lane in LanesOf(ordered) && (band.account, band.external) == lane
    requires TallUpTo(ordered, layer, band, maxLayer) && forall n :: n in ordered ==> Column(layer, n) <= maxLayer
    ensures OpenedBy(nodes, (band.account, band.external)) && AsTallAs(nodes, layer, band)
  {
    SameMembers(ordered, nodes);
    LanesOpened(ordered, lane);
    LaneIsTall(ordered, layer, band, maxLayer);
    TallForBoth(ordered, nodes, layer, band);
  }

  method OrderNodes(nodes: seq<Node>, layer: map<string, nat>, maxLayer: nat) returns (ordered: seq<Node>)
    requires DistinctIds(nodes) && layer.Keys == NodeIds(nodes)
    requires forall n :: n in nodes ==> Column(layer, n) <= maxLayer
    ensures ordered == SortByKey(nodes, OrderKey(layer, maxLayer))
    ensures DistinctIds(ordered) && NodesInOrder(ordered)
    ensures (forall n :: n in ordered <==> n in nodes) && NodeIds(ordered) == NodeIds(nodes)
    ensures forall n :: n in ordered ==> n.id in layer && Column(layer, n) <= maxLayer
  {
    forall n | n in nodes ensures n.id in layer { assert n.id in NodeIds(nodes); }
    ordered := SortByKey(nodes, OrderKey(layer, maxLayer));
    SortSorts(nodes, OrderKey(layer, maxLayer));
    SameMembers(ordered, nodes);
    PermutedDistinct(nodes, ordered);
    OrderedByRank(nodes, ordered, layer, maxLayer);
  }

  lemma OrderedByRank(nodes: seq<Node>, ordered: seq<Node>, layer: map<string, nat>, columns: nat)
    requires SortedByKey(ordered, OrderKey(layer, columns)) && multiset(ordered) == multiset(nodes)
    requires forall n :: n in nodes ==> n.id in layer && layer[n.id] <= columns
    ensures NodesInOrder(ordered)
  {
    SameMembers(ordered, nodes);
    forall i, j | 0 <= i < j < |ordered|
      ensures Rank(ordered[i].account, ordered[i].external) <= Rank(ordered[j].account, ordered[j].external)
    {
      assert ordered[i] in nodes && ordered[j] in nodes;
      OrderKeyIsLexicographic(layer, columns, ordered[i], ordered[j]);
    }
  }

  lemma LanesToBands(nodes: seq<Node>, lanes: seq<Lane>, bands: seq<Band>)
    requires |bands| == |lanes| && forall i :: 0 <= i < |bands| ==> (bands[i].account, bands[i].external) == lanes[i]
    requires forall n :: n in nodes ==> HasLane(lanes, n.account)
    requires forall i, j :: 0 <= i < j < |lanes| ==> lanes[i].0 != lanes[j].0
    ensures forall n :: n in nodes ==> exists i :: 0 <= i < |bands| && bands[i].account == n.account
    ensures DistinctLanes(bands)
  {
    forall n | n in nodes ensures exists i :: 0 <= i < |bands| && bands[i].account == n.account {
      var i :| 0 <= i < |lanes| && lanes[i].0 == n.account;
      assert bands[i].account == n.account;
    }
    forall i, j | 0 <= i < j < |bands| ensures bands[i].account != bands[j].account {
      assert lanes[i].0 != lanes[j].0;
    }
  }

  lemma BandOf(nodes: seq<Node>, layer: map<string, nat>, lanes: seq<Lane>, bands: seq<Band>, maxLayer: nat, step: real,
               positions: map<string, Point>, slots: map<string, nat>, n: Node) returns (b: nat)
    requires Placed(nodes, layer, bands, CentreAt(step), positions, slots, n) && Column(layer, n) <= maxLayer
    requires |bands| == |lanes| && forall i :: 0 <= i < |bands| ==> (bands[i].account, bands[i].external) == lanes[i]
    requires forall i, column :: 0 <= i < |bands| && 0 <= column <= maxLayer ==>
               LANE_HEAD + |CellOf(nodes, layer, lanes[i].0, column)| * ROW <= bands[i].height
    ensures b < |bands| && bands[b].account == n.account
    ensures positions[n.id] == Centre(bands[b], Column(layer, n), slots[n.id], step)
    ensures LANE_HEAD + |CellOf(nodes, layer, n.account, Column(layer, n))| * ROW <= bands[b].height
  {
    b :| 0 <= b < |bands| && bands[b].account == n.account
         && positions[n.id] == Centre(bands[b], Column(layer, n), slots[n.id], step);
  }

  /** What the stages before the placing hand to it. */
  ghost predicate Prepared(nodes: seq<Node>, layer: map<string, nat>, lanes: seq<Lane>, bands: seq<Band>, bottom: int,
                           maxLayer: nat) {
    && DistinctIds(nodes)
    && (forall n :: n in nodes ==> n.id in layer && Column(layer, n) <= maxLayer)
    && Stacked(bands, bottom) && DistinctLanes(bands)
    && |bands| == |lanes| && (forall i :: 0 <= i < |bands| ==> (bands[i].account, bands[i].external) == lanes[i])
    && (forall i, column :: 0 <= i < |bands| && 0 <= column <= maxLayer ==>
          LANE_HEAD + |CellOf(nodes, layer, lanes[i].0, column)| * ROW <= bands[i].height)
  }

  lemma OnePlaced(nodes: seq<Node>, layer: map<string, nat>, lanes: seq<Lane>, bands: seq<Band>, bottom: int, maxLayer: nat,
                  step: real, width: real, positions: map<string, Point>, slots: map<string, nat>, n: Node)
    requires Prepared(nodes, layer, lanes, bands, bottom, maxLayer) && step >= STEP as real && n in nodes
    requires Placed(nodes, layer, bands, CentreAt(step), positions, slots, n)
    requires width >= (PAD * 2 + CARD_W) as real + maxLayer as real * step
    ensures positions[n.id].x == PAD as real + layer[n.id] as real * step + CARD_W as real / 2.0
    ensures InsideCanvas(positions[n.id], width, bottom)
    ensures exists b :: 0 <= b < |bands| && bands[b].account == n.account && InsideBand(positions[n.id], bands[b])
  {
    var b := BandOf(nodes, layer, lanes, bands, maxLayer, step, positions, slots, n);
    CentreFits(bands, b, bottom, Column(layer, n), slots[n.id],
               |CellOf(nodes, layer, n.account, Column(layer, n))|, maxLayer, step, width);
  }

  lemma TwoPlaced(nodes: seq<Node>, layer: map<string, nat>, lanes: seq<Lane>, bands: seq<Band>, bottom: int, maxLayer: nat,
                  step: real, positions: map<string, Point>, slots: map<string, nat>, n: Node, n': Node)
    requires Prepared(nodes, layer, lanes, bands, bottom, maxLayer) && step >= STEP as real && n in nodes && n' in nodes
    requires Placed(nodes, layer, bands, CentreAt(step), positions, slots, n)
    requires Placed(nodes, layer, bands, CentreAt(step), positions, slots, n')
    requires DifferentSlots(layer, slots, n, n')
    ensures Apart(positions[n.id], positions[n'.id])
  {
    var b := BandOf(nodes, layer, lanes, bands, maxLayer, step, positions, slots, n);
    var b' := BandOf(nodes, layer, lanes, bands, maxLayer, step, positions, slots, n');
    CentresApart(bands, bottom, b, b', Column(layer, n), Column(layer, n'), slots[n.id], slots[n'.id],
                 |CellOf(nodes, layer, n.account, Column(layer, n))|,
                 |CellOf(nodes, layer, n'.account, Column(layer, n'))|, step);
  }

  lemma AllPlaced(nodes: seq<Node>, layer: map<string, nat>, lanes: seq<Lane>, bands: seq<Band>, bottom: int, maxLayer: nat,
                  step: real, width: real, positions: map<string, Point>, slots: map<string, nat>)
    requires Prepared(nodes, layer, lanes, bands, bottom, maxLayer) && step >= STEP as real
    requires PlacedSoFar(nodes, layer, bands, CentreAt(step), positions, slots, maxLayer + 1, 0)
    requires width >= (PAD * 2 + CARD_W) as real + maxLayer as real * step
    ensures positions.Keys == NodeIds(nodes)
    ensures forall n :: n in nodes ==> positions[n.id].x == PAD as real + layer[n.id] as real * step + CARD_W as real / 2.0
    ensures forall n :: n in nodes ==> InsideCanvas(positions[n.id], width, bottom)
    ensures forall n :: n in nodes ==>
              exists b :: 0 <= b < |bands| && bands[b].account == n.account && InsideBand(positions[n.id], bands[b])
    ensures forall n, n' :: n in nodes && n' in nodes && n.id != n'.id ==> Apart(positions[n.id], positions[n'.id])
  {
    forall n | n in nodes ensures Before(layer, bands, n, maxLayer + 1, 0) {
      assert Column(layer, n) < maxLayer + 1;
    }
    forall n | n in nodes
      ensures positions[n.id].x == PAD as real + layer[n.id] as real * step + CARD_W as real / 2.0
      ensures InsideCanvas(positions[n.id], width, bottom)
      ensures exists b :: 0 <= b < |bands| && bands[b].account == n.account && InsideBand(positions[n.id], bands[b])
    {
      OnePlaced(nodes, layer, lanes, bands, bottom, maxLayer, step, width, positions, slots, n);
    }
    forall n, n' | n in nodes && n' in nodes && n.id != n'.id ensures Apart(positions[n.id], positions[n'.id]) {
      TwoPlaced(nodes, layer, lanes, bands, bottom, maxLayer, step, positions, slots, n, n');
    }
  }

  // ----- grouping and layout fit together

  lemma {:induction false} KeptDistinct(groupOf: map<string, string>, nodes: seq<Node>)
    requires DistinctIds(nodes)
    ensures DistinctIds(KeptNodes(groupOf, nodes))
    decreases |nodes|
  {
    if nodes != [] {
      var front, last := nodes[..|nodes| - 1], nodes[|nodes| - 1];
      KeptDistinct(groupOf, front);
      var kept := KeptNodes(groupOf, front);
      forall i | 0 <= i < |kept| ensures kept[i].id != last.id {
        KeptListed(groupOf, front, kept[i]);
        var k :| 0 <= k < |front| && front[k] == kept[i];
        assert nodes[k].id != nodes[|nodes| - 1].id;
      }
    }
  }

  /** A grouped model can be laid out: its cards have distinct ids and its links join cards. */
  lemma GroupedModelIsDrawable(model: Model, expanded: set<string>, groupOf: map<string, string>, grouped: Model)
    requires WellFormed(model) && Closed(model) && Groups(model, expanded, groupOf)
    requires grouped.nodes == KeptNodes(groupOf, model.nodes) && grouped.links == DrawnLinks(groupOf, model.links)
    ensures DistinctIds(grouped.nodes) && Closed(grouped)
  {
    KeptDistinct(groupOf, model.nodes);
    DrawnFromLinks(groupOf, model.links);
    forall d | d in grouped.links ensures d.from in NodeIds(grouped.nodes) && d.to in NodeIds(grouped.nodes) {
      var l :| l in model.links && MapLink(groupOf, l) == d;
      CardExists(model, expanded, groupOf, l.from);
      CardExists(model, expanded, groupOf, l.to);
    }
  }

  lemma CardExists(model: Model, expanded: set<string>, groupOf: map<string, string>, id: string)
    requires WellFormed(model) && Groups(model, expanded, groupOf) && id in NodeIds(model.nodes)
    ensures To(groupOf, id) in NodeIds(KeptNodes(groupOf, model.nodes))
  {
    var n :| n in model.nodes && n.id == id;
    KeptAreCards(model, expanded, groupOf, n);
    var k :| k in KeptNodes(groupOf, model.nodes) && k.id == To(groupOf, n.id);
  }
}
