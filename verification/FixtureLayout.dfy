/** Tier layout of the fixture designer: instruments above fixtures above DUTs,
    one row per tier, no two boxes overlapping. */
module FixtureLayout {
  import opened Graphs

  datatype Kind = Instrument | Fixture | Dut

  datatype Node = Node(id: string, kind: Kind, width: real, height: real)

  datatype Link = Link(source: string, target: string)

  datatype Position = Position(x: real, y: real)

  datatype LayoutOptions = LayoutOptions(nodeSep: real, rankSep: real, origin: Position)

  const DEFAULT_OPTIONS := LayoutOptions(60.0, 80.0, Position(40.0, 40.0))

  function Tier(k: Kind): int {
    match k
    case Instrument => 0
    case Fixture => 1
    case Dut => 2
  }

  // ----- the edges handed to dagre -----

  /** Tier by id; a repeated id takes its last node's tier. */
  function TierMap(nodes: seq<Node>): map<string, int> {
    if nodes == [] then map[]
    else TierMap(nodes[..|nodes| - 1])[nodes[|nodes| - 1].id := Tier(nodes[|nodes| - 1].kind)]
  }

  ghost function Downward(links: seq<Link>, tierOf: map<string, int>): Edges {
    set e | e in links && e.source in tierOf && e.target in tierOf && tierOf[e.source] != tierOf[e.target]
      :: if tierOf[e.source] < tierOf[e.target] then (e.source, e.target) else (e.target, e.source)
  }

  /** Same-tier links are skipped and upward ones are turned round, so whatever
      the links are, the graph handed to dagre has no cycle. */
  method RankEdges(nodes: seq<Node>, links: seq<Link>) returns (edges: seq<(string, string)>)
    ensures Acyclic(set e | e in edges)
    ensures (set e | e in edges) == Downward(links, TierMap(nodes))
  {
    var tierOf := TierMap(nodes);
    edges := [];
    for i := 0 to |links|
      invariant forall e :: e in edges ==> e.0 in tierOf && e.1 in tierOf && tierOf[e.0] < tierOf[e.1]
      invariant (set e | e in edges) == Downward(links[..i], tierOf)
    {
      var l := links[i];
      assert links[..i + 1] == links[..i] + [l];
      DownwardSnoc(links[..i], l, tierOf);
      if l.source in tierOf && l.target in tierOf {
        var from, to := tierOf[l.source], tierOf[l.target];
        if from < to {
          edges := edges + [(l.source, l.target)];
        } else if to < from {
          edges := edges + [(l.target, l.source)];
        }
      }
    }
    assert links[..|links|] == links;
    RankedAcyclic((set e | e in edges), tierOf);
  }

  lemma DownwardSnoc(links: seq<Link>, l: Link, tierOf: map<string, int>)
    ensures Downward(links + [l], tierOf) == Downward(links, tierOf)
      + (if l.source in tierOf && l.target in tierOf && tierOf[l.source] != tierOf[l.target]
         then {if tierOf[l.source] < tierOf[l.target] then (l.source, l.target) else (l.target, l.source)} else {})
  {
    assert l in links + [l];
    assert forall e :: e in links ==> e in links + [l];
  }

  // ----- rows -----

  /** Dagre's x, an arbitrary number for each node it knows, else 0. */
  function XOf(xs: map<string, real>, id: string): real {
    if id in xs then xs[id] else 0.0
  }

  /** Position of the last node with the id in the input. */
  function InputIndex(nodes: seq<Node>, id: string): int {
    if nodes == [] then -1
    else if nodes[|nodes| - 1].id == id then |nodes| - 1
    else InputIndex(nodes[..|nodes| - 1], id)
  }

  /** The sort order of a row: dagre's x, then input order. */
  predicate Before(nodes: seq<Node>, xs: map<string, real>, a: Node, b: Node) {
    var xa, xb := XOf(xs, a.id), XOf(xs, b.id);
    xa < xb || (xa == xb && InputIndex(nodes, a.id) < InputIndex(nodes, b.id))
  }

  predicate Ascending(nodes: seq<Node>, xs: map<string, real>, row: seq<Node>) {
    row != [] ==> (forall m :: m in row[1..] ==> !Before(nodes, xs, m, row[0])) && Ascending(nodes, xs, row[1..])
  }

  lemma InFront(nodes: seq<Node>, xs: map<string, real>, n: Node, row: seq<Node>)
    requires Ascending(nodes, xs, row) && row != [] && Before(nodes, xs, n, row[0])
    ensures Ascending(nodes, xs, [n] + row)
  {
    assert ([n] + row)[1..] == row;
    forall m | m in row ensures !Before(nodes, xs, m, n) {
      assert m == row[0] || m in row[1..];
    }
  }

  function Insert(nodes: seq<Node>, xs: map<string, real>, n: Node, row: seq<Node>): (r: seq<Node>)
    requires Ascending(nodes, xs, row)
    ensures Ascending(nodes, xs, r) && |r| == |row| + 1
    ensures forall m :: m in r <==> m == n || m in row
  {
    if row == [] then [n]
    else if Before(nodes, xs, n, row[0]) then
      InFront(nodes, xs, n, row);
      [n] + row
    else
      assert ([row[0]] + Insert(nodes, xs, n, row[1..]))[1..] == Insert(nodes, xs, n, row[1..]);
      [row[0]] + Insert(nodes, xs, n, row[1..])
  }

  /** The array sort by that order. */
  function Sorted(nodes: seq<Node>, xs: map<string, real>, row: seq<Node>): (r: seq<Node>)
    ensures Ascending(nodes, xs, r) && |r| == |row|
    ensures forall m :: m in r <==> m in row
  {
    if row == [] then [] else Insert(nodes, xs, row[|row| - 1], Sorted(nodes, xs, row[..|row| - 1]))
  }

  lemma OneMore(m: Node, row: seq<Node>, n: Node, r: seq<Node>)
    requires multiset(r) == multiset(row) + multiset{n}
    ensures multiset([m] + r) == multiset([m] + row) + multiset{n}
  {
  }

  lemma InsertUnfolds(nodes: seq<Node>, xs: map<string, real>, n: Node, row: seq<Node>)
    requires Ascending(nodes, xs, row) && row != [] && !Before(nodes, xs, n, row[0])
    ensures Insert(nodes, xs, n, row) == [row[0]] + Insert(nodes, xs, n, row[1..])
  {
  }

  lemma {:induction false} InsertCounts(nodes: seq<Node>, xs: map<string, real>, n: Node, row: seq<Node>)
    requires Ascending(nodes, xs, row)
    ensures multiset(Insert(nodes, xs, n, row)) == multiset(row) + multiset{n}
    decreases |row|
  {
    if row != [] && !Before(nodes, xs, n, row[0]) {
      InsertUnfolds(nodes, xs, n, row);
      InsertCounts(nodes, xs, n, row[1..]);
      OneMore(row[0], row[1..], n, Insert(nodes, xs, n, row[1..]));
      assert row == [row[0]] + row[1..];
    }
  }

  /** The sort is a permutation, repeated nodes included. */
  lemma {:induction false} SortedPermutes(nodes: seq<Node>, xs: map<string, real>, row: seq<Node>)
    ensures multiset(Sorted(nodes, xs, row)) == multiset(row)
    decreases |row|
  {
    if row != [] {
      var init, last := row[..|row| - 1], row[|row| - 1];
      SortedPermutes(nodes, xs, init);
      InsertCounts(nodes, xs, last, Sorted(nodes, xs, init));
      assert row == init + [last];
    }
  }

  function TierNodes(nodes: seq<Node>, k: Kind): (r: seq<Node>)
    ensures forall n :: n in r <==> n in nodes && n.kind == k
  {
    if nodes == [] then []
    else TierNodes(nodes[..|nodes| - 1], k) + (if nodes[|nodes| - 1].kind == k then [nodes[|nodes| - 1]] else [])
  }

  /** x of the i-th box of a row. */
  function Cursor(row: seq<Node>, i: nat, x0: real, sep: real): real
    requires i <= |row|
  {
    if i == 0 then x0 else Cursor(row, i - 1, x0, sep) + row[i - 1].width + sep
  }

  ghost function RowIds(row: seq<Node>): set<string> {
    set n | n in row :: n.id
  }

  lemma RowIdsSnoc(row: seq<Node>, i: nat)
    requires i < |row|
    ensures RowIds(row[..i + 1]) == RowIds(row[..i]) + {row[i].id}
  {
    assert row[..i + 1] == row[..i] + [row[i]];
    assert row[i] in row[..i + 1];
    assert forall n :: n in row[..i] ==> n in row[..i + 1];
  }

  ghost predicate Kept(before: map<string, Position>, after: map<string, Position>, except: set<string>) {
    forall id :: id in before && id !in except ==> id in after && after[id] == before[id]
  }

  lemma PlacedNext(row: seq<Node>, i: nat, positions: map<string, Position>, x0: real, y: real, sep: real)
    requires i < |row| && UniqueNodes(row) && Placed(row, i, positions, x0, y, sep)
    ensures Placed(row, i + 1, positions[row[i].id := Position(Cursor(row, i, x0, sep), y)], x0, y, sep)
  {
    var after := positions[row[i].id := Position(Cursor(row, i, x0, sep), y)];
    forall k | 0 <= k < i ensures StandsAt(row, k, after, x0, y, sep) {
      assert StandsAt(row, k, positions, x0, y, sep);
    }
  }

  method PlaceRow(row: seq<Node>, x0: real, y: real, sep: real, before: map<string, Position>)
    returns (positions: map<string, Position>)
    ensures positions.Keys == before.Keys + RowIds(row)
    ensures Kept(before, positions, RowIds(row))
    ensures UniqueNodes(row) ==> Placed(row, |row|, positions, x0, y, sep)
  {
    positions := before;
    var cursorX := x0;
    for i := 0 to |row|
      invariant cursorX == Cursor(row, i, x0, sep)
      invariant RowSoFar(row, i, before, positions, x0, y, sep)
    {
      RowNext(row, i, before, positions, x0, y, sep);
      positions := positions[row[i].id := Position(cursorX, y)];
      cursorX := cursorX + row[i].width + sep;
    }
    assert row[..|row|] == row;
  }

  ghost predicate RowSoFar(row: seq<Node>, i: nat, before: map<string, Position>, positions: map<string, Position>,
                           x0: real, y: real, sep: real)
    requires i <= |row|
  {
    && positions.Keys == before.Keys + RowIds(row[..i])
    && Kept(before, positions, RowIds(row[..i]))
    && (UniqueNodes(row) ==> Placed(row, i, positions, x0, y, sep))
  }

  lemma RowNext(row: seq<Node>, i: nat, before: map<string, Position>, positions: map<string, Position>,
                x0: real, y: real, sep: real)
    requires i < |row| && RowSoFar(row, i, before, positions, x0, y, sep)
    ensures RowSoFar(row, i + 1, before, positions[row[i].id := Position(Cursor(row, i, x0, sep), y)], x0, y, sep)
  {
    RowIdsSnoc(row, i);
    if UniqueNodes(row) { PlacedNext(row, i, positions, x0, y, sep); }
    KeptNext(before, positions, RowIds(row[..i]), row[i].id, Position(Cursor(row, i, x0, sep), y));
  }

  lemma KeptNext(before: map<string, Position>, sofar: map<string, Position>, except: set<string>, id: string,
                 p: Position)
    requires Kept(before, sofar, except)
    ensures Kept(before, sofar[id := p], except + {id})
  {
  }

  /** The first n boxes of the row stand at their cursor positions. */
  ghost predicate Placed(row: seq<Node>, n: nat, positions: map<string, Position>, x0: real, y: real, sep: real)
    requires n <= |row|
  {
    forall k :: 0 <= k < n ==> StandsAt(row, k, positions, x0, y, sep)
  }

  ghost predicate StandsAt(row: seq<Node>, k: nat, positions: map<string, Position>, x0: real, y: real, sep: real)
    requires k < |row|
  {
    row[k].id in positions && positions[row[k].id] == Position(Cursor(row, k, x0, sep), y)
  }

  ghost predicate UniqueNodes(nodes: seq<Node>) {
    forall i, j :: 0 <= i < j < |nodes| ==> nodes[i].id != nodes[j].id
  }

  lemma {:induction false} CursorGrows(row: seq<Node>, i: nat, j: nat, x0: real, sep: real)
    requires i < j <= |row| && sep >= 0.0 && forall k :: 0 <= k < |row| ==> row[k].width >= 0.0
    ensures Cursor(row, i, x0, sep) + row[i].width + sep <= Cursor(row, j, x0, sep)
    decreases j
  {
    if i + 1 < j { CursorGrows(row, i, j - 1, x0, sep); }
  }

  // ----- bands -----

  const TIER_ORDER: seq<Kind> := [Instrument, Fixture, Dut]

  /** Height of the tallest box of a row. */
  function MaxHeight(row: seq<Node>): (h: real)
    requires row != []
    ensures forall n :: n in row ==> n.height <= h
    ensures exists n :: n in row && n.height == h
  {
    if |row| == 1 then row[0].height
    else var h := MaxHeight(row[..|row| - 1]); if row[|row| - 1].height > h then row[|row| - 1].height else h
  }

  /** y of the i-th band. */
  function BandY(nodes: seq<Node>, opts: LayoutOptions, i: nat): real
    requires i <= 3
  {
    if i == 0 then opts.origin.y
    else
      var row := TierNodes(nodes, TIER_ORDER[i - 1]);
      BandY(nodes, opts, i - 1) + (if row == [] then 0.0 else MaxHeight(row) + opts.rankSep)
  }

  function Row(nodes: seq<Node>, xs: map<string, real>, k: Kind): seq<Node> {
    Sorted(nodes, xs, TierNodes(nodes, k))
  }

  /** The nodes of the first i tiers stand in their rows. */
  ghost predicate TiersPlaced(nodes: seq<Node>, xs: map<string, real>, opts: LayoutOptions,
                              positions: map<string, Position>, i: nat)
    requires i <= 3
  {
    forall t :: 0 <= t < i ==> TierPlaced(nodes, xs, opts, positions, t)
  }

  ghost predicate TierPlaced(nodes: seq<Node>, xs: map<string, real>, opts: LayoutOptions,
                             positions: map<string, Position>, t: nat)
    requires t < 3
  {
    var row := Row(nodes, xs, TIER_ORDER[t]);
    Placed(row, |row|, positions, opts.origin.x, BandY(nodes, opts, t), opts.nodeSep)
  }

  ghost predicate Sane(nodes: seq<Node>, opts: LayoutOptions) {
    opts.nodeSep >= 0.0 && opts.rankSep >= 0.0 && forall n :: n in nodes ==> n.width >= 0.0 && n.height >= 0.0
  }

  lemma {:induction false} UniqueTier(nodes: seq<Node>, k: Kind)
    requires UniqueNodes(nodes)
    ensures UniqueNodes(TierNodes(nodes, k))
  {
    if nodes != [] {
      var init, last := nodes[..|nodes| - 1], nodes[|nodes| - 1];
      UniqueTier(init, k);
      forall n | n in init ensures n.id != last.id {
        var i :| 0 <= i < |nodes| - 1 && nodes[i] == n;
      }
    }
  }

  lemma {:induction false} InsertUnique(nodes: seq<Node>, xs: map<string, real>, n: Node, row: seq<Node>)
    requires Ascending(nodes, xs, row) && UniqueNodes(row) && forall m :: m in row ==> m.id != n.id
    ensures UniqueNodes(Insert(nodes, xs, n, row))
    decreases |row|
  {
    if row != [] && !Before(nodes, xs, n, row[0]) {
      InsertUnique(nodes, xs, n, row[1..]);
      forall m | m in row[1..] ensures m.id != row[0].id {
        var i :| 0 < i < |row| && row[i] == m;
      }
    }
  }

  /** Unique ids stay unique. */
  lemma {:induction false} SortedUnique(nodes: seq<Node>, xs: map<string, real>, row: seq<Node>)
    requires UniqueNodes(row)
    ensures UniqueNodes(Sorted(nodes, xs, row))
  {
    if row != [] {
      var init, last := row[..|row| - 1], row[|row| - 1];
      SortedUnique(nodes, xs, init);
      forall m | m in init ensures m.id != last.id {
        var i :| 0 <= i < |row| - 1 && row[i] == m;
      }
      InsertUnique(nodes, xs, last, Sorted(nodes, xs, init));
    }
  }

  lemma UniqueRow(nodes: seq<Node>, xs: map<string, real>, k: Kind)
    requires UniqueNodes(nodes)
    ensures UniqueNodes(Row(nodes, xs, k))
  {
    UniqueTier(nodes, k);
    SortedUnique(nodes, xs, TierNodes(nodes, k));
  }

  /** Placing the i-th row moves nothing placed before. */
  lemma NextTier(nodes: seq<Node>, xs: map<string, real>, opts: LayoutOptions, before: map<string, Position>,
                 after: map<string, Position>, i: nat)
    requires i < 3 && UniqueNodes(nodes) && TiersPlaced(nodes, xs, opts, before, i)
    requires TierPlaced(nodes, xs, opts, after, i) && Kept(before, after, RowIds(Row(nodes, xs, TIER_ORDER[i])))
    ensures TiersPlaced(nodes, xs, opts, after, i + 1)
  {
    forall t | 0 <= t < i ensures TierPlaced(nodes, xs, opts, after, t) {
      OtherTierKept(nodes, xs, opts, before, after, t, i);
    }
  }

  lemma OtherTierKept(nodes: seq<Node>, xs: map<string, real>, opts: LayoutOptions, before: map<string, Position>,
                      after: map<string, Position>, t: nat, i: nat)
    requires t < i < 3 && UniqueNodes(nodes) && TierPlaced(nodes, xs, opts, before, t)
    requires Kept(before, after, RowIds(Row(nodes, xs, TIER_ORDER[i])))
    ensures TierPlaced(nodes, xs, opts, after, t)
  {
    var r, row := Row(nodes, xs, TIER_ORDER[t]), Row(nodes, xs, TIER_ORDER[i]);
    forall k | 0 <= k < |r|
      ensures StandsAt(r, k, after, opts.origin.x, BandY(nodes, opts, t), opts.nodeSep)
    {
      assert StandsAt(r, k, before, opts.origin.x, BandY(nodes, opts, t), opts.nodeSep);
      OtherRow(nodes, xs, r[k], TIER_ORDER[t], TIER_ORDER[i]);
    }
  }

  lemma OtherRow(nodes: seq<Node>, xs: map<string, real>, n: Node, k: Kind, l: Kind)
    requires UniqueNodes(nodes) && n in Row(nodes, xs, k) && k != l
    ensures n.id !in RowIds(Row(nodes, xs, l))
  {
    forall m | m in Row(nodes, xs, l) ensures m.id != n.id { DifferentIds(nodes, m, n); }
  }

  lemma DifferentIds(nodes: seq<Node>, a: Node, b: Node)
    requires UniqueNodes(nodes) && a in nodes && b in nodes && a != b
    ensures a.id != b.id
  {
  }

  lemma {:induction false} AscendingAt(nodes: seq<Node>, xs: map<string, real>, row: seq<Node>, i: nat, j: nat)
    requires Ascending(nodes, xs, row) && i < j < |row|
    ensures !Before(nodes, xs, row[j], row[i])
    decreases i
  {
    if i == 0 { assert row[j] in row[1..]; } else { AscendingAt(nodes, xs, row[1..], i - 1, j - 1); }
  }

  // ----- the layout -----

  /** Within a tier, boxes follow the sort order left to right with the gap
      between them; across tiers, bands are stacked with theirs. */
  ghost predicate GoodLayout(nodes: seq<Node>, xs: map<string, real>, opts: LayoutOptions,
                             positions: map<string, Position>)
    requires forall n :: n in nodes ==> n.id in positions
  {
    && (forall i, j :: 0 <= i < |nodes| && 0 <= j < |nodes| && nodes[i].kind == nodes[j].kind && LeftOf(nodes, xs, i, j)
          ==> Beside(nodes[i], nodes[j], positions, opts.nodeSep))
    && (forall a, b :: a in nodes && b in nodes && Above(a.kind, b.kind) ==>
          positions[a.id].y + a.height + opts.rankSep <= positions[b.id].y)
  }

  /** Dagre puts the i-th node left of the j-th, or in one place and i is first. */
  ghost predicate LeftOf(nodes: seq<Node>, xs: map<string, real>, i: int, j: int)
    requires 0 <= i < |nodes| && 0 <= j < |nodes|
  {
    var x, y := XOf(xs, nodes[i].id), XOf(xs, nodes[j].id);
    x < y || (x == y && i < j)
  }

  /** On one line, a left of b with at least the gap between. */
  ghost predicate Beside(a: Node, b: Node, positions: map<string, Position>, gap: real)
    requires a.id in positions && b.id in positions
  {
    positions[a.id].y == positions[b.id].y && positions[a.id].x + a.width + gap <= positions[b.id].x
  }

  /** Instruments are on top and DUTs at the bottom. */
  ghost predicate Above(k: Kind, l: Kind) {
    (k == Instrument && l != Instrument) || (k == Fixture && l == Dut)
  }

  lemma OwnIndex(nodes: seq<Node>, i: nat)
    requires UniqueNodes(nodes) && i < |nodes|
    ensures InputIndex(nodes, nodes[i].id) == i
  {
    IndexOfMember(nodes, nodes[i]);
  }

  lemma LeftIsBefore(nodes: seq<Node>, xs: map<string, real>, i: nat, j: nat)
    requires UniqueNodes(nodes) && i < |nodes| && j < |nodes|
    ensures Before(nodes, xs, nodes[i], nodes[j]) <==> LeftOf(nodes, xs, i, j)
  {
    OwnIndex(nodes, i);
    OwnIndex(nodes, j);
  }

  lemma InRow(nodes: seq<Node>, xs: map<string, real>, opts: LayoutOptions, positions: map<string, Position>, n: Node)
    returns (k: nat)
    requires TiersPlaced(nodes, xs, opts, positions, 3) && n in nodes
    ensures var row := Row(nodes, xs, n.kind);
            && k < |row| && row[k] == n && n.id in positions
            && positions[n.id] ==
               Position(Cursor(row, k, opts.origin.x, opts.nodeSep), BandY(nodes, opts, Tier(n.kind)))
  {
    var row := Row(nodes, xs, n.kind);
    assert n in row;
    k :| 0 <= k < |row| && row[k] == n;
    assert TierPlaced(nodes, xs, opts, positions, Tier(n.kind));
    assert TIER_ORDER[Tier(n.kind)] == n.kind;
    assert StandsAt(row, k, positions, opts.origin.x, BandY(nodes, opts, Tier(n.kind)), opts.nodeSep);
  }

  lemma RowOrder(nodes: seq<Node>, xs: map<string, real>, opts: LayoutOptions, positions: map<string, Position>,
                 a: Node, b: Node)
    requires TiersPlaced(nodes, xs, opts, positions, 3) && Sane(nodes, opts)
    requires a in nodes && b in nodes && a.kind == b.kind && Before(nodes, xs, a, b)
    ensures a.id in positions && b.id in positions && positions[a.id].y == positions[b.id].y
    ensures positions[a.id].x + a.width + opts.nodeSep <= positions[b.id].x
  {
    var row := Row(nodes, xs, a.kind);
    var i := InRow(nodes, xs, opts, positions, a);
    var j := InRow(nodes, xs, opts, positions, b);
    InOrder(nodes, xs, row, i, j);
    forall k | 0 <= k < |row| ensures row[k].width >= 0.0 { assert row[k] in row; }
    CursorGrows(row, i, j, opts.origin.x, opts.nodeSep);
  }

  lemma InOrder(nodes: seq<Node>, xs: map<string, real>, row: seq<Node>, i: nat, j: nat)
    requires Ascending(nodes, xs, row) && i < |row| && j < |row| && Before(nodes, xs, row[i], row[j])
    ensures i < j
  {
    if j < i { AscendingAt(nodes, xs, row, j, i); }
  }

  lemma BandOrder(nodes: seq<Node>, opts: LayoutOptions, n: Node, i: nat)
    requires Sane(nodes, opts) && n in nodes && Tier(n.kind) < i <= 3
    ensures BandY(nodes, opts, Tier(n.kind)) + n.height + opts.rankSep <= BandY(nodes, opts, i)
    decreases i
  {
    var row := TierNodes(nodes, TIER_ORDER[i - 1]);
    if Tier(n.kind) + 1 == i {
      assert TIER_ORDER[i - 1] == n.kind;
      assert n in row;
    } else {
      BandOrder(nodes, opts, n, i - 1);
      if row != [] { assert row[0] in row; }
    }
  }

  lemma PlacedIsGood(nodes: seq<Node>, xs: map<string, real>, opts: LayoutOptions, positions: map<string, Position>)
    requires UniqueNodes(nodes) && TiersPlaced(nodes, xs, opts, positions, 3) && Sane(nodes, opts)
    ensures forall n :: n in nodes ==> n.id in positions
    ensures GoodLayout(nodes, xs, opts, positions)
  {
    forall n | n in nodes ensures n.id in positions { var k := InRow(nodes, xs, opts, positions, n); }
    forall i, j | 0 <= i < |nodes| && 0 <= j < |nodes| && nodes[i].kind == nodes[j].kind && LeftOf(nodes, xs, i, j)
      ensures Beside(nodes[i], nodes[j], positions, opts.nodeSep)
    {
      LeftIsBefore(nodes, xs, i, j);
      RowOrder(nodes, xs, opts, positions, nodes[i], nodes[j]);
    }
    forall a, b | a in nodes && b in nodes && Above(a.kind, b.kind)
      ensures positions[a.id].y + a.height + opts.rankSep <= positions[b.id].y
    {
      var i := InRow(nodes, xs, opts, positions, a);
      var j := InRow(nodes, xs, opts, positions, b);
      BandOrder(nodes, opts, a, Tier(b.kind));
    }
  }

  /** Ids of the nodes of the first i tiers. */
  ghost function TierIds(nodes: seq<Node>, i: nat): set<string> {
    set n | n in nodes && Tier(n.kind) < i :: n.id
  }

  lemma TierIdsSnoc(nodes: seq<Node>, xs: map<string, real>, i: nat)
    requires i < 3
    ensures TierIds(nodes, i + 1) == TierIds(nodes, i) + RowIds(Row(nodes, xs, TIER_ORDER[i]))
  {
    var row := Row(nodes, xs, TIER_ORDER[i]);
    assert forall n :: n in row <==> n in nodes && Tier(n.kind) == i;
  }

  lemma AllTiers(nodes: seq<Node>)
    ensures TierIds(nodes, 3) == RowIds(nodes)
  {
  }

  /** The whole layout. What dagre computes from the ranked edges is a
      parameter; only the x values it gives the nodes are used. */
  method ComputeFixtureTierLayout(nodes: seq<Node>, links: seq<Link>, dagre: seq<(string, string)> -> map<string, real>,
                                  opts: LayoutOptions := DEFAULT_OPTIONS)
    returns (positions: map<string, Position>, edges: seq<(string, string)>)
    ensures Acyclic(set e | e in edges) && (set e | e in edges) == Downward(links, TierMap(nodes))
    ensures positions.Keys == RowIds(nodes)
    ensures UniqueNodes(nodes) ==> TiersPlaced(nodes, dagre(edges), opts, positions, 3)
    ensures UniqueNodes(nodes) && Sane(nodes, opts) ==> GoodLayout(nodes, dagre(edges), opts, positions)
  {
    edges := RankEdges(nodes, links);
    positions := StackBands(nodes, dagre(edges), opts);
    if UniqueNodes(nodes) && Sane(nodes, opts) { PlacedIsGood(nodes, dagre(edges), opts, positions); }
  }

  method StackBands(nodes: seq<Node>, xs: map<string, real>, opts: LayoutOptions)
    returns (positions: map<string, Position>)
    ensures positions.Keys == RowIds(nodes)
    ensures UniqueNodes(nodes) ==> TiersPlaced(nodes, xs, opts, positions, 3)
  {
    positions := map[];
    var bandY := opts.origin.y;
    for i := 0 to 3
      invariant bandY == BandY(nodes, opts, i)
      invariant positions.Keys == TierIds(nodes, i)
      invariant UniqueNodes(nodes) ==> TiersPlaced(nodes, xs, opts, positions, i)
    {
      positions := PlaceTier(nodes, xs, opts, bandY, positions, i);
      bandY := NextBandY(nodes, opts, bandY, i);
    }
    AllTiers(nodes);
  }

  /** The end of a pass: the next band lies below the tallest box of this one. */
  method NextBandY(nodes: seq<Node>, opts: LayoutOptions, bandY: real, i: nat) returns (nextY: real)
    requires i < 3 && bandY == BandY(nodes, opts, i)
    ensures nextY == BandY(nodes, opts, i + 1)
  {
    nextY := bandY;
    var tierNodes := TierNodes(nodes, TIER_ORDER[i]);
    if tierNodes != [] {
      nextY := bandY + (MaxHeight(tierNodes) + opts.rankSep);
    }
  }

  /** One pass of the band loop; an empty tier is skipped. */
  method PlaceTier(nodes: seq<Node>, xs: map<string, real>, opts: LayoutOptions, bandY: real,
                   before: map<string, Position>, i: nat)
    returns (positions: map<string, Position>)
    requires i < 3 && bandY == BandY(nodes, opts, i) && before.Keys == TierIds(nodes, i)
    ensures positions.Keys == TierIds(nodes, i + 1)
    ensures UniqueNodes(nodes) && TiersPlaced(nodes, xs, opts, before, i) ==>
      TiersPlaced(nodes, xs, opts, positions, i + 1)
  {
    var row := Row(nodes, xs, TIER_ORDER[i]);
    positions := before;
    if row != [] {
      positions := PlaceRow(row, opts.origin.x, bandY, opts.nodeSep, before);
    }
    TierIdsSnoc(nodes, xs, i);
    if UniqueNodes(nodes) && TiersPlaced(nodes, xs, opts, before, i) {
      UniqueRow(nodes, xs, TIER_ORDER[i]);
      NextTier(nodes, xs, opts, before, positions, i);
    }
  }

  /** No two boxes overlap. */
  lemma NoOverlap(nodes: seq<Node>, xs: map<string, real>, opts: LayoutOptions, positions: map<string, Position>,
                  a: Node, b: Node)
    requires UniqueNodes(nodes) && Sane(nodes, opts) && (forall n :: n in nodes ==> n.id in positions)
    requires GoodLayout(nodes, xs, opts, positions) && a in nodes && b in nodes && a != b
    ensures var p, q := positions[a.id], positions[b.id];
            p.x + a.width <= q.x || q.x + b.width <= p.x || p.y + a.height <= q.y || q.y + b.height <= p.y
  {
    if a.kind == b.kind {
      var i :| 0 <= i < |nodes| && nodes[i] == a;
      var j :| 0 <= j < |nodes| && nodes[j] == b;
      assert LeftOf(nodes, xs, i, j) || LeftOf(nodes, xs, j, i);
    }
  }

  // ----- nothing is wasted -----

  /** Each row starts at the origin's x, and each box where the one before it and
      the gap end. */
  lemma RowsArePacked(nodes: seq<Node>, xs: map<string, real>, opts: LayoutOptions, positions: map<string, Position>,
                      k: Kind, i: nat)
    requires TiersPlaced(nodes, xs, opts, positions, 3) && i < |Row(nodes, xs, k)|
    ensures var row := Row(nodes, xs, k); row[i].id in positions && (i > 0 ==> row[i - 1].id in positions)
    ensures var row := Row(nodes, xs, k);
      positions[row[i].id].x
        == if i == 0 then opts.origin.x else positions[row[i - 1].id].x + row[i - 1].width + opts.nodeSep
  {
    var row := Row(nodes, xs, k);
    assert TierPlaced(nodes, xs, opts, positions, Tier(k)) && TIER_ORDER[Tier(k)] == k;
    var y := BandY(nodes, opts, Tier(k));
    assert StandsAt(row, i, positions, opts.origin.x, y, opts.nodeSep);
    if i > 0 { assert StandsAt(row, i - 1, positions, opts.origin.x, y, opts.nodeSep); }
  }

  /** The box no other box of its kind is higher than. */
  ghost predicate Tallest(nodes: seq<Node>, n: Node) {
    n in nodes && forall m :: m in nodes && m.kind == n.kind ==> m.height <= n.height
  }

  ghost predicate NoneAbove(nodes: seq<Node>, k: Kind) {
    forall n :: n in nodes ==> !Above(n.kind, k)
  }

  ghost predicate NoneBetween(nodes: seq<Node>, k: Kind, l: Kind) {
    forall n :: n in nodes ==> !(Above(k, n.kind) && Above(n.kind, l))
  }

  /** The first band starts at the origin's y, and each band where the tallest
      box of the band before it and the gap end. */
  lemma BandsArePacked(nodes: seq<Node>, xs: map<string, real>, opts: LayoutOptions, positions: map<string, Position>,
                       a: Node, b: Node)
    requires TiersPlaced(nodes, xs, opts, positions, 3) && a in nodes && b in nodes
    ensures a.id in positions && b.id in positions
    ensures NoneAbove(nodes, a.kind) ==> positions[a.id].y == opts.origin.y
    ensures Tallest(nodes, a) && Above(a.kind, b.kind) && NoneBetween(nodes, a.kind, b.kind) ==>
      positions[b.id].y == positions[a.id].y + a.height + opts.rankSep
  {
    var i := InRow(nodes, xs, opts, positions, a);
    var j := InRow(nodes, xs, opts, positions, b);
    if NoneAbove(nodes, a.kind) { TopBand(nodes, opts, Tier(a.kind)); }
    if Tallest(nodes, a) && Above(a.kind, b.kind) && NoneBetween(nodes, a.kind, b.kind) {
      NextBand(nodes, opts, a, Tier(b.kind));
    }
  }

  lemma EmptyTier(nodes: seq<Node>, i: nat)
    requires i < 3
    ensures TierNodes(nodes, TIER_ORDER[i]) == [] || exists n :: n in nodes && n.kind == TIER_ORDER[i]
  {
    var row := TierNodes(nodes, TIER_ORDER[i]);
    assert row == [] || row[0] in row;
  }

  lemma {:induction false} TopBand(nodes: seq<Node>, opts: LayoutOptions, i: nat)
    requires i < 3 && NoneAbove(nodes, TIER_ORDER[i])
    ensures BandY(nodes, opts, i) == opts.origin.y
  {
    if i > 0 {
      assert Above(TIER_ORDER[i - 1], TIER_ORDER[i]);
      EmptyTier(nodes, i - 1);
      TopBand(nodes, opts, i - 1);
    }
  }

  lemma {:induction false} NextBand(nodes: seq<Node>, opts: LayoutOptions, a: Node, j: nat)
    requires j < 3 && Tallest(nodes, a) && Above(a.kind, TIER_ORDER[j]) && NoneBetween(nodes, a.kind, TIER_ORDER[j])
    ensures BandY(nodes, opts, j) == BandY(nodes, opts, Tier(a.kind)) + a.height + opts.rankSep
    decreases j
  {
    var row := TierNodes(nodes, TIER_ORDER[j - 1]);
    if Tier(a.kind) + 1 == j {
      assert TIER_ORDER[j - 1] == a.kind && a in row;
      assert MaxHeight(row) == a.height;
    } else {
      assert Above(a.kind, TIER_ORDER[j - 1]) && Above(TIER_ORDER[j - 1], TIER_ORDER[j]);
      EmptyTier(nodes, j - 1);
      NextBand(nodes, opts, a, j - 1);
    }
  }

  /** Unless told otherwise the block starts at (40, 40), with gaps of 60 between
      boxes and 80 between bands. */
  lemma DefaultGaps(nodes: seq<Node>, xs: map<string, real>, positions: map<string, Position>, i: nat, j: nat)
    requires i < |nodes| && j < |nodes| && (forall n :: n in nodes ==> n.id in positions)
    requires UniqueNodes(nodes) && TiersPlaced(nodes, xs, DEFAULT_OPTIONS, positions, 3)
    requires Sane(nodes, DEFAULT_OPTIONS)
    ensures NoneAbove(nodes, nodes[i].kind) ==> positions[nodes[i].id].y == 40.0
    ensures positions[nodes[i].id].x >= 40.0
    ensures nodes[i].kind == nodes[j].kind && LeftOf(nodes, xs, i, j) ==> Beside(nodes[i], nodes[j], positions, 60.0)
    ensures Above(nodes[i].kind, nodes[j].kind) ==>
      positions[nodes[i].id].y + nodes[i].height + 80.0 <= positions[nodes[j].id].y
  {
    PlacedIsGood(nodes, xs, DEFAULT_OPTIONS, positions);
    BandsArePacked(nodes, xs, DEFAULT_OPTIONS, positions, nodes[i], nodes[i]);
    var k := InRow(nodes, xs, DEFAULT_OPTIONS, positions, nodes[i]);
    var row := Row(nodes, xs, nodes[i].kind);
    forall m | 0 <= m < |row| ensures row[m].width >= 0.0 { assert row[m] in row; }
    if k > 0 { CursorGrows(row, 0, k, 40.0, 60.0); }
  }

  // ----- the edges handed to dagre, without tier numbers -----

  lemma {:induction false} TierMapIs(nodes: seq<Node>, n: Node)
    requires UniqueNodes(nodes) && n in nodes
    ensures n.id in TierMap(nodes) && TierMap(nodes)[n.id] == Tier(n.kind)
  {
    var init, last := nodes[..|nodes| - 1], nodes[|nodes| - 1];
    if n != last {
      var i :| 0 <= i < |nodes| - 1 && nodes[i] == n;
      assert init[i] == n;
      TierMapIs(init, n);
    }
  }

  lemma HigherTier(k: Kind, l: Kind)
    ensures Tier(k) < Tier(l) <==> Above(k, l)
  {
  }

  /** Dagre gets an edge from each node to each node of a lower band it is linked
      to, whichever way the link runs, and no other. */
  lemma EdgesRunDown(nodes: seq<Node>, links: seq<Link>, a: Node, b: Node)
    requires UniqueNodes(nodes) && a in nodes && b in nodes
    ensures (a.id, b.id) in Downward(links, TierMap(nodes)) <==>
      Above(a.kind, b.kind) && (Link(a.id, b.id) in links || Link(b.id, a.id) in links)
  {
    TierMapIs(nodes, a);
    TierMapIs(nodes, b);
    HigherTier(a.kind, b.kind);
    var D := Downward(links, TierMap(nodes));
    if Above(a.kind, b.kind) && Link(a.id, b.id) in links {
      var e := Link(a.id, b.id);
      assert e in links;
    }
    if Above(a.kind, b.kind) && Link(b.id, a.id) in links {
      var e := Link(b.id, a.id);
      assert e in links;
    }
  }

  lemma {:induction false} IndexOfMember(nodes: seq<Node>, n: Node)
    requires n in nodes
    ensures 0 <= InputIndex(nodes, n.id) < |nodes| && nodes[InputIndex(nodes, n.id)].id == n.id
  {
    var last := nodes[|nodes| - 1];
    if last.id != n.id {
      var i :| 0 <= i < |nodes| && nodes[i] == n;
      assert nodes[..|nodes| - 1][i] == n;
      IndexOfMember(nodes[..|nodes| - 1], n);
    }
  }
}
