/** The editor's cycle check: the search on the UI thread, the worker's search
    with paths, connection validation, and every history of edits. */
module DependencyCheck {
  import opened Graphs
  import opened Options

  /** An edge of the canvas; an end that is not attached yet is empty. */
  datatype GraphEdge = GraphEdge(source: string, target: string)

  /** The X6 graph: node ids, edges, and the parent of each contained node. */
  datatype Graph = Graph(nodes: seq<string>, edges: seq<GraphEdge>, parent: map<string, string>)

  /** Neighbour sets keep insertion order, as JavaScript sets do. */
  type Adjacency = map<string, seq<string>>

  ghost function AdjacencyEdges(adj: Adjacency): Edges {
    set a, b | a in adj && b in adj[a] :: (a, b)
  }

  /** The edges the check can see: both ends attached, starting at a node. */
  ghost function VisibleEdges(nodes: seq<string>, edges: seq<GraphEdge>): Edges {
    set e | e in edges && e.source != "" && e.target != "" && e.source in nodes :: (e.source, e.target)
  }

  // ----- adjacency lists -----

  method InitAdjacency(nodes: seq<string>) returns (adj: Adjacency)
    ensures adj.Keys == set n | n in nodes
    ensures forall n :: n in adj ==> adj[n] == []
  {
    adj := map[];
    for i := 0 to |nodes|
      invariant adj.Keys == set n | n in nodes[..i]
      invariant forall n :: n in adj ==> adj[n] == []
    {
      adj := adj[nodes[i] := []];
    }
    assert nodes[..|nodes|] == nodes;
  }

  method AddNeighbour(adj0: Adjacency, source: string, target: string) returns (adj: Adjacency)
    ensures adj.Keys == adj0.Keys
    ensures AdjacencyEdges(adj) == AdjacencyEdges(adj0) + (if source in adj0 then {(source, target)} else {})
  {
    adj := adj0;
    if source in adj && target !in adj[source] {
      adj := adj[source := adj[source] + [target]];
    }
  }

  /** Used by both routes: the worker receives only edges with both ends attached. */
  method BuildAdjacency(nodes: seq<string>, edges: seq<GraphEdge>) returns (adj: Adjacency)
    ensures AdjacencyEdges(adj) == VisibleEdges(nodes, edges)
  {
    adj := InitAdjacency(nodes);
    for i := 0 to |edges|
      invariant adj.Keys == set n | n in nodes
      invariant AdjacencyEdges(adj) == VisibleEdges(nodes, edges[..i])
    {
      var e := edges[i];
      assert edges[..i + 1] == edges[..i] + [e];
      VisibleSnoc(nodes, edges[..i], e);
      if e.source != "" && e.target != "" {
        adj := AddNeighbour(adj, e.source, e.target);
      }
    }
    assert edges[..|edges|] == edges;
  }

  lemma VisibleSnoc(nodes: seq<string>, edges: seq<GraphEdge>, e: GraphEdge)
    ensures VisibleEdges(nodes, edges + [e]) == VisibleEdges(nodes, edges)
      + (if e.source != "" && e.target != "" && e.source in nodes then {(e.source, e.target)} else {})
  {
    assert e in edges + [e];
    assert forall d :: d in edges ==> d in edges + [e];
  }

  // ----- depth-first search -----

  ghost function Universe(adj: Adjacency, start: string): set<string> {
    {start} + set a, b | a in adj && b in adj[a] :: b
  }

  /** Everything visited leads only to what is visited or still on the stack. */
  ghost predicate Frontier(adj: Adjacency, visited: set<string>, stack: seq<string>) {
    forall a, b :: a in visited && (a, b) in AdjacencyEdges(adj) ==> b in visited || b in stack
  }

  lemma ExploredAll(adj: Adjacency, start: string, end: string, visited: set<string>)
    requires start in visited && end !in visited && Frontier(adj, visited, [])
    ensures !Reach(AdjacencyEdges(adj), start, end)
  {
    forall p ensures !PathBetween(AdjacencyEdges(adj), p, start, end) {
      if PathBetween(AdjacencyEdges(adj), p, start, end) {
        ClosedUnderPath(AdjacencyEdges(adj), visited, p);
      }
    }
  }

  /** The stack after pushing the neighbours that are not visited yet. */
  function Unvisited(neighbours: seq<string>, visited: set<string>): seq<string> {
    if neighbours == [] then []
    else var n := neighbours[|neighbours| - 1];
         Unvisited(neighbours[..|neighbours| - 1], visited) + (if n in visited then [] else [n])
  }

  lemma {:induction false} UnvisitedMember(neighbours: seq<string>, visited: set<string>)
    ensures forall n :: n in Unvisited(neighbours, visited) <==> n in neighbours && n !in visited
  {
    if neighbours != [] { UnvisitedMember(neighbours[..|neighbours| - 1], visited); }
  }

  method PushUnvisited(stack0: seq<string>, neighbours: seq<string>, visited: set<string>) returns (stack: seq<string>)
    ensures stack == stack0 + Unvisited(neighbours, visited)
  {
    stack := stack0;
    for i := 0 to |neighbours|
      invariant stack == stack0 + Unvisited(neighbours[..i], visited)
    {
      assert neighbours[..i + 1][..i] == neighbours[..i];
      if neighbours[i] !in visited {
        stack := stack + [neighbours[i]];
      }
    }
    assert neighbours[..|neighbours|] == neighbours;
  }

  lemma FrontierStep(adj: Adjacency, visited: set<string>, rest: seq<string>, current: string)
    requires Frontier(adj, visited, rest + [current])
    ensures current in visited ==> Frontier(adj, visited, rest)
    ensures Frontier(adj, visited + {current},
                     rest + Unvisited(if current in adj then adj[current] else [], visited + {current}))
  {
    var seen := visited + {current};
    UnvisitedMember(if current in adj then adj[current] else [], seen);
  }

  lemma ReachNext(adj: Adjacency, start: string, current: string, b: string)
    requires Reach(AdjacencyEdges(adj), start, current) && current in adj && b in adj[current]
    ensures Reach(AdjacencyEdges(adj), start, b) && b in Universe(adj, start)
  {
    ReachSelf(AdjacencyEdges(adj), b);
    ReachEdge(AdjacencyEdges(adj), current, b, b);
    ReachTrans(AdjacencyEdges(adj), start, current, b);
  }

  /** What the stack of the search holds: reachable nodes of a fixed finite set. */
  ghost predicate Explores(adj: Adjacency, start: string, stack: seq<string>) {
    forall x :: x in stack ==> x in Universe(adj, start) && Reach(AdjacencyEdges(adj), start, x)
  }

  lemma ExploresStep(adj: Adjacency, start: string, rest: seq<string>, current: string, visited: set<string>)
    requires Explores(adj, start, rest + [current])
    ensures Explores(adj, start, rest)
    ensures Explores(adj, start, rest + Unvisited(if current in adj then adj[current] else [], visited))
    ensures current in Universe(adj, start) && Reach(AdjacencyEdges(adj), start, current)
  {
    assert current in rest + [current];
    assert forall x :: x in rest ==> x in rest + [current];
    var added := Unvisited(if current in adj then adj[current] else [], visited);
    UnvisitedMember(if current in adj then adj[current] else [], visited);
    forall x | x in added ensures x in Universe(adj, start) && Reach(AdjacencyEdges(adj), start, x) {
      ReachNext(adj, start, current, x);
    }
  }

  /** The search on the UI thread. */
  method CanReach(adj: Adjacency, start: string, end: string) returns (r: bool)
    ensures r <==> Reach(AdjacencyEdges(adj), start, end)
  {
    var visited, stack := {}, [start];
    ReachSelf(AdjacencyEdges(adj), start);
    while |stack| > 0
      invariant start in visited || start in stack
      invariant end !in visited && visited <= Universe(adj, start)
      invariant Explores(adj, start, stack)
      invariant Frontier(adj, visited, stack)
      decreases Universe(adj, start) - visited, |stack|
    {
      var current, rest := stack[|stack| - 1], stack[..|stack| - 1];
      assert stack == rest + [current];
      ExploresStep(adj, start, rest, current, visited + {current});
      FrontierStep(adj, visited, rest, current);
      stack := rest;
      if current == end {
        return true;
      }
      if current !in visited {
        visited := visited + {current};
        if current in adj {
          stack := PushUnvisited(stack, adj[current], visited);
        } else {
          assert rest + [] == rest;
        }
      }
    }
    ExploredAll(adj, start, end, visited);
    return false;
  }

  // ----- the worker's search -----

  /** Stack entries carry the path that led to them. */
  type Trail = (string, seq<string>)

  function Heads(stack: seq<Trail>): seq<string> {
    seq(|stack|, i requires 0 <= i < |stack| => stack[i].0)
  }

  ghost predicate Trails(adj: Adjacency, start: string, stack: seq<Trail>) {
    forall i :: 0 <= i < |stack| ==> PathBetween(AdjacencyEdges(adj), stack[i].1, start, stack[i].0)
  }

  method PushTrails(stack0: seq<Trail>, path: seq<string>, neighbours: seq<string>, visited: set<string>,
                    ghost adj: Adjacency, ghost start: string, ghost current: string)
    returns (stack: seq<Trail>)
    requires current in adj && adj[current] == neighbours
    requires PathBetween(AdjacencyEdges(adj), path, start, current) && Trails(adj, start, stack0)
    ensures Heads(stack) == Heads(stack0) + Unvisited(neighbours, visited)
    ensures Trails(adj, start, stack)
  {
    stack := stack0;
    for i := 0 to |neighbours|
      invariant Heads(stack) == Heads(stack0) + Unvisited(neighbours[..i], visited)
      invariant Trails(adj, start, stack)
    {
      assert neighbours[..i + 1][..i] == neighbours[..i];
      if neighbours[i] !in visited {
        assert (current, neighbours[i]) in AdjacencyEdges(adj);
        var trail := (neighbours[i], path + [neighbours[i]]);
        assert Heads(stack + [trail]) == Heads(stack) + [neighbours[i]];
        stack := stack + [trail];
      }
    }
    assert neighbours[..|neighbours|] == neighbours;
  }

  method HasPath(adj: Adjacency, start: string, end: string) returns (r: Option<seq<string>>)
    ensures r.Some? ==> PathBetween(AdjacencyEdges(adj), r.value, start, end)
    ensures r.None? ==> !Reach(AdjacencyEdges(adj), start, end)
  {
    var visited, stack := {}, [(start, [start])];
    ReachSelf(AdjacencyEdges(adj), start);
    assert Heads(stack) == [start];
    while |stack| > 0
      invariant start in visited || start in Heads(stack)
      invariant end !in visited && visited <= Universe(adj, start)
      invariant Trails(adj, start, stack)
      invariant Explores(adj, start, Heads(stack))
      invariant Frontier(adj, visited, Heads(stack))
      decreases Universe(adj, start) - visited, |stack|
    {
      var (current, path) := stack[|stack| - 1];
      var rest := stack[..|stack| - 1];
      assert Heads(stack) == Heads(rest) + [current];
      ExploresStep(adj, start, Heads(rest), current, visited + {current});
      FrontierStep(adj, visited, Heads(rest), current);
      stack := rest;
      if current == end {
        return Some(path);
      }
      if current !in visited {
        visited := visited + {current};
        if current in adj {
          stack := PushTrails(stack, path, adj[current], visited, adj, start, current);
        } else {
          assert Heads(rest) + [] == Heads(rest);
        }
      }
    }
    assert Heads(stack) == [];
    ExploredAll(adj, start, end, visited);
    return None;
  }

  /** A proposed edge together with a path back closes a cycle. */
  method CheckCycle(nodes: seq<string>, edges: seq<GraphEdge>, source: string, target: string)
    returns (hasCycle: bool, cyclePath: Option<seq<string>>)
    ensures hasCycle <==> Reach(VisibleEdges(nodes, edges), target, source)
    ensures hasCycle <==> cyclePath.Some?
    ensures hasCycle ==> Cycle(VisibleEdges(nodes, edges) + {(source, target)}, cyclePath.value)
    ensures hasCycle ==>
      PathBetween(VisibleEdges(nodes, edges), cyclePath.value[..|cyclePath.value| - 1], target, source)
  {
    var adj := BuildAdjacency(nodes, edges);
    var path := HasPath(adj, target, source);
    if path.Some? {
      var c := path.value + [target];
      assert c[..|c| - 1] == path.value;
      return true, Some(c);
    }
    return false, None;
  }

  // ----- validation -----

  /** Both nodes lie directly in the given container. */
  predicate IsWithinContainer(g: Graph, source: string, target: string, container: string) {
    source in g.parent && target in g.parent && g.parent[source] == container && g.parent[target] == container
  }

  /** An empty container id means that none was given. */
  predicate Exempt(g: Graph, source: string, target: string, container: string) {
    container != "" && IsWithinContainer(g, source, target, container)
  }

  ghost predicate ClosesCycle(g: Graph, source: string, target: string, container: string) {
    !Exempt(g, source, target, container) && Reach(VisibleEdges(g.nodes, g.edges), target, source)
  }

  method WouldCreateCycle(g: Graph, source: string, target: string, container: string) returns (r: bool)
    ensures r <==> ClosesCycle(g, source, target, container)
  {
    if Exempt(g, source, target, container) {
      return false;
    }
    var adj := BuildAdjacency(g.nodes, g.edges);
    r := CanReach(adj, target, source);
  }

  /** The edges with both ends attached. */
  function AttachedEdges(edges: seq<GraphEdge>): seq<GraphEdge> {
    if edges == [] then []
    else
      var e := edges[|edges| - 1];
      AttachedEdges(edges[..|edges| - 1]) + if e.source != "" && e.target != "" then [e] else []
  }

  lemma {:induction false} AttachedShowsSame(nodes: seq<string>, edges: seq<GraphEdge>)
    ensures VisibleEdges(nodes, AttachedEdges(edges)) == VisibleEdges(nodes, edges)
    ensures forall e :: e in AttachedEdges(edges) <==> e in edges && e.source != "" && e.target != ""
  {
    if edges != [] {
      var init, e := edges[..|edges| - 1], edges[|edges| - 1];
      AttachedShowsSame(nodes, init);
      assert edges == init + [e];
      VisibleSnoc(nodes, init, e);
      VisibleSnoc(nodes, AttachedEdges(init), e);
      assert AttachedEdges(init) + [] == AttachedEdges(init);
    }
  }

  /** The edges posted to the worker show it the same graph. */
  method SerializeEdges(edges: seq<GraphEdge>) returns (attached: seq<GraphEdge>)
    ensures attached == AttachedEdges(edges)
    ensures forall e :: e in attached <==> e in edges && e.source != "" && e.target != ""
    ensures forall nodes :: VisibleEdges(nodes, attached) == VisibleEdges(nodes, edges)
  {
    attached := [];
    for i := 0 to |edges|
      invariant attached == AttachedEdges(edges[..i])
    {
      assert edges[..i + 1][..i] == edges[..i];
      if edges[i].source != "" && edges[i].target != "" {
        attached := attached + [edges[i]];
      }
    }
    assert edges[..|edges|] == edges;
    AttachedShowsSame([], edges);
    forall nodes ensures VisibleEdges(nodes, attached) == VisibleEdges(nodes, edges) {
      AttachedShowsSame(nodes, edges);
    }
  }

  ghost predicate Accepted(g: Graph, source: string, target: string, container: string) {
    source != target && !ClosesCycle(g, source, target, container)
  }

  method ValidateConnection(g: Graph, source: string, target: string, container: string) returns (valid: bool)
    ensures valid <==> Accepted(g, source, target, container)
  {
    if source == target {
      return false;
    }
    var cycle := WouldCreateCycle(g, source, target, container);
    return !cycle;
  }

  // ----- dependency chains -----

  datatype Direction = Upstream | Downstream

  function Oriented(edges: seq<GraphEdge>, direction: Direction): seq<GraphEdge> {
    if direction.Downstream? then edges
    else seq(|edges|, i requires 0 <= i < |edges| => GraphEdge(edges[i].target, edges[i].source))
  }

  /** The edges seen from their targets: both ends attached, ending at a node. */
  ghost function SeenFromTarget(nodes: seq<string>, edges: seq<GraphEdge>): Edges {
    set e | e in edges && e.source != "" && e.target != "" && e.target in nodes :: (e.source, e.target)
  }

  ghost function Reversed(E: Edges): Edges {
    set x | x in E :: (x.1, x.0)
  }

  lemma UpstreamEdges(nodes: seq<string>, edges: seq<GraphEdge>)
    ensures VisibleEdges(nodes, Oriented(edges, Upstream)) == Reversed(SeenFromTarget(nodes, edges))
  {
    var turned := Oriented(edges, Upstream);
    forall x | x in VisibleEdges(nodes, turned) ensures x in Reversed(SeenFromTarget(nodes, edges)) {
      var d :| d in turned && d.source != "" && d.target != "" && d.source in nodes && (d.source, d.target) == x;
      var i :| 0 <= i < |edges| && turned[i] == d;
      assert edges[i] in edges;
      assert (x.1, x.0) in SeenFromTarget(nodes, edges);
    }
    forall x | x in Reversed(SeenFromTarget(nodes, edges)) ensures x in VisibleEdges(nodes, turned) {
      var e :| e in edges && e.source != "" && e.target != "" && e.target in nodes && (e.target, e.source) == x;
      var i :| 0 <= i < |edges| && edges[i] == e;
      assert turned[i] in turned;
    }
  }

  lemma PathReversed(E: Edges, p: seq<string>) returns (q: seq<string>)
    requires Path(E, p)
    ensures PathBetween(Reversed(E), q, p[|p| - 1], p[0])
  {
    q := seq(|p|, i requires 0 <= i < |p| => p[|p| - 1 - i]);
    forall i | 0 <= i < |q| - 1 ensures (q[i], q[i + 1]) in Reversed(E) {
      assert (p[|p| - 2 - i], p[|p| - 2 - i + 1]) in E;
    }
  }

  lemma ReachReversed(E: Edges, a: string, b: string)
    ensures Reach(Reversed(E), a, b) <==> Reach(E, b, a)
  {
    if Reach(Reversed(E), a, b) {
      var p :| PathBetween(Reversed(E), p, a, b);
      var q := PathReversed(Reversed(E), p);
      assert Reversed(Reversed(E)) == E;
    }
    if Reach(E, b, a) {
      var p :| PathBetween(E, p, b, a);
      var q := PathReversed(E, p);
    }
  }

  /** On a graph whose edges join nodes the two directions mirror each other. */
  lemma ChainsMirror(g: Graph)
    requires Attached(g)
    ensures VisibleEdges(g.nodes, g.edges) == SeenFromTarget(g.nodes, g.edges) == EdgePairs(g)
  {
  }

  /** Downstream what the node leads to, upstream what leads to it, the node
      itself excepted. */
  method GetDependencyChain(g: Graph, node: string, direction: Direction) returns (result: set<string>)
    ensures direction.Downstream? ==>
      forall x :: x in result <==> x != node && Reach(VisibleEdges(g.nodes, g.edges), node, x)
    ensures direction.Upstream? ==>
      forall x :: x in result <==> x != node && Reach(SeenFromTarget(g.nodes, g.edges), x, node)
    ensures Attached(g) ==>
      forall x :: x in result <==>
        x != node && if direction.Upstream? then Reach(EdgePairs(g), x, node) else Reach(EdgePairs(g), node, x)
  {
    var adj := BuildAdjacency(g.nodes, Oriented(g.edges, direction));
    var visited, stack := {}, [node];
    ReachSelf(AdjacencyEdges(adj), node);
    while |stack| > 0
      invariant node in visited || node in stack
      invariant visited <= Universe(adj, node)
      invariant forall x :: x in visited ==> Reach(AdjacencyEdges(adj), node, x)
      invariant Explores(adj, node, stack)
      invariant Frontier(adj, visited, stack)
      decreases Universe(adj, node) - visited, |stack|
    {
      var current, rest := stack[|stack| - 1], stack[..|stack| - 1];
      assert stack == rest + [current];
      ExploresStep(adj, node, rest, current, visited + {current});
      FrontierStep(adj, visited, rest, current);
      stack := rest;
      if current !in visited {
        visited := visited + {current};
        if current in adj {
          stack := PushUnvisited(stack, adj[current], visited);
        } else {
          assert rest + [] == rest;
        }
      }
    }
    forall x | x !in visited ensures !Reach(AdjacencyEdges(adj), node, x) {
      ExploredAll(adj, node, x, visited);
    }
    UpstreamEdges(g.nodes, g.edges);
    forall x ensures Reach(Reversed(SeenFromTarget(g.nodes, g.edges)), node, x)
        <==> Reach(SeenFromTarget(g.nodes, g.edges), x, node) {
      ReachReversed(SeenFromTarget(g.nodes, g.edges), node, x);
    }
    if Attached(g) { ChainsMirror(g); }
    return visited - {node};
  }

  // ----- every history of edits -----

  datatype Edit =
    | AddNode(id: string)
    | Connect(source: string, target: string, container: string)
    | RemoveEdge(index: nat)
    | RemoveNode(removed: string)

  function WithoutNode(edges: seq<GraphEdge>, id: string): (r: seq<GraphEdge>)
    ensures forall e :: e in r <==> e in edges && e.source != id && e.target != id
  {
    if edges == [] then []
    else (if edges[0].source == id || edges[0].target == id then [] else [edges[0]]) + WithoutNode(edges[1..], id)
  }

  function NodesWithout(nodes: seq<string>, id: string): (r: seq<string>)
    ensures forall n :: n in r <==> n in nodes && n != id
  {
    if nodes == [] then []
    else (if nodes[0] == id then [] else [nodes[0]]) + NodesWithout(nodes[1..], id)
  }

  /** One edit. A connection joins two existing nodes and is made only when
      validation accepts it; containment does not change. */
  ghost function Apply(g: Graph, edit: Edit): Graph {
    match edit
    case AddNode(id) =>
      if id != "" then g.(nodes := g.nodes + [id]) else g
    case Connect(s, t, c) =>
      if s in g.nodes && t in g.nodes && Accepted(g, s, t, c) then g.(edges := g.edges + [GraphEdge(s, t)]) else g
    case RemoveEdge(i) =>
      if i < |g.edges| then g.(edges := g.edges[..i] + g.edges[i + 1..]) else g
    case RemoveNode(id) =>
      g.(nodes := NodesWithout(g.nodes, id), edges := WithoutNode(g.edges, id))
  }

  /** What each edit leaves: a new node is there; an accepted connection is made
      and a refused one is not; a removed edge is gone, and so is a removed node
      with every edge at it. The rest is as it was. */
  lemma EditOutcome(g: Graph, id: string, s: string, t: string, c: string, i: nat)
    ensures id != "" ==> Apply(g, AddNode(id)) == Graph(g.nodes + [id], g.edges, g.parent)
    ensures s in g.nodes && t in g.nodes ==>
      Apply(g, Connect(s, t, c)).edges == g.edges + if Accepted(g, s, t, c) then [GraphEdge(s, t)] else []
    ensures i < |g.edges| ==> multiset(Apply(g, RemoveEdge(i)).edges) == multiset(g.edges) - multiset{g.edges[i]}
    ensures var h := Apply(g, RemoveNode(id));
      && (forall n :: n in h.nodes <==> n in g.nodes && n != id)
      && (forall e :: e in h.edges <==> e in g.edges && e.source != id && e.target != id)
  {
    if i < |g.edges| { assert g.edges == g.edges[..i] + [g.edges[i]] + g.edges[i + 1..]; }
    assert g.edges + [] == g.edges;
  }

  ghost function Run(g: Graph, history: seq<Edit>): Graph
    decreases |history|
  {
    if history == [] then g else Run(Apply(g, history[0]), history[1..])
  }

  /** Every edge joins two nodes of the graph. */
  ghost predicate Attached(g: Graph) {
    "" !in g.nodes && forall e :: e in g.edges ==> e.source in g.nodes && e.target in g.nodes
  }

  ghost predicate SameContainer(g: Graph, a: string, b: string) {
    a in g.parent && b in g.parent && g.parent[a] == g.parent[b]
  }

  ghost function EdgePairs(g: Graph): Edges {
    set e | e in g.edges :: (e.source, e.target)
  }

  /** The graph without the edges inside one container. */
  ghost function OuterPairs(g: Graph): Edges {
    set e | e in g.edges && !SameContainer(g, e.source, e.target) :: (e.source, e.target)
  }

  lemma AllVisible(g: Graph)
    requires Attached(g)
    ensures VisibleEdges(g.nodes, g.edges) == EdgePairs(g)
  {
  }

  lemma ReachMonotone(E: Edges, F: Edges, a: string, b: string)
    requires E <= F && Reach(E, a, b)
    ensures Reach(F, a, b)
  {
    var p :| PathBetween(E, p, a, b);
    assert PathBetween(F, p, a, b);
  }

  lemma RemovalShrinks(g: Graph, edit: Edit)
    requires Attached(g) && !edit.Connect?
    ensures Attached(Apply(g, edit)) && Apply(g, edit).parent == g.parent
    ensures EdgePairs(Apply(g, edit)) <= EdgePairs(g) && OuterPairs(Apply(g, edit)) <= OuterPairs(g)
  {
  }

  lemma ConnectPairs(g: Graph, s: string, t: string)
    ensures var h := g.(edges := g.edges + [GraphEdge(s, t)]);
            && EdgePairs(h) == EdgePairs(g) + {(s, t)}
            && OuterPairs(h) == OuterPairs(g) + (if SameContainer(g, s, t) then {} else {(s, t)})
  {
    var e := GraphEdge(s, t);
    assert e in g.edges + [e];
    assert forall d :: d in g.edges ==> d in g.edges + [e];
  }

  /** One edit keeps the outer graph acyclic. */
  lemma EditKeepsOuter(g: Graph, edit: Edit)
    requires Attached(g) && Acyclic(OuterPairs(g))
    ensures Attached(Apply(g, edit)) && Acyclic(OuterPairs(Apply(g, edit)))
  {
    if edit.Connect? {
      var s, t := edit.source, edit.target;
      if Apply(g, edit) != g && !SameContainer(g, s, t) {
        ConnectPairs(g, s, t);
        AllVisible(g);
        if Reach(OuterPairs(g), t, s) { ReachMonotone(OuterPairs(g), EdgePairs(g), t, s); }
        AddEdgeAcyclic(OuterPairs(g), s, t);
      } else {
        ConnectPairs(g, s, t);
        assert OuterPairs(Apply(g, edit)) == OuterPairs(g);
      }
    } else {
      RemovalShrinks(g, edit);
      AcyclicSubset(OuterPairs(g), OuterPairs(Apply(g, edit)));
    }
  }

  /** For every history, the graph without edges inside a container stays acyclic. */
  lemma {:induction false} HistoryKeepsOuter(g: Graph, history: seq<Edit>)
    requires Attached(g) && Acyclic(OuterPairs(g))
    ensures Attached(Run(g, history)) && Acyclic(OuterPairs(Run(g, history)))
    decreases |history|
  {
    if history != [] {
      EditKeepsOuter(g, history[0]);
      HistoryKeepsOuter(Apply(g, history[0]), history[1..]);
    }
  }

  /** An accepted connection closes a cycle exactly when it is an exempt pair
      with a path back. */
  lemma ConnectKeepsWholeExactly(g: Graph, s: string, t: string, c: string)
    requires Attached(g) && Acyclic(EdgePairs(g)) && s in g.nodes && t in g.nodes && Accepted(g, s, t, c)
    ensures Acyclic(EdgePairs(Apply(g, Connect(s, t, c)))) <==> !(Exempt(g, s, t, c) && Reach(EdgePairs(g), t, s))
  {
    ConnectPairs(g, s, t);
    AllVisible(g);
    AddEdgeAcyclic(EdgePairs(g), s, t);
  }

  lemma EditKeepsWhole(g: Graph, edit: Edit)
    requires Attached(g) && Acyclic(EdgePairs(g))
    requires edit.Connect? ==> edit.container == ""
    ensures Attached(Apply(g, edit)) && Acyclic(EdgePairs(Apply(g, edit)))
  {
    if edit.Connect? {
      var s, t := edit.source, edit.target;
      if s in g.nodes && t in g.nodes && Accepted(g, s, t, "") { ConnectKeepsWholeExactly(g, s, t, ""); }
    } else {
      RemovalShrinks(g, edit);
      AcyclicSubset(EdgePairs(g), EdgePairs(Apply(g, edit)));
    }
  }

  /** Without container arguments the whole graph stays acyclic. */
  lemma {:induction false} HistoryKeepsWhole(g: Graph, history: seq<Edit>)
    requires Attached(g) && Acyclic(EdgePairs(g))
    requires forall i :: 0 <= i < |history| && history[i].Connect? ==> history[i].container == ""
    ensures Attached(Run(g, history)) && Acyclic(EdgePairs(Run(g, history)))
    decreases |history|
  {
    if history != [] {
      EditKeepsWhole(g, history[0]);
      HistoryKeepsWhole(Apply(g, history[0]), history[1..]);
    }
  }

  /** Inside a container a back edge is accepted: the whole graph may then have a cycle. */
  lemma ContainerAllowsCycle()
    ensures var g := Graph(["a", "b"], [], map["a" := "L", "b" := "L"]);
            !Acyclic(EdgePairs(Run(g, [Connect("a", "b", "L"), Connect("b", "a", "L")])))
  {
    var g := Graph(["a", "b"], [], map["a" := "L", "b" := "L"]);
    var h := [Connect("a", "b", "L"), Connect("b", "a", "L")];
    assert h[1..][1..] == [];
    var g1 := g.(edges := [GraphEdge("a", "b")]);
    var g2 := g.(edges := [GraphEdge("a", "b"), GraphEdge("b", "a")]);
    assert Apply(g, h[0]) == g1 && Apply(g1, h[1]) == g2;
    assert Run(g, h) == g2;
    assert GraphEdge("a", "b") in g2.edges && GraphEdge("b", "a") in g2.edges;
    assert Cycle(EdgePairs(g2), ["a", "b", "a"]);
  }

  // ----- the routed check -----

  const NODE_THRESHOLD := 50

  /** A check as posted to the worker. */
  datatype Request = Request(nodes: seq<string>, edges: seq<GraphEdge>, source: string, target: string)

  function RequestFor(g: Graph, source: string, target: string): Request {
    Request(g.nodes, AttachedEdges(g.edges), source, target)
  }

  /** What the worker will answer. */
  ghost predicate Verdict(r: Request) {
    Reach(VisibleEdges(r.nodes, r.edges), r.target, r.source)
  }

  /** Requests posted and not answered yet, oldest first; the checks whose
      message handler waits; and what each check was told. A reply names no
      request, so every waiting handler takes it. */
  datatype Channel = Channel(posted: seq<Request>, waiting: set<nat>, told: map<nat, bool>)

  function Post(c: Channel, check: nat, r: Request): Channel {
    c.(posted := c.posted + [r], waiting := c.waiting + {check})
  }

  function Dispatch(c: Channel, hasCycle: bool): Channel
    requires c.posted != []
  {
    Channel(c.posted[1..], {}, map k | k in c.waiting + c.told.Keys :: if k in c.waiting then hasCycle else c.told[k])
  }

  /** The worker answers the oldest request. */
  ghost function Reply(c: Channel): Channel
    requires c.posted != []
  {
    Dispatch(c, Verdict(c.posted[0]))
  }

  function PostAll(c: Channel, checks: seq<(nat, Request)>): (r: Channel)
    ensures |r.posted| == |c.posted| + |checks| && (c.posted <= r.posted) && c.waiting <= r.waiting
    decreases |checks|
  {
    if checks == [] then c else PostAll(Post(c, checks[0].0, checks[0].1), checks[1..])
  }

  /** The worker and the handlers that listen to it. */
  class CheckWorker {
    var posted: seq<Request>
    var waiting: set<nat>
    var told: map<nat, bool>

    ghost function View(): Channel
      reads this
    {
      Channel(posted, waiting, told)
    }

    constructor ()
      ensures View() == Channel([], {}, map[])
    {
      posted, waiting, told := [], {}, map[];
    }

    /** The check up to the point where it waits: the answer if it needs no worker. */
    method Start(check: nat, g: Graph, source: string, target: string, container: string)
      returns (answer: Option<bool>)
      modifies this
      ensures answer.None? <==> !Exempt(g, source, target, container) && |g.nodes| > 50
      ensures answer.Some? ==> (answer.value <==> ClosesCycle(g, source, target, container)) && View() == old(View())
      ensures answer.None? ==> View() == Post(old(View()), check, RequestFor(g, source, target))
    {
      if Exempt(g, source, target, container) {
        return Some(false);
      }
      if |g.nodes| <= NODE_THRESHOLD {
        var cycle := WouldCreateCycle(g, source, target, container);
        return Some(cycle);
      }
      var attached := SerializeEdges(g.edges);
      posted, waiting := posted + [Request(g.nodes, attached, source, target)], waiting + {check};
      return None;
    }

    /** The worker runs its oldest request and posts the result. */
    method ReplyToOldest()
      requires posted != []
      modifies this
      ensures View() == Reply(old(View()))
    {
      var r := posted[0];
      var hasCycle, _ := CheckCycle(r.nodes, r.edges, r.source, r.target);
      told := map k | k in waiting + told.Keys :: if k in waiting then hasCycle else told[k];
      posted, waiting := posted[1..], {};
    }
  }

  /** When the routed check tells the truth, on any state of the channel. */
  ghost predicate Reliable(c: Channel, g: Graph, source: string, target: string, container: string) {
    || Exempt(g, source, target, container)
    || |g.nodes| <= 50
    || c.posted == []
    || (Verdict(c.posted[0]) <==> Reach(VisibleEdges(g.nodes, g.edges), target, source))
  }

  /** A check that goes to the worker is told the verdict of the oldest request
      outstanding when it was posted, whatever is posted after it: right exactly
      when nothing was outstanding or the two verdicts agree. */
  lemma ToldOldestVerdict(c: Channel, check: nat, g: Graph, source: string, target: string, container: string,
                          later: seq<(nat, Request)>)
    requires !Exempt(g, source, target, container) && |g.nodes| > 50
    ensures var r := Reply(PostAll(Post(c, check, RequestFor(g, source, target)), later));
      && check in r.told
      && ((r.told[check] <==> ClosesCycle(g, source, target, container)) <==> Reliable(c, g, source, target, container))
  {
    var request := RequestFor(g, source, target);
    var d := Post(c, check, request);
    AttachedShowsSame(g.nodes, g.edges);
    assert d.posted[0] == if c.posted == [] then request else c.posted[0];
    assert PostAll(d, later).posted[0] == d.posted[0];
    assert check in PostAll(d, later).waiting;
  }

  /** The whole check: routed, posted if need be, and awaited. */
  method WouldCreateCycleAsync(worker: CheckWorker, check: nat, g: Graph, source: string, target: string,
                               container: string)
    returns (r: bool)
    modifies worker
    ensures (r <==> ClosesCycle(g, source, target, container))
       <==> old(Reliable(worker.View(), g, source, target, container))
  {
    ghost var before := worker.View();
    var answer := worker.Start(check, g, source, target, container);
    if answer.Some? {
      return answer.value;
    }
    ToldOldestVerdict(before, check, g, source, target, container, []);
    worker.ReplyToOldest();
    return worker.told[check];
  }

  /** Ids n, nn, nnn and so on. */
  function Named(i: nat): string {
    seq(i + 1, _ => 'n')
  }

  /** The next reply tells the check that there is no cycle. */
  ghost predicate ToldHarmless(c: Channel, check: nat) {
    c.posted != [] && check in Reply(c).told && !Reply(c).told[check]
  }

  /** It can be wrong: on a large graph an edge that closes a cycle is told that
      it does not, because a harmless one is still being checked. */
  lemma CycleToldHarmless()
    ensures exists g, s, t, u, v ::
      && Attached(g) && Acyclic(EdgePairs(g)) && |g.nodes| > 50 && ClosesCycle(g, s, t, "")
      && ToldHarmless(Post(Post(Channel([], {}, map[]), 0, RequestFor(g, u, v)), 1, RequestFor(g, s, t)), 1)
  {
    var nodes := seq(51, (i: nat) => Named(i));
    var a, b := Named(0), Named(1);
    var g := Graph(nodes, [GraphEdge(a, b)], map[]);
    assert a == nodes[0] && b == nodes[1] && |a| != |b|;
    assert EdgePairs(g) == {(a, b)};
    RankedAcyclic({(a, b)}, map[a := 0, b := 1]);
    AllVisible(g);
    assert Reach(EdgePairs(g), a, b) by { assert PathBetween(EdgePairs(g), [a, b], a, b); }
    var c := Post(Channel([], {}, map[]), 0, RequestFor(g, Named(2), Named(3)));
    assert |Named(2)| != |Named(3)| && |Named(3)| != |a|;
    Unreached(EdgePairs(g), Named(3), Named(2));
    AttachedShowsSame(g.nodes, g.edges);
    ToldOldestVerdict(c, 1, g, b, a, "", []);
    assert ToldHarmless(PostAll(Post(c, 1, RequestFor(g, b, a)), []), 1);
  }
}
