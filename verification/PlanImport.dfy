/** Importing a plan into the editor graph: one node per step and per loop at
    every depth, the edges of loop bodies, and the top-level wiring. */
module PlanImport {
  import opened Graphs
  import opened Plans
  import opened StepSort
  import opened PlanWiring

  datatype Kind = StepNode | LoopNode | VariablesNode
  datatype Node = Node(id: string, kind: Kind)

  /** Nodes and edges of loop bodies, or the nesting error. */
  datatype Result = Success(nodes: seq<Node>, edges: seq<Edge>) | DepthExceeded

  datatype ImportResult =
    | Imported(nodes: seq<Node>, childEdges: seq<Edge>, topEdges: seq<Edge>)
    | Rejected

  const MAX_LOOP_DEPTH: nat := 5

  // ----- what a plan contains -----

  /** The ids strictly below an entry. */
  ghost function NestedIds(e: Entry): set<string> {
    match e
    case Loop(_, body) => DeepIds(body)
    case _ => {}
  }

  /** The ids of these entries and of everything below them. */
  ghost function DeepIds(steps: seq<Entry>): set<string> {
    if steps == [] then {}
    else {steps[0].id} + NestedIds(steps[0]) + DeepIds(steps[1..])
  }

  ghost predicate UniqueEntry(e: Entry) {
    match e
    case Loop(id, body) => id !in DeepIds(body) && UniquePlan(body)
    case _ => true
  }

  /** Every id of the plan, at any depth, is used once. */
  ghost predicate UniquePlan(steps: seq<Entry>) {
    steps != [] ==>
      && UniqueEntry(steps[0])
      && ({steps[0].id} + NestedIds(steps[0])) !! DeepIds(steps[1..])
      && UniquePlan(steps[1..])
  }

  /** How often node n is owed for an entry: for itself and for everything below it. */
  ghost function EntryNodes(e: Entry, n: Node): nat {
    match e
    case Step(id, _) => if n == Node(id, StepNode) then 1 else 0
    case Loop(id, body) => (if n == Node(id, LoopNode) then 1 else 0) + PlanNodes(body, n)
    case Other(_) => 0
  }

  ghost function PlanNodes(steps: seq<Entry>, n: Node): nat {
    if steps == [] then 0 else EntryNodes(steps[0], n) + PlanNodes(steps[1..], n)
  }

  /** Some loop body that is not empty lies inside n nested loops. */
  ghost predicate BodyAtDepth(steps: seq<Entry>, n: nat) {
    exists i :: 0 <= i < |steps| && EntryBodyAtDepth(steps[i], n)
  }

  ghost predicate EntryBodyAtDepth(e: Entry, n: nat) {
    match e
    case Loop(_, body) => body != [] && (n <= 1 || BodyAtDepth(body, n - 1))
    case _ => false
  }

  /** The precondition pairs of every step at or below an entry. */
  ghost function EntryPreconditions(e: Entry): Edges {
    match e
    case Loop(_, body) => DeepPreconditions(body)
    case _ => PreconditionPairs([e])
  }

  ghost function DeepPreconditions(steps: seq<Entry>): Edges {
    if steps == [] then {} else EntryPreconditions(steps[0]) + DeepPreconditions(steps[1..])
  }

  // ----- facts about plans -----

  lemma {:induction false} DeepIdsMember(steps: seq<Entry>, e: Entry)
    requires e in steps
    ensures e.id in DeepIds(steps) && NestedIds(e) <= DeepIds(steps)
  {
    if e != steps[0] { DeepIdsMember(steps[1..], e); }
  }

  /** What uniqueness of the whole plan gives at this level. */
  lemma {:induction false} UniqueLevel(steps: seq<Entry>)
    requires UniquePlan(steps)
    ensures UniqueIds(steps)
    ensures forall e :: e in steps ==> UniqueEntry(e)
    ensures forall e, d :: e in steps && d in steps ==> d.id !in NestedIds(e)
  {
    if steps != [] {
      UniqueLevel(steps[1..]);
      forall e | e in steps[1..]
        ensures e.id != steps[0].id && e.id !in NestedIds(steps[0]) && steps[0].id !in NestedIds(e) {
        DeepIdsMember(steps[1..], e);
      }
      forall i, j | 0 <= i < j < |steps| ensures steps[i].id != steps[j].id {
        if i == 0 { assert steps[j] in steps[1..]; } else { assert steps[1..][i - 1].id != steps[1..][j - 1].id; }
      }
    }
  }

  lemma {:induction false} NodesOfAppend(a: seq<Entry>, b: seq<Entry>, n: Node)
    ensures PlanNodes(a + b, n) == PlanNodes(a, n) + PlanNodes(b, n)
  {
    if a == [] {
      assert a + b == b;
    } else {
      NodesOfAppend(a[1..], b, n);
      assert (a + b)[1..] == a[1..] + b;
    }
  }

  lemma RemoveOne(b: seq<Entry>, k: nat, n: Node)
    requires k < |b|
    ensures multiset(b[..k] + b[k + 1..]) == multiset(b) - multiset{b[k]}
    ensures PlanNodes(b, n) == EntryNodes(b[k], n) + PlanNodes(b[..k] + b[k + 1..], n)
  {
    assert b == b[..k] + ([b[k]] + b[k + 1..]);
    NodesOfAppend(b[..k], b[k + 1..], n);
    NodesOfAppend(b[..k], [b[k]] + b[k + 1..], n);
    assert ([b[k]] + b[k + 1..])[1..] == b[k + 1..];
  }

  lemma TailBag(a: seq<Entry>)
    requires a != []
    ensures multiset(a[1..]) == multiset(a) - multiset{a[0]}
  {
    assert a == [a[0]] + a[1..];
  }

  lemma IndexInBag(e: Entry, b: seq<Entry>) returns (k: nat)
    requires e in multiset(b)
    ensures k < |b| && b[k] == e
  {
    k :| 0 <= k < |b| && b[k] == e;
  }

  /** The nodes of a plan do not depend on the order of its entries. */
  lemma {:induction false} NodesOfPermutation(a: seq<Entry>, b: seq<Entry>, n: Node)
    requires multiset(a) == multiset(b)
    ensures PlanNodes(a, n) == PlanNodes(b, n)
    decreases |a|
  {
    if a == [] {
      assert |multiset(b)| == |b|;
    } else {
      assert a[0] in multiset(a);
      var k := IndexInBag(a[0], b);
      RemoveOne(b, k, n);
      TailBag(a);
      NodesOfPermutation(a[1..], b[..k] + b[k + 1..], n);
    }
  }

  function StepsOf(steps: seq<Entry>): seq<Entry> {
    if steps == [] then []
    else var e := steps[|steps| - 1]; StepsOf(steps[..|steps| - 1]) + (if e.Step? then [e] else [])
  }

  function LoopsOf(steps: seq<Entry>): seq<Entry> {
    if steps == [] then []
    else var e := steps[|steps| - 1]; LoopsOf(steps[..|steps| - 1]) + (if e.Loop? then [e] else [])
  }

  /** The preconditions the steps of a body name. */
  ghost function OwnMap(steps: seq<Entry>): PreconditionMap {
    if steps == [] then map[]
    else
      var e, m := steps[|steps| - 1], OwnMap(steps[..|steps| - 1]);
      if e.Step? && e.preconditions != [] then m[e.id := e.preconditions] else m
  }

  lemma {:induction false} PartsOf(steps: seq<Entry>)
    ensures forall e :: e in StepsOf(steps) <==> e in steps && e.Step?
    ensures forall e :: e in LoopsOf(steps) <==> e in steps && e.Loop?
  {
    if steps != [] { PartsOf(steps[..|steps| - 1]); }
  }

  /** The part is what stands at these rising places, and nothing of its kind is
      left out. */
  ghost predicate PartAt(steps: seq<Entry>, part: seq<Entry>, at: seq<int>, loops: bool) {
    && |at| == |part| && (forall a, b :: 0 <= a < b < |at| ==> at[a] < at[b])
    && (forall a :: 0 <= a < |at| ==> 0 <= at[a] < |steps| && part[a] == steps[at[a]])
    && (forall i :: 0 <= i < |steps| ==> (i in at <==> if loops then steps[i].Loop? else steps[i].Step?))
  }

  lemma PartNext(steps: seq<Entry>, part: seq<Entry>, at: seq<int>, loops: bool)
    requires steps != [] && PartAt(steps[..|steps| - 1], part, at, loops)
    ensures var n := |steps| - 1;
      if (if loops then steps[n].Loop? else steps[n].Step?) then PartAt(steps, part + [steps[n]], at + [n], loops)
      else PartAt(steps, part, at, loops)
  {
    var n := |steps| - 1;
    assert forall i :: 0 <= i < n ==> steps[..n][i] == steps[i];
    assert forall i :: i in at + [n] <==> i in at || i == n;
    assert n !in at;
  }

  /** A body is split into its steps and its loops, each in order. */
  lemma {:induction false} PartsInOrder(steps: seq<Entry>) returns (stepsAt: seq<int>, loopsAt: seq<int>)
    ensures PartAt(steps, StepsOf(steps), stepsAt, false) && PartAt(steps, LoopsOf(steps), loopsAt, true)
  {
    if steps == [] {
      stepsAt, loopsAt := [], [];
    } else {
      var n := |steps| - 1;
      var s, l := PartsInOrder(steps[..n]);
      PartNext(steps, StepsOf(steps[..n]), s, false);
      PartNext(steps, LoopsOf(steps[..n]), l, true);
      assert StepsOf(steps[..n]) + [] == StepsOf(steps[..n]) && LoopsOf(steps[..n]) + [] == LoopsOf(steps[..n]);
      stepsAt := if steps[n].Step? then s + [n] else s;
      loopsAt := if steps[n].Loop? then l + [n] else l;
    }
  }

  lemma {:induction false} UniqueSteps(steps: seq<Entry>)
    requires UniqueIds(steps)
    ensures UniqueIds(StepsOf(steps))
  {
    if steps != [] {
      var init, last := steps[..|steps| - 1], steps[|steps| - 1];
      UniqueSteps(init);
      PartsOf(init);
      forall e | e in init ensures e.id != last.id {
        var k :| 0 <= k < |steps| - 1 && steps[k] == e;
      }
    }
  }

  lemma {:induction false} NodesOfParts(steps: seq<Entry>, n: Node)
    ensures PlanNodes(steps, n) == PlanNodes(StepsOf(steps), n) + PlanNodes(LoopsOf(steps), n)
  {
    if steps != [] {
      var init, last := steps[..|steps| - 1], steps[|steps| - 1];
      assert steps == init + [last];
      NodesOfParts(init, n);
      NodesOfAppend(init, [last], n);
      NodesOfAppend(StepsOf(init), if last.Step? then [last] else [], n);
      NodesOfAppend(LoopsOf(init), if last.Loop? then [last] else [], n);
    }
  }

  lemma {:induction false} OwnMapKeys(steps: seq<Entry>)
    ensures OwnMap(steps).Keys <= Ids(steps)
  {
    if steps != [] {
      var n := |steps| - 1;
      OwnMapKeys(steps[..n]);
      assert steps == steps[..n] + [steps[n]];
      IdsOfAppend(steps[..n], [steps[n]]);
    }
  }

  lemma {:induction false} OwnMapPreconds(steps: seq<Entry>, e: Entry)
    requires UniqueIds(steps) && e in steps && e.Step?
    ensures Preconds(e, OwnMap(steps)) == e.preconditions
  {
    var n := |steps| - 1;
    OwnMapKeys(steps[..n]);
    if e == steps[n] {
      forall d | d in steps[..n] ensures d.id != e.id {
        var k :| 0 <= k < n && steps[k] == d;
      }
    } else {
      var k :| 0 <= k < n && steps[k] == e;
      assert steps[..n][k] == e;
      OwnMapPreconds(steps[..n], e);
    }
  }

  lemma {:induction false} DeepIdsOf(steps: seq<Entry>, x: string)
    ensures x in DeepIds(steps) <==> exists i :: 0 <= i < |steps| && (x == steps[i].id || x in NestedIds(steps[i]))
  {
    if steps != [] {
      DeepIdsOf(steps[1..], x);
      if i :| 0 <= i < |steps| && (x == steps[i].id || x in NestedIds(steps[i])) {
        if i > 0 { assert steps[i] == steps[1..][i - 1]; }
      }
      if i :| 0 <= i < |steps[1..]| && (x == steps[1..][i].id || x in NestedIds(steps[1..][i])) {
        assert steps[1..][i] == steps[i + 1];
      }
    }
  }

  lemma {:induction false} DeepPreconditionsMember(steps: seq<Entry>, x: (string, string))
    ensures x in DeepPreconditions(steps) <==> exists i :: 0 <= i < |steps| && x in EntryPreconditions(steps[i])
  {
    if steps != [] {
      DeepPreconditionsMember(steps[1..], x);
      if i :| 0 <= i < |steps| && x in EntryPreconditions(steps[i]) {
        if i > 0 { assert steps[i] == steps[1..][i - 1]; }
      }
      if i :| 0 <= i < |steps[1..]| && x in EntryPreconditions(steps[1..][i]) {
        assert x in EntryPreconditions(steps[i + 1]);
      }
    }
  }

  // ----- loop bodies -----

  /** An iteration edge of a loop body: the only child edge with ports of its own. */
  ghost predicate IsLoopBack(e: Edge) {
    e.sourcePort == "output-" + e.source && e.targetPort == "input-" + e.target && e.condition == Passed
  }

  /** The nodes and edges below these entries. */
  ghost predicate BodyGraph(steps: seq<Entry>, nodes: seq<Node>, edges: seq<Edge>) {
    && (forall n :: multiset(nodes)[n] == PlanNodes(steps, n))
    && BodyEdges(steps, edges)
  }

  ghost predicate BodyEdges(steps: seq<Entry>, edges: seq<Edge>) {
    && DeepPreconditions(steps) <= Pairs(edges)
    && (forall e :: e in edges ==> e.target in DeepIds(steps))
    && (forall e :: e in edges ==>
         IsLoopBack(e) || (e == Link(e.source, e.target) && (e.source, e.target) in DeepPreconditions(steps)))
  }

  /** The steps of a body as its own sort puts them. */
  ghost predicate BodyOrder(steps: seq<Entry>, order: seq<Entry>) {
    exists m: nat :: ExecutionOrder(StepsOf(steps), OwnMap(steps), order, m)
  }

  /** The nodes start with the steps of the body, in execution order. */
  ghost predicate LaidOut(steps: seq<Entry>, nodes: seq<Node>, order: seq<Entry>) {
    && |order| <= |nodes|
    && (forall k :: 0 <= k < |order| ==> nodes[k] == Node(order[k].id, StepNode))
    && BodyOrder(steps, order)
  }

  /** The steps of the body name each other only, none twice. */
  ghost predicate SelfContained(steps: seq<Entry>) {
    forall e :: e in steps && e.Step? ==>
      Distinct(e.preconditions) && forall q :: q in e.preconditions ==> q in Ids(StepsOf(steps))
  }

  /** A self-contained body without a cycle is laid out along its preconditions. */
  lemma BodyFollows(steps: seq<Entry>, order: seq<Entry>)
    requires UniqueIds(steps) && BodyOrder(steps, order) && SelfContained(steps) && Acyclic(PreconditionPairs(steps))
    ensures forall x :: x in PreconditionPairs(steps) ==> Precedes(order, x.0, x.1)
  {
    var own, pm := StepsOf(steps), OwnMap(steps);
    var m: nat :| ExecutionOrder(own, pm, order, m);
    BodySortable(steps);
    SortableUnblocked(own, pm);
    InOrder(own, pm, order, m);
    PartsOf(steps);
    forall x | x in PreconditionPairs(steps) ensures Precedes(order, x.0, x.1) {
      var e, p :| e in steps && e.Step? && p in e.preconditions && (p, e.id) == x;
      OwnMapPreconds(steps, e);
      var k :| 0 <= k < |order| && order[k] == e;
      assert p in PreSet(e, pm);
      var d :| d in order[..k] && d.id == p;
    }
  }

  lemma BodySortable(steps: seq<Entry>)
    requires UniqueIds(steps) && SelfContained(steps) && Acyclic(PreconditionPairs(steps))
    ensures UniqueIds(StepsOf(steps)) && Sortable(StepsOf(steps), OwnMap(steps))
  {
    PartsOf(steps);
    UniqueSteps(steps);
    OwnDependencies(steps);
    SamePreconditions(steps, StepsOf(steps));
    forall e | e in StepsOf(steps) ensures Preconds(e, OwnMap(steps)) == e.preconditions { OwnMapPreconds(steps, e); }
  }

  lemma InOrder(own: seq<Entry>, pm: PreconditionMap, order: seq<Entry>, m: nat)
    requires ExecutionOrder(own, pm, order, m) && forall e :: e in own ==> !Blocked(own, pm, e.id)
    ensures Ordered(order, pm) && forall e :: e in own ==> e in order
  {
    forall e ensures e in own <==> e in order {
      assert e in own <==> e in multiset(own);
      assert e in order <==> e in multiset(order);
    }
    if order != [] {
      var k := if m < |order| then m else 0;
      assert order[k] in own;
    }
    assert order[..m] == order;
  }

  /** Only steps have preconditions. */
  lemma SamePreconditions(steps: seq<Entry>, own: seq<Entry>)
    requires forall e :: e in own <==> e in steps && e.Step?
    ensures PreconditionPairs(own) == PreconditionPairs(steps)
  {
  }

  /** The ids below these entries. */
  ghost function AllNested(steps: seq<Entry>): set<string> {
    set e, x | e in steps && x in NestedIds(e) :: x
  }

  /** The iteration edge of a body laid out in this order. */
  ghost function BackPairs(order: seq<Entry>): Edges {
    if |order| >= 2 then {(order[|order| - 1].id, order[0].id)} else {}
  }

  /** The edges into a body are those of its preconditions and its iteration edge. */
  ghost predicate LevelWired(steps: seq<Entry>, E: Edges, order: seq<Entry>) {
    BodyOrder(steps, order) && Into(E, Ids(steps)) == PreconditionPairs(steps) + BackPairs(order)
  }

  /** That holds of a body and of every body below it. */
  ghost predicate DeepWired(steps: seq<Entry>, E: Edges) {
    (exists order :: LevelWired(steps, E, order)) && forall i :: 0 <= i < |steps| ==> EntryWired(steps[i], E)
  }

  ghost predicate EntryWired(e: Entry, E: Edges) {
    match e
    case Loop(_, body) => DeepWired(body, E)
    case _ => true
  }

  lemma EmptyWired()
    ensures DeepWired([], {})
  {
    assert ExecutionOrder(StepsOf([]), OwnMap([]), [], 0);
    assert BodyOrder([], []);
    assert PreconditionPairs([]) == {} && Into({}, Ids([])) == {};
    assert LevelWired([], {}, []);
  }

  lemma IdsWithin(steps: seq<Entry>)
    ensures Ids(steps) <= DeepIds(steps)
  {
    forall e | e in steps ensures e.id in DeepIds(steps) { DeepIdsMember(steps, e); }
  }

  /** Edges that end elsewhere do not matter. */
  lemma {:induction false} DeepFrame(steps: seq<Entry>, E: Edges, F: Edges)
    requires DeepWired(steps, E) && forall x :: x in F ==> x.1 !in DeepIds(steps)
    ensures DeepWired(steps, E + F)
    decreases steps
  {
    IdsWithin(steps);
    var order :| LevelWired(steps, E, order);
    assert Into(E + F, Ids(steps)) == Into(E, Ids(steps));
    assert LevelWired(steps, E + F, order);
    forall i | 0 <= i < |steps| ensures EntryWired(steps[i], E + F) {
      DeepIdsMember(steps, steps[i]);
      if steps[i].Loop? { DeepFrame(steps[i].body, E, F); }
    }
  }

  lemma EntryFrame(e: Entry, E: Edges, F: Edges)
    requires EntryWired(e, E) && forall x :: x in F ==> x.1 !in NestedIds(e)
    ensures EntryWired(e, E + F)
  {
    if e.Loop? { DeepFrame(e.body, E, F); }
  }

  /** The bodies below different entries share no ids. */
  ghost predicate Apart(steps: seq<Entry>) {
    && (forall e :: e in steps ==> UniqueEntry(e))
    && (forall i, j :: 0 <= i < j < |steps| ==> NestedIds(steps[i]) !! NestedIds(steps[j]))
  }

  ghost predicate FirstWired(steps: seq<Entry>, n: nat, E: Edges)
    requires n <= |steps|
  {
    && (forall k :: 0 <= k < n ==> EntryWired(steps[k], E))
    && (forall x :: x in E ==> x.1 in AllNested(steps[..n]))
  }

  lemma NextWired(steps: seq<Entry>, n: nat, E: Edges, F: Edges)
    requires Apart(steps) && n < |steps| && FirstWired(steps, n, E)
    requires EntryWired(steps[n], F) && forall x :: x in F ==> x.1 in NestedIds(steps[n])
    ensures FirstWired(steps, n + 1, E + F)
  {
    forall x | x in E ensures x.1 !in NestedIds(steps[n]) {
      var e :| e in steps[..n] && x.1 in NestedIds(e);
      var k :| 0 <= k < n && steps[k] == e;
    }
    EntryFrame(steps[n], F, E);
    assert F + E == E + F;
    forall k | 0 <= k < n ensures EntryWired(steps[k], E + F) {
      EntryFrame(steps[k], E, F);
    }
    assert steps[n] in steps[..n + 1];
    assert forall e :: e in steps[..n] ==> e in steps[..n + 1];
  }

  lemma ApartFrom(steps: seq<Entry>, d: Entry, e: Entry)
    requires UniquePlan(steps) && d in steps && e in steps && d != e
    ensures NestedIds(d) !! NestedIds(e)
  {
    if d == steps[0] {
      DeepIdsMember(steps[1..], e);
    } else if e == steps[0] {
      DeepIdsMember(steps[1..], d);
    } else {
      ApartFrom(steps[1..], d, e);
    }
  }

  lemma PlanApart(steps: seq<Entry>)
    requires UniquePlan(steps)
    ensures Apart(steps)
  {
    UniqueLevel(steps);
    forall i, j | 0 <= i < j < |steps| ensures NestedIds(steps[i]) !! NestedIds(steps[j]) {
      ApartFrom(steps, steps[i], steps[j]);
    }
  }

  lemma {:induction false} LoopsApart(steps: seq<Entry>)
    requires Apart(steps)
    ensures Apart(LoopsOf(steps))
  {
    if steps != [] {
      var init, e := steps[..|steps| - 1], steps[|steps| - 1];
      LoopsApart(init);
      PartsOf(init);
      forall d | d in init ensures NestedIds(d) !! NestedIds(e) {
        var k :| 0 <= k < |init| && steps[k] == d;
      }
    }
  }

  /** The sort of a body sees exactly the preconditions its steps name. */
  lemma OwnDependencies(steps: seq<Entry>)
    requires UniqueIds(steps)
    ensures Dependencies(StepsOf(steps), OwnMap(steps)) == PreconditionPairs(StepsOf(steps))
  {
    PartsOf(steps);
    forall e | e in StepsOf(steps) ensures Preconds(e, OwnMap(steps)) == e.preconditions {
      OwnMapPreconds(steps, e);
    }
  }

  /** Splits a body and collects the preconditions its steps name. */
  method SplitBody(steps: seq<Entry>) returns (stepEntries: seq<Entry>, loopEntries: seq<Entry>, pm: PreconditionMap)
    ensures stepEntries == StepsOf(steps) && loopEntries == LoopsOf(steps) && pm == OwnMap(steps)
    ensures forall e :: e in loopEntries ==> e.Loop?
  {
    stepEntries, loopEntries, pm := [], [], map[];
    for i := 0 to |steps|
      invariant stepEntries == StepsOf(steps[..i]) && loopEntries == LoopsOf(steps[..i]) && pm == OwnMap(steps[..i])
    {
      assert steps[..i + 1][..i] == steps[..i];
      match steps[i]
      case Step(id, preconditions) =>
        stepEntries := stepEntries + [steps[i]];
        if preconditions != [] { pm := pm[id := preconditions]; }
      case Loop(_, _) =>
        loopEntries := loopEntries + [steps[i]];
      case Other(_) =>
    }
    assert steps[..|steps|] == steps;
    PartsOf(steps);
  }

  lemma BodyAtDepthOfLoops(steps: seq<Entry>, n: nat)
    ensures BodyAtDepth(steps, n) <==> BodyAtDepth(LoopsOf(steps), n)
  {
    PartsOf(steps);
    if i :| 0 <= i < |steps| && EntryBodyAtDepth(steps[i], n) {
      assert steps[i] in LoopsOf(steps);
    }
    if i :| 0 <= i < |LoopsOf(steps)| && EntryBodyAtDepth(LoopsOf(steps)[i], n) {
      assert LoopsOf(steps)[i] in steps;
    }
  }

  /** Nodes of the sorted steps come first, one each. */
  method StepNodes(steps: seq<Entry>) returns (nodes: seq<Node>)
    ensures |nodes| == |steps| && forall k :: 0 <= k < |steps| ==> nodes[k] == Node(steps[k].id, StepNode)
    ensures (forall e :: e in steps ==> e.Step?) ==> forall n :: multiset(nodes)[n] == PlanNodes(steps, n)
  {
    nodes := [];
    for i := 0 to |steps|
      invariant |nodes| == i && forall k :: 0 <= k < i ==> nodes[k] == Node(steps[k].id, StepNode)
      invariant (forall e :: e in steps ==> e.Step?) ==>
        forall n :: multiset(nodes)[n] + PlanNodes(steps[i..], n) == PlanNodes(steps, n)
    {
      assert steps[i..][1..] == steps[i + 1..];
      nodes := nodes + [Node(steps[i].id, StepNode)];
    }
  }

  lemma SortedSteps(steps: seq<Entry>, sorted: seq<Entry>)
    requires multiset(sorted) == multiset(StepsOf(steps))
    ensures forall e :: e in sorted <==> e in steps && e.Step?
  {
    PartsOf(steps);
    assert forall e :: e in sorted <==> e in multiset(sorted);
    assert forall e :: e in StepsOf(steps) <==> e in multiset(StepsOf(steps));
  }

  /** Preconditions of a body: those of its own steps and those below its loops. */
  lemma PreconditionsOfParts(steps: seq<Entry>, sorted: seq<Entry>, loops: seq<Entry>)
    requires forall e :: e in sorted <==> e in steps && e.Step?
    requires forall e :: e in loops <==> e in steps && e.Loop?
    ensures DeepPreconditions(steps) == PreconditionPairs(sorted) + DeepPreconditions(loops)
  {
    forall x ensures x in DeepPreconditions(steps) <==> x in PreconditionPairs(sorted) + DeepPreconditions(loops) {
      DeepPreconditionsMember(steps, x);
      DeepPreconditionsMember(loops, x);
      if i :| 0 <= i < |steps| && x in EntryPreconditions(steps[i]) {
        if steps[i].Loop? {
          var k :| 0 <= k < |loops| && loops[k] == steps[i];
        } else {
          var e, p :| e in [steps[i]] && e.Step? && p in e.preconditions && (p, e.id) == x;
          assert e in sorted;
        }
      }
      if x in PreconditionPairs(sorted) {
        var e, p :| e in sorted && e.Step? && p in e.preconditions && (p, e.id) == x;
        var i :| 0 <= i < |steps| && steps[i] == e;
        assert e in [e];
        assert x in EntryPreconditions(steps[i]);
      }
      if i :| 0 <= i < |loops| && x in EntryPreconditions(loops[i]) {
        assert loops[i] in steps;
        var k :| 0 <= k < |steps| && steps[k] == loops[i];
      }
    }
  }

  lemma DeepIdsSubset(a: seq<Entry>, b: seq<Entry>)
    requires forall e :: e in a ==> e in b
    ensures DeepIds(a) <= DeepIds(b)
  {
    forall x | x in DeepIds(a) ensures x in DeepIds(b) {
      DeepIdsOf(a, x);
      var i :| 0 <= i < |a| && (x == a[i].id || x in NestedIds(a[i]));
      DeepIdsMember(b, a[i]);
    }
  }

  /** Adding one more loop with the graph of its body. */
  lemma BodyEdgesSnoc(loops: seq<Entry>, edges: seq<Edge>, loop: Entry, nested: seq<Edge>)
    requires loop.Loop? && BodyEdges(loops, edges) && BodyEdges(loop.body, nested)
    ensures BodyEdges(loops + [loop], edges + nested)
  {
    var all := loops + [loop];
    assert all[|loops|] == loop;
    PairsOfAppend(edges, nested);
    DeepIdsSubset(loops, all);
    DeepIdsMember(all, loop);
    forall x ensures x in DeepPreconditions(all) <==> x in DeepPreconditions(loops) + DeepPreconditions(loop.body) {
      DeepPreconditionsMember(all, x);
      DeepPreconditionsMember(loops, x);
      assert forall i :: 0 <= i < |loops| ==> all[i] == loops[i];
      if x in DeepPreconditions(loop.body) { assert x in EntryPreconditions(all[|loops|]); }
      if i :| 0 <= i < |loops| && x in EntryPreconditions(loops[i]) { assert x in EntryPreconditions(all[i]); }
    }
  }

  lemma BodyEdgesAll(steps: seq<Entry>, sorted: seq<Entry>, loops: seq<Entry>, nested: seq<Edge>, own: seq<Edge>)
    requires forall e :: e in sorted <==> e in steps && e.Step?
    requires forall e :: e in loops <==> e in steps && e.Loop?
    requires BodyEdges(loops, nested)
    requires Pairs(own) == PreconditionPairs(sorted) && forall e :: e in own ==> e == Link(e.source, e.target)
    ensures BodyEdges(steps, nested + own)
  {
    PreconditionsOfParts(steps, sorted, loops);
    PairsOfAppend(nested, own);
    DeepIdsSubset(loops, steps);
    forall e | e in own ensures e.target in DeepIds(steps) && (e.source, e.target) in DeepPreconditions(steps) {
      assert (e.source, e.target) in Pairs(own);
      var d, p :| d in sorted && d.Step? && p in d.preconditions && (p, d.id) == (e.source, e.target);
      DeepIdsMember(steps, d);
    }
  }

  lemma BodyEdgesBack(steps: seq<Entry>, edges: seq<Edge>, back: Edge)
    requires BodyEdges(steps, edges) && IsLoopBack(back) && back.target in Ids(steps)
    ensures BodyEdges(steps, edges + [back])
  {
    PairsOfAppend(edges, [back]);
    var e :| e in steps && e.id == back.target;
    DeepIdsMember(steps, e);
  }

  /** One edge from the last step to the first, if there are two. */
  ghost predicate IsBack(sorted: seq<Entry>, edges: seq<Edge>) {
    if |sorted| < 2 then edges == []
    else
      && |edges| == 1 && IsLoopBack(edges[0])
      && edges[0].source == sorted[|sorted| - 1].id && edges[0].target == sorted[0].id
  }

  method LoopBack(sorted: seq<Entry>) returns (edges: seq<Edge>)
    ensures IsBack(sorted, edges)
  {
    edges := [];
    if |sorted| >= 2 {
      var first, last := sorted[0].id, sorted[|sorted| - 1].id;
      edges := [Edge(last, first, "output-" + last, "input-" + first, Passed)];
    }
  }

  /** Everything below a loop container: sorted steps, then child loops with
      their own children, then precondition edges and the iteration edge. */
  method CreateChildNodes(steps: seq<Entry>, depth: nat) returns (r: Result)
    ensures r.DepthExceeded? <==> depth > MAX_LOOP_DEPTH || BodyAtDepth(steps, MAX_LOOP_DEPTH + 1 - depth)
    ensures r.Success? && UniquePlan(steps) ==> BodyBuilt(steps, r)
    decreases MAX_LOOP_DEPTH + 1 - depth, 1
  {
    if depth > MAX_LOOP_DEPTH {
      return DepthExceeded;
    }
    var stepEntries, loopEntries, pm := SplitBody(steps);
    var sorted, warned := TopologicalSort(stepEntries, pm);
    var below := ChildLoops(loopEntries, depth);
    BodyAtDepthOfLoops(steps, MAX_LOOP_DEPTH + 1 - depth);
    if below.DepthExceeded? {
      return DepthExceeded;
    }
    r := FinishBody(steps, sorted, warned, below);
  }

  /** Step nodes go before the nodes of the loops, edges of this level after theirs. */
  method FinishBody(ghost steps: seq<Entry>, sorted: seq<Entry>, ghost warned: bool, below: Result) returns (r: Result)
    requires below.Success?
    requires UniquePlan(steps) && UniqueIds(StepsOf(steps)) ==>
      SortOutcome(StepsOf(steps), OwnMap(steps), sorted, warned)
    requires UniquePlan(steps) && Apart(LoopsOf(steps)) ==> LoopsBuilt(LoopsOf(steps), below)
    ensures r.Success? && (UniquePlan(steps) ==> BodyBuilt(steps, r))
  {
    var stepNodes := StepNodes(sorted);
    var own := WirePreconditions(sorted);
    var back := LoopBack(sorted);
    r := Success(stepNodes + below.nodes, below.edges + own + back);
    if UniquePlan(steps) {
      BodyParts(steps);
      SortedIsBodyOrder(steps, sorted, warned);
      Assemble(steps, sorted, stepNodes, below, own, back);
    }
  }

  lemma SortedIsBodyOrder(steps: seq<Entry>, sorted: seq<Entry>, warned: bool)
    requires SortOutcome(StepsOf(steps), OwnMap(steps), sorted, warned)
    ensures BodyOrder(steps, sorted)
  {
  }

  lemma OrderPermutes(steps: seq<Entry>, sorted: seq<Entry>)
    requires BodyOrder(steps, sorted)
    ensures multiset(sorted) == multiset(StepsOf(steps))
  {
  }

  lemma LaidFirst(steps: seq<Entry>, sorted: seq<Entry>, stepNodes: seq<Node>, more: seq<Node>)
    requires BodyOrder(steps, sorted)
    requires |stepNodes| == |sorted| && forall k :: 0 <= k < |sorted| ==> stepNodes[k] == Node(sorted[k].id, StepNode)
    ensures LaidOut(steps, stepNodes + more, sorted)
  {
  }

  lemma Assemble(steps: seq<Entry>, sorted: seq<Entry>, stepNodes: seq<Node>, below: Result,
                 own: seq<Edge>, back: seq<Edge>)
    requires UniquePlan(steps) && BodyOrder(steps, sorted)
    requires below.Success? && LoopsBuilt(LoopsOf(steps), below)
    requires |stepNodes| == |sorted| && forall k :: 0 <= k < |sorted| ==> stepNodes[k] == Node(sorted[k].id, StepNode)
    requires (forall e :: e in sorted ==> e.Step?) ==> forall n :: multiset(stepNodes)[n] == PlanNodes(sorted, n)
    requires Pairs(own) == PreconditionPairs(sorted) && forall e :: e in own ==> e == Link(e.source, e.target)
    requires IsBack(sorted, back)
    ensures BodyBuilt(steps, Success(stepNodes + below.nodes, below.edges + own + back))
  {
    OrderPermutes(steps, sorted);
    AssembleBody(steps, sorted, stepNodes, below, own, back);
    AssembleWiring(steps, sorted, below, own, back);
    LaidFirst(steps, sorted, stepNodes, below.nodes);
  }

  /** What a body is turned into: its nodes, steps first in execution order, and
      edges, wired at this and every deeper level. */
  ghost predicate BodyBuilt(steps: seq<Entry>, r: Result)
    requires r.Success?
  {
    && BodyGraph(steps, r.nodes, r.edges)
    && (exists order :: LaidOut(steps, r.nodes, order) && LevelWired(steps, Pairs(r.edges), order))
    && DeepWired(steps, Pairs(r.edges))
  }

  /** The same for the loops of a body. */
  ghost predicate LoopsBuilt(loops: seq<Entry>, r: Result)
    requires r.Success?
  {
    BodyGraph(loops, r.nodes, r.edges) && FirstWired(loops, |loops|, Pairs(r.edges))
  }

  lemma BodyParts(steps: seq<Entry>)
    requires UniquePlan(steps)
    ensures UniqueIds(StepsOf(steps)) && Apart(LoopsOf(steps))
  {
    UniqueLevel(steps);
    UniqueSteps(steps);
    PlanApart(steps);
    LoopsApart(steps);
  }

  lemma AssembleBody(steps: seq<Entry>, sorted: seq<Entry>, stepNodes: seq<Node>, r: Result, own: seq<Edge>,
                     back: seq<Edge>)
    requires UniquePlan(steps) && multiset(sorted) == multiset(StepsOf(steps))
    requires (forall e :: e in sorted ==> e.Step?) ==> forall n :: multiset(stepNodes)[n] == PlanNodes(sorted, n)
    requires r.Success? && BodyGraph(LoopsOf(steps), r.nodes, r.edges)
    requires Pairs(own) == PreconditionPairs(sorted) && forall e :: e in own ==> e == Link(e.source, e.target)
    requires IsBack(sorted, back)
    ensures BodyGraph(steps, stepNodes + r.nodes, r.edges + own + back)
  {
    SortedSteps(steps, sorted);
    PartsOf(steps);
    forall n ensures multiset(stepNodes + r.nodes)[n] == PlanNodes(steps, n) {
      NodesOfParts(steps, n);
      NodesOfPermutation(sorted, StepsOf(steps), n);
    }
    BodyEdgesAll(steps, sorted, LoopsOf(steps), r.edges, own);
    if |sorted| >= 2 {
      assert sorted[0] in steps;
      BodyEdgesBack(steps, r.edges + own, back[0]);
      assert back == [back[0]];
    } else {
      assert r.edges + own + back == r.edges + own;
    }
  }

  lemma BackIsPairs(sorted: seq<Entry>, back: seq<Edge>)
    requires IsBack(sorted, back)
    ensures Pairs(back) == BackPairs(sorted)
  {
    if |sorted| >= 2 { assert back == [back[0]]; }
  }

  lemma AssembleWiring(steps: seq<Entry>, sorted: seq<Entry>, r: Result, own: seq<Edge>, back: seq<Edge>)
    requires UniquePlan(steps) && BodyOrder(steps, sorted) && multiset(sorted) == multiset(StepsOf(steps))
    requires r.Success? && FirstWired(LoopsOf(steps), |LoopsOf(steps)|, Pairs(r.edges))
    requires Pairs(own) == PreconditionPairs(sorted) && IsBack(sorted, back)
    ensures LevelWired(steps, Pairs(r.edges + own + back), sorted)
    ensures DeepWired(steps, Pairs(r.edges + own + back))
  {
    PairsOfAppend(r.edges, own);
    PairsOfAppend(r.edges + own, back);
    BackIsPairs(sorted, back);
    SortedSteps(steps, sorted);
    SamePreconditions(steps, sorted);
    LevelOf(steps, sorted, Pairs(r.edges));
  }

  /** The edges made at this level join those made below. */
  lemma LevelOf(steps: seq<Entry>, sorted: seq<Entry>, below: Edges)
    requires UniquePlan(steps) && BodyOrder(steps, sorted) && forall e :: e in sorted <==> e in steps && e.Step?
    requires FirstWired(LoopsOf(steps), |LoopsOf(steps)|, below)
    ensures var E := below + PreconditionPairs(steps) + BackPairs(sorted);
      LevelWired(steps, E, sorted) && DeepWired(steps, E)
  {
    var loops, here := LoopsOf(steps), PreconditionPairs(steps) + BackPairs(sorted);
    var E := below + PreconditionPairs(steps) + BackPairs(sorted);
    assert E == below + here && loops[..|loops|] == loops;
    PartsOf(steps);
    UniqueLevel(steps);
    forall x | x in here ensures x.1 in Ids(steps) { EndsHere(steps, sorted, x); }
    forall x | x in below ensures x.1 !in Ids(steps) {
      var e :| e in loops && x.1 in NestedIds(e);
    }
    assert Into(E, Ids(steps)) == here;
    assert LevelWired(steps, E, sorted);
    forall i | 0 <= i < |steps| ensures EntryWired(steps[i], E) {
      if steps[i].Loop? {
        assert steps[i] in loops;
        var k :| 0 <= k < |loops| && loops[k] == steps[i];
        EntryFrame(steps[i], below, here);
      }
    }
  }

  lemma EndsHere(steps: seq<Entry>, sorted: seq<Entry>, x: (string, string))
    requires (forall e :: e in sorted ==> e in steps) && x in PreconditionPairs(steps) + BackPairs(sorted)
    ensures x.1 in Ids(steps)
  {
    if x in BackPairs(sorted) { assert sorted[0] in steps; }
  }

  method ChildLoops(loops: seq<Entry>, depth: nat) returns (r: Result)
    requires depth <= MAX_LOOP_DEPTH
    requires forall e :: e in loops ==> e.Loop?
    ensures r.DepthExceeded? <==> BodyAtDepth(loops, MAX_LOOP_DEPTH + 1 - depth)
    ensures r.Success? && Apart(loops) ==> LoopsBuilt(loops, r)
    decreases MAX_LOOP_DEPTH + 1 - depth, 0
  {
    var nodes, edges := [], [];
    for i := 0 to |loops|
      invariant ShallowSoFar(loops, i, MAX_LOOP_DEPTH + 1 - depth)
      invariant Apart(loops) ==> LoopsSoFar(loops, i, nodes, edges)
    {
      assert loops[i] in loops;
      var nested := Success([], []);
      if loops[i].body != [] {
        nested := CreateChildNodes(loops[i].body, depth + 1);
        assert nested.DepthExceeded? <==> EntryBodyAtDepth(loops[i], MAX_LOOP_DEPTH + 1 - depth);
        if nested.DepthExceeded? {
          return DepthExceeded;
        }
      }
      if Apart(loops) { NextLoop(loops, i, nodes, edges, nested); }
      nodes, edges := nodes + [Node(loops[i].id, LoopNode)] + nested.nodes, edges + nested.edges;
    }
    assert loops[..|loops|] == loops;
    return Success(nodes, edges);
  }

  ghost predicate ShallowSoFar(loops: seq<Entry>, i: nat, n: nat)
    requires i <= |loops|
  {
    forall k :: 0 <= k < i ==> !EntryBodyAtDepth(loops[k], n)
  }

  ghost predicate LoopsSoFar(loops: seq<Entry>, i: nat, nodes: seq<Node>, edges: seq<Edge>)
    requires i <= |loops|
  {
    BodyGraph(loops[..i], nodes, edges) && FirstWired(loops, i, Pairs(edges))
  }

  lemma NextLoop(loops: seq<Entry>, i: nat, nodes: seq<Node>, edges: seq<Edge>, nested: Result)
    requires Apart(loops) && i < |loops| && LoopsSoFar(loops, i, nodes, edges) && loops[i].Loop? && nested.Success?
    requires if loops[i].body == [] then nested == Success([], [])
             else UniquePlan(loops[i].body) ==> BodyBuilt(loops[i].body, nested)
    ensures LoopsSoFar(loops, i + 1, nodes + [Node(loops[i].id, LoopNode)] + nested.nodes, edges + nested.edges)
  {
    assert loops[..i + 1] == loops[..i] + [loops[i]];
    NestedGraph(loops[i], nested);
    BodyGraphSnoc(loops[..i], nodes, edges, loops[i], nested.nodes, nested.edges);
    NextWired(loops, i, Pairs(edges), Pairs(nested.edges));
    PairsOfAppend(edges, nested.edges);
  }

  lemma NestedGraph(loop: Entry, r: Result)
    requires loop.Loop? && UniqueEntry(loop) && r.Success?
    requires if loop.body == [] then r == Success([], []) else UniquePlan(loop.body) ==> BodyBuilt(loop.body, r)
    ensures BodyGraph(loop.body, r.nodes, r.edges) && EntryWired(loop, Pairs(r.edges))
    ensures forall x :: x in Pairs(r.edges) ==> x.1 in NestedIds(loop)
  {
    if loop.body == [] {
      EmptyWired();
      assert Pairs([]) == {};
    }
  }

  lemma BodyGraphSnoc(loops: seq<Entry>, nodes: seq<Node>, edges: seq<Edge>,
                      loop: Entry, nestedNodes: seq<Node>, nestedEdges: seq<Edge>)
    requires BodyGraph(loops, nodes, edges) && loop.Loop? && BodyGraph(loop.body, nestedNodes, nestedEdges)
    ensures BodyGraph(loops + [loop], nodes + [Node(loop.id, LoopNode)] + nestedNodes, edges + nestedEdges)
  {
    BodyEdgesSnoc(loops, edges, loop, nestedEdges);
    forall n ensures multiset(nodes + [Node(loop.id, LoopNode)] + nestedNodes)[n] == PlanNodes(loops + [loop], n) {
      NodesOfAppend(loops, [loop], n);
    }
  }

  // ----- the whole import -----

  const VARIABLES_NODE := Node("variables-scope", VariablesNode)

  lemma NestedApart(steps: seq<Entry>)
    requires UniquePlan(steps)
    ensures Ids(steps) !! AllNested(steps)
  {
    UniqueLevel(steps);
  }

  /** The first import loop: nodes for every entry and everything below it. */
  method ImportNodes(steps: seq<Entry>) returns (r: Result)
    ensures r.DepthExceeded? <==> BodyAtDepth(steps, MAX_LOOP_DEPTH + 1)
    ensures r.Success? && UniquePlan(steps) ==> FirstImported(steps, |steps|, r.nodes, r.edges)
  {
    var nodes: seq<Node>, edges: seq<Edge> := [], [];
    assert Pairs(edges) == {};
    for i := 0 to |steps|
      invariant forall k :: 0 <= k < i ==> !EntryBodyAtDepth(steps[k], MAX_LOOP_DEPTH + 1)
      invariant UniquePlan(steps) ==> FirstImported(steps, i, nodes, edges)
    {
      ghost var nodesBefore, edgesBefore := nodes, edges;
      var nested := Success([], []);
      match steps[i] {
        case Step(id, _) =>
          nodes := nodes + [Node(id, StepNode)];
        case Loop(id, body) =>
          nodes := nodes + [Node(id, LoopNode)];
          if body != [] {
            nested := CreateChildNodes(body, 1);
            if nested.DepthExceeded? {
              return DepthExceeded;
            }
            nodes := nodes + nested.nodes;
          }
        case Other(_) =>
      }
      edges := edges + nested.edges;
      if UniquePlan(steps) {
        UniqueLevel(steps);
        assert UniqueEntry(steps[i]);
        NextImported(steps, i, nodesBefore, edgesBefore, nodes, nested);
      }
    }
    return Success(nodes, edges);
  }

  /** The nodes and child edges of the first n entries. */
  ghost predicate FirstImported(steps: seq<Entry>, n: nat, nodes: seq<Node>, edges: seq<Edge>)
    requires n <= |steps|
  {
    && (forall d :: multiset(nodes)[d] == PlanNodes(steps[..n], d))
    && FirstWired(steps, n, Pairs(edges))
    && (forall e :: e in edges ==> ChildEdge(steps, e))
  }

  lemma NextImported(steps: seq<Entry>, i: nat, before: seq<Node>, edges: seq<Edge>, after: seq<Node>, nested: Result)
    requires i < |steps| && UniquePlan(steps) && FirstImported(steps, i, before, edges) &&
      NestedResult(steps[i], nested)
    requires match steps[i]
             case Step(id, _) => after == before + [Node(id, StepNode)]
             case Loop(id, _) => after == before + [Node(id, LoopNode)] + nested.nodes
             case Other(_) => after == before
    ensures FirstImported(steps, i + 1, after, edges + nested.edges)
  {
    UniqueLevel(steps);
    PlanApart(steps);
    EntryBuilt(steps[i], nested);
    ImportedNodes(steps, i, before, after, nested);
    ImportedEdges(steps, i, nested.edges);
    NextWired(steps, i, Pairs(edges), Pairs(nested.edges));
    PairsOfAppend(edges, nested.edges);
  }

  /** An edge of a loop body: it ends below the top level, and is an iteration
      edge or has default ports. */
  ghost predicate ChildEdge(steps: seq<Entry>, e: Edge) {
    e.target in AllNested(steps) && (IsLoopBack(e) || e == Link(e.source, e.target))
  }

  /** The graph built for the body of an entry, empty unless it is a loop with a body. */
  ghost predicate NestedResult(e: Entry, nested: Result) {
    && nested.Success?
    && (if e.Loop? && e.body != [] then BodyBuilt(e.body, nested) else nested == Success([], []))
  }

  lemma EntryBuilt(e: Entry, nested: Result)
    requires UniqueEntry(e) && NestedResult(e, nested)
    ensures EntryWired(e, Pairs(nested.edges)) && forall x :: x in Pairs(nested.edges) ==> x.1 in NestedIds(e)
    ensures EdgesBelow(e, nested.edges)
  {
    if e.Loop? {
      NestedGraph(e, nested);
      BodyEdgesBelow(e, nested);
    }
  }

  lemma ImportedNodes(steps: seq<Entry>, i: nat, before: seq<Node>, after: seq<Node>, nested: Result)
    requires i < |steps| && NestedResult(steps[i], nested)
    requires forall n :: multiset(before)[n] == PlanNodes(steps[..i], n)
    requires match steps[i]
             case Step(id, _) => after == before + [Node(id, StepNode)]
             case Loop(id, _) => after == before + [Node(id, LoopNode)] + nested.nodes
             case Other(_) => after == before
    ensures forall n :: multiset(after)[n] == PlanNodes(steps[..i + 1], n)
  {
    forall n ensures multiset(after)[n] == PlanNodes(steps[..i + 1], n) {
      NestedNodes(steps[i], nested, n);
      ImportedNode(steps, i, before, after, nested.nodes, n);
    }
  }

  lemma ImportedNode(steps: seq<Entry>, i: nat, before: seq<Node>, after: seq<Node>, nested: seq<Node>, n: Node)
    requires i < |steps| && multiset(before)[n] == PlanNodes(steps[..i], n)
    requires steps[i].Loop? ==> multiset(nested)[n] == PlanNodes(steps[i].body, n)
    requires match steps[i]
             case Step(id, _) => after == before + [Node(id, StepNode)]
             case Loop(id, _) => after == before + [Node(id, LoopNode)] + nested
             case Other(_) => after == before
    ensures multiset(after)[n] == PlanNodes(steps[..i + 1], n)
  {
    assert steps[..i + 1] == steps[..i] + [steps[i]];
    NodesOfAppend(steps[..i], [steps[i]], n);
    assert PlanNodes([steps[i]], n) == EntryNodes(steps[i], n);
  }

  lemma NestedNodes(e: Entry, nested: Result, n: Node)
    requires NestedResult(e, nested)
    ensures e.Loop? ==> multiset(nested.nodes)[n] == PlanNodes(e.body, n)
  {
  }

  ghost predicate EdgesBelow(e: Entry, edges: seq<Edge>) {
    forall d :: d in edges ==> d.target in NestedIds(e) && (IsLoopBack(d) || d == Link(d.source, d.target))
  }

  lemma BodyEdgesBelow(e: Entry, r: Result)
    requires e.Loop? && r.Success? && BodyEdges(e.body, r.edges)
    ensures EdgesBelow(e, r.edges)
  {
  }

  lemma ImportedEdges(steps: seq<Entry>, i: nat, edges: seq<Edge>)
    requires i < |steps| && EdgesBelow(steps[i], edges)
    ensures forall e :: e in edges ==> ChildEdge(steps, e)
  {
    forall e | e in edges ensures ChildEdge(steps, e) {
      assert steps[i] in steps && e.target in NestedIds(steps[i]);
    }
  }

  /** `yamlToGraphData` after parsing, without layout. */
  method ImportPlan(steps: seq<Entry>, hasVariables: bool) returns (r: ImportResult)
    // fails exactly when a non-empty loop body lies more than five loops deep
    ensures r.Rejected? <==> BodyAtDepth(steps, 6)
    // one node per step and per loop at every depth, plus one for variables
    ensures r.Imported? && UniquePlan(steps) ==>
      forall n :: multiset(r.nodes)[n] == PlanNodes(steps, n) + 
        if hasVariables && n == Node("variables-scope", VariablesNode) then 1 else 0
    // the top-level edges are the wiring, which is acyclic when the preconditions are
    ensures r.Imported? && UniquePlan(steps) ==>
      && Pairs(r.topEdges) == WiringPairs(steps)
      && (forall e :: e in r.topEdges ==> e == Link(e.source, e.target))
      && (Acyclic(Pairs(r.topEdges)) <==> Acyclic(PreconditionPairs(steps)))
    // the edges of loop bodies stay below, wired at every depth
    ensures r.Imported? && UniquePlan(steps) ==> forall e :: e in r.childEdges ==> ChildEdge(steps, e)
    ensures r.Imported? && UniquePlan(steps) ==>
      forall k :: 0 <= k < |steps| ==> EntryWired(steps[k], Pairs(r.childEdges + r.topEdges))
  {
    var parts := ImportNodes(steps);
    if parts.DepthExceeded? {
      return Rejected;
    }
    var pre := WirePreconditions(steps);
    var top := WireSequence(steps, parts.edges, pre);
    var nodes := parts.nodes + (if hasVariables then [VARIABLES_NODE] else []);
    if UniquePlan(steps) {
      assert steps[..|steps|] == steps;
      TopEdges(steps, parts.edges, top);
      PairsOfAppend(parts.edges, top);
      BodiesStayWired(steps, Pairs(parts.edges), Pairs(top));
    }
    return Imported(nodes, parts.edges, top);
  }

  lemma BodiesStayWired(steps: seq<Entry>, E: Edges, F: Edges)
    requires UniquePlan(steps) && FirstWired(steps, |steps|, E) && forall x :: x in F ==> x.1 in Ids(steps)
    ensures forall k :: 0 <= k < |steps| ==> EntryWired(steps[k], E + F)
  {
    UniqueLevel(steps);
    forall k | 0 <= k < |steps| ensures EntryWired(steps[k], E + F) {
      assert steps[k] in steps;
      EntryFrame(steps[k], E, F);
    }
  }

  /** No child edge can stand in for a top-level one. */
  lemma TopEdges(steps: seq<Entry>, childEdges: seq<Edge>, top: seq<Edge>)
    requires UniquePlan(steps)
    requires forall e :: e in childEdges ==> ChildEdge(steps, e)
    requires Pairs(top) <= WiringPairs(steps) <= Pairs(childEdges) + Pairs(top)
    ensures Pairs(top) == WiringPairs(steps) && forall x :: x in Pairs(top) ==> x.1 in Ids(steps)
    ensures Acyclic(Pairs(top)) <==> Acyclic(PreconditionPairs(steps))
  {
    UniqueLevel(steps);
    NestedApart(steps);
    forall x: (string, string) | x in WiringPairs(steps) ensures x.1 in Ids(steps) {}
    WiringAcyclic(steps);
  }
}
