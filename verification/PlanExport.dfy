/** Exporting the editor graph: collecting preconditions from edges, sorting the
    entries, and what happens to a plan that is imported and exported again. */
module PlanExport {
  import opened Graphs
  import opened Plans
  import opened StepSort
  import opened PlanWiring
  import opened PlanImport

  predicate At(s: string, part: string, i: nat) {
    i + |part| <= |s| && s[i..i + |part|] == part
  }

  predicate Contains(s: string, part: string) {
    exists i :: 0 <= i <= |s| && At(s, part, i)
  }

  const LOOP_BACK := "loop-back"

  /** An imported edge once it is on the canvas, with its ports filled in. */
  function OnCanvas(e: Edge): Edge {
    e.(sourcePort := if e.sourcePort != "" then e.sourcePort else "output-" + e.source,
       targetPort := if e.targetPort != "" then e.targetPort else "input-" + e.target)
  }

  /** The edges that count as preconditions on export. */
  predicate Kept(e: Edge, nodes: set<string>) {
    && e.source in nodes && e.target in nodes
    && !Contains(e.sourcePort, LOOP_BACK) && !Contains(e.targetPort, LOOP_BACK)
    && e.condition in {Unset, Passed, Any}
  }

  ghost function KeptPairs(edges: seq<Edge>, nodes: set<string>): Edges {
    set e | e in edges && Kept(e, nodes) :: (e.source, e.target)
  }

  /** pm lists every source of a kept edge under its target, once. */
  ghost predicate Collects(pm: PreconditionMap, E: Edges) {
    && (forall t :: t in pm ==> Distinct(pm[t]))
    && (forall s, t :: (t in pm && s in pm[t]) <==> (s, t) in E)
  }

  lemma CollectOne(pm: PreconditionMap, E: Edges, s: string, t: string)
    requires Collects(pm, E)
    ensures var known := if t in pm then pm[t] else [];
            Collects(if s in known then pm else pm[t := known + [s]], E + {(s, t)})
  {
    var known := if t in pm then pm[t] else [];
    if s !in known {
      var next := pm[t := known + [s]];
      forall x, y ensures (y in next && x in next[y]) <==> (x, y) in E + {(s, t)} {
        if y == t { assert x in next[y] <==> x in known || x == s; }
      }
    }
  }

  /** The text holds the marker of a loop-back port. */
  ghost predicate Marked(s: string) {
    exists before, after :: s == before + "loop-back" + after
  }

  /** An edge that makes its source a precondition of its target: between known
      nodes, at unmarked ports, and not for the failed or skipped outcome. */
  ghost predicate IsPrecondition(e: Edge, s: string, t: string, nodes: set<string>) {
    && e.source == s && e.target == t && s in nodes && t in nodes
    && !Marked(e.sourcePort) && !Marked(e.targetPort)
    && !e.condition.Failed? && !e.condition.Skipped?
  }

  lemma MarkedContains(s: string)
    ensures Marked(s) <==> Contains(s, LOOP_BACK)
  {
    if Marked(s) {
      var before, after :| s == before + "loop-back" + after;
      assert At(s, LOOP_BACK, |before|);
    }
    if i :| 0 <= i <= |s| && At(s, LOOP_BACK, i) {
      assert s == s[..i] + "loop-back" + s[i + |LOOP_BACK|..];
    }
  }

  lemma KeptExactly(edges: seq<Edge>, nodes: set<string>, s: string, t: string)
    ensures (s, t) in KeptPairs(edges, nodes) <==> exists e :: e in edges && IsPrecondition(e, s, t, nodes)
  {
    forall e | e in edges
      ensures IsPrecondition(e, s, t, nodes) <==> Kept(e, nodes) && (e.source, e.target) == (s, t) {
      MarkedContains(e.sourcePort);
      MarkedContains(e.targetPort);
    }
  }

  predicate Listed(pm: PreconditionMap, s: string, t: string) {
    t in pm && s in pm[t]
  }

  /** Each source once, under exactly the targets it is a precondition of. */
  method BuildPreconditionMap(edges: seq<Edge>, nodes: set<string>) returns (pm: PreconditionMap)
    ensures Collects(pm, KeptPairs(edges, nodes))
    ensures forall t :: t in pm ==> Distinct(pm[t])
    ensures forall s, t :: Listed(pm, s, t) <==> exists e :: e in edges && IsPrecondition(e, s, t, nodes)
  {
    pm := map[];
    for i := 0 to |edges|
      invariant Collects(pm, KeptPairs(edges[..i], nodes))
    {
      var e := edges[i];
      assert edges[..i + 1] == edges[..i] + [e];
      if Kept(e, nodes) {
        assert KeptPairs(edges[..i + 1], nodes) == KeptPairs(edges[..i], nodes) + {(e.source, e.target)};
        CollectOne(pm, KeptPairs(edges[..i], nodes), e.source, e.target);
        var known := if e.target in pm then pm[e.target] else [];
        if e.source !in known {
          pm := pm[e.target := known + [e.source]];
        }
      } else {
        assert KeptPairs(edges[..i + 1], nodes) == KeptPairs(edges[..i], nodes);
      }
    }
    assert edges[..|edges|] == edges;
    forall s, t ensures Listed(pm, s, t) <==> exists e :: e in edges && IsPrecondition(e, s, t, nodes) {
      KeptExactly(edges, nodes, s, t);
    }
  }

  // ----- which imported edges survive -----

  lemma PrefixedContains(prefix: string, id: string)
    requires 'l' !in prefix
    ensures Contains(prefix + id, LOOP_BACK) <==> Contains(id, LOOP_BACK)
  {
    var s, n := prefix + id, |prefix|;
    if i :| 0 <= i <= |s| && At(s, LOOP_BACK, i) {
      assert s[i] == s[i..i + |LOOP_BACK|][0] == 'l';
      assert i >= n;
      assert id[i - n..i - n + |LOOP_BACK|] == s[i..i + |LOOP_BACK|];
      assert At(id, LOOP_BACK, i - n);
    }
    if i :| 0 <= i <= |id| && At(id, LOOP_BACK, i) {
      assert s[n + i..n + i + |LOOP_BACK|] == id[i..i + |LOOP_BACK|];
      assert At(s, LOOP_BACK, n + i);
    }
  }

  /** The loop-back filter looks at port names, and imported ports are named
      after nodes: an imported edge, iteration edges included, is dropped only
      when one of its own node ids contains the marker. */
  lemma ImportedKept(e: Edge, nodes: set<string>)
    requires IsLoopBack(e) || e == Link(e.source, e.target)
    requires e.source in nodes && e.target in nodes
    ensures Kept(OnCanvas(e), nodes) <==> !Contains(e.source, LOOP_BACK) && !Contains(e.target, LOOP_BACK)
  {
    PrefixedContains("output-", e.source);
    PrefixedContains("input-", e.target);
  }

  // ----- one level of the export -----

  ghost function StepIds(es: seq<Entry>): set<string> {
    set e | e in es && e.Step? :: e.id
  }

  ghost function LoopIds(es: seq<Entry>): set<string> {
    set e | e in es && e.Loop? :: e.id
  }

  /** The entry written for a node: a step lists what the map holds for it, a
      loop the export of its own children. */
  ghost predicate Converted(e: Entry, edges: seq<Edge>, pm: PreconditionMap, d: Entry)
    decreases e
  {
    match e
    case Step(id, _) => d == Step(id, if id in pm then pm[id] else [])
    case Loop(id, body) =>
      d.Loop? && d.id == id && exists warned :: ExportedLevel(body, edges, Ids(body), d.body, warned)
    case Other(_) => false
  }

  /** All nodes of a level in turn; nodes that are neither steps nor loops are skipped. */
  ghost predicate ConvertedAll(nodes: seq<Entry>, edges: seq<Edge>, pm: PreconditionMap, out: seq<Entry>)
    decreases nodes, 0
  {
    if nodes == [] then out == []
    else
      var init, e := nodes[..|nodes| - 1], nodes[|nodes| - 1];
      if e.Other? then ConvertedAll(init, edges, pm, out)
      else
        && out != [] && Converted(e, edges, pm, out[|out| - 1])
        && ConvertedAll(init, edges, pm, out[..|out| - 1])
  }

  ghost predicate LevelFrom(nodes: seq<Entry>, edges: seq<Edge>, known: set<string>, pm: PreconditionMap,
                            out: seq<Entry>, result: seq<Entry>, warned: bool)
    decreases nodes, 1
  {
    && Collects(pm, KeptPairs(edges, known)) && ConvertedAll(nodes, edges, pm, out)
    && (UniqueIds(out) ==> SortOutcome(out, pm, result, warned) && (warned <==> !Sortable(out, pm)))
  }

  /** The export of one level: preconditions from the edges between known nodes,
      entries converted, then sorted. */
  ghost predicate ExportedLevel(nodes: seq<Entry>, edges: seq<Edge>, known: set<string>, result: seq<Entry>,
                                warned: bool)
    decreases nodes, 2
  {
    exists pm, out :: LevelFrom(nodes, edges, known, pm, out, result, warned)
  }

  /** `nodes` are the nodes of a level with their children, in graph order; what
      they list as preconditions is not looked at. At the top every node of the
      graph is known, in a container only its children. */
  method ExportLevel(nodes: seq<Entry>, edges: seq<Edge>, known: set<string>) returns (result: seq<Entry>, warned: bool)
    ensures ExportedLevel(nodes, edges, known, result, warned)
    decreases nodes
  {
    var pm := BuildPreconditionMap(edges, known);
    var out: seq<Entry> := [];
    for i := 0 to |nodes|
      invariant ConvertedAll(nodes[..i], edges, pm, out)
    {
      assert nodes[..i + 1][..i] == nodes[..i];
      match nodes[i] {
        case Step(id, _) =>
          out := out + [Step(id, if id in pm then pm[id] else [])];
          assert out[..|out| - 1] + [out[|out| - 1]] == out;
        case Loop(id, body) =>
          var steps, nestedWarned := ExportLevel(body, edges, Ids(body));
          ghost var before := out;
          out := out + [Loop(id, steps)];
          assert out[..|out| - 1] == before;
          assert Converted(nodes[i], edges, pm, out[|out| - 1]);
        case Other(_) =>
      }
    }
    assert nodes[..|nodes|] == nodes;
    result, warned := TopologicalSort(out, pm);
    assert LevelFrom(nodes, edges, known, pm, out, result, warned);
  }

  // ----- what one level of the export amounts to -----

  lemma {:induction false} ConvertedIds(nodes: seq<Entry>, edges: seq<Edge>, pm: PreconditionMap, out: seq<Entry>)
    requires ConvertedAll(nodes, edges, pm, out)
    ensures SameLevel(nodes, out)
    decreases |nodes|
  {
    if nodes != [] {
      var init, e := nodes[..|nodes| - 1], nodes[|nodes| - 1];
      assert nodes == init + [e];
      if e.Other? {
        ConvertedIds(init, edges, pm, out);
        LevelIds(init, e);
      } else {
        var rest, d := out[..|out| - 1], out[|out| - 1];
        ConvertedIds(init, edges, pm, rest);
        SameKind(e, edges, pm, d);
        assert out == rest + [d];
        SameLevelNext(init, e, rest, d);
      }
    }
  }

  /** The same steps and loops, and nothing besides. */
  ghost predicate SameLevel(nodes: seq<Entry>, out: seq<Entry>) {
    StepIds(out) == StepIds(nodes) && LoopIds(out) == LoopIds(nodes) && Ids(out) == StepIds(nodes) + LoopIds(nodes)
  }

  lemma SameLevelNext(init: seq<Entry>, e: Entry, rest: seq<Entry>, d: Entry)
    requires SameLevel(init, rest) && d.id == e.id && (d.Step? <==> e.Step?) && (d.Loop? <==> e.Loop?) && !e.Other?
    ensures SameLevel(init + [e], rest + [d])
  {
    LevelIds(init, e);
    LevelIds(rest, d);
  }

  lemma SameKind(e: Entry, edges: seq<Edge>, pm: PreconditionMap, d: Entry)
    requires Converted(e, edges, pm, d)
    ensures d.id == e.id && (d.Step? <==> e.Step?) && (d.Loop? <==> e.Loop?)
    ensures d.Step? ==> d.preconditions == Preconds(d, pm)
  {
  }

  lemma {:induction false} ConvertedLists(nodes: seq<Entry>, edges: seq<Edge>, pm: PreconditionMap, out: seq<Entry>)
    requires ConvertedAll(nodes, edges, pm, out)
    ensures forall d :: d in out && d.Step? ==> d.preconditions == Preconds(d, pm)
    decreases |nodes|
  {
    if nodes != [] {
      var init, e := nodes[..|nodes| - 1], nodes[|nodes| - 1];
      if e.Other? {
        ConvertedLists(init, edges, pm, out);
      } else {
        ConvertedLists(init, edges, pm, out[..|out| - 1]);
        assert out == out[..|out| - 1] + [out[|out| - 1]];
        SameKind(e, edges, pm, out[|out| - 1]);
      }
    }
  }

  lemma {:induction false} ConvertedUnique(nodes: seq<Entry>, edges: seq<Edge>, pm: PreconditionMap, out: seq<Entry>)
    requires ConvertedAll(nodes, edges, pm, out) && UniqueIds(nodes)
    ensures UniqueIds(out)
    decreases |nodes|
  {
    if nodes != [] {
      var init, e := nodes[..|nodes| - 1], nodes[|nodes| - 1];
      if e.Other? {
        ConvertedUnique(init, edges, pm, out);
      } else {
        var rest, d := out[..|out| - 1], out[|out| - 1];
        ConvertedUnique(init, edges, pm, rest);
        ConvertedIds(init, edges, pm, rest);
        assert nodes == init + [e] && out == rest + [d];
        SameKind(e, edges, pm, d);
        UniqueOut(init, e, rest, d);
      }
    }
  }

  lemma LevelIds(init: seq<Entry>, e: Entry)
    ensures StepIds(init + [e]) == StepIds(init) + if e.Step? then {e.id} else {}
    ensures LoopIds(init + [e]) == LoopIds(init) + if e.Loop? then {e.id} else {}
    ensures Ids(init + [e]) == Ids(init) + {e.id}
  {
    assert e in init + [e];
    assert forall d :: d in init ==> d in init + [e];
  }

  lemma UniqueOut(init: seq<Entry>, e: Entry, rest: seq<Entry>, d: Entry)
    requires UniqueIds(init + [e]) && UniqueIds(rest) && Ids(rest) == StepIds(init) + LoopIds(init) && d.id == e.id
    ensures UniqueIds(rest + [d])
  {
    forall f | f in init ensures f.id != e.id {
      var k :| 0 <= k < |init| && init[k] == f;
      assert (init + [e])[k].id != (init + [e])[|init|].id;
    }
    UniqueNext(rest, d);
  }

  /** The exported steps list exactly the sources of the kept edges into them. */
  ghost predicate Lists(es: seq<Entry>, W: Edges) {
    forall d, q :: d in es && d.Step? ==> (q in d.preconditions <==> (q, d.id) in W)
  }

  /** What a level becomes, W being the edges that count as preconditions of its
      steps: the same nodes, the warning exactly when W has a cycle or a source
      that is not written at this level, and otherwise an order along W. */
  ghost predicate LevelOutcome(nodes: seq<Entry>, W: Edges, result: seq<Entry>, warned: bool) {
    && StepIds(result) == StepIds(nodes) && LoopIds(result) == LoopIds(nodes) && UniqueIds(result)
    && Lists(result, W)
    && (warned <==> !(Acyclic(W) && forall x :: x in W ==> x.0 in StepIds(nodes) + LoopIds(nodes)))
    && (!warned ==> forall x :: x in W ==> Precedes(result, x.0, x.1))
  }

  lemma DependenciesAre(out: seq<Entry>, pm: PreconditionMap, K: Edges)
    requires Collects(pm, K)
    ensures Dependencies(out, pm) == Into(K, StepIds(out))
  {
  }

  lemma OutSortable(out: seq<Entry>, pm: PreconditionMap, K: Edges)
    requires Collects(pm, K)
    ensures Sortable(out, pm) <==>
      Acyclic(Into(K, StepIds(out))) && forall x :: x in Into(K, StepIds(out)) ==> x.0 in Ids(out)
  {
    DependenciesAre(out, pm, K);
    forall e | e in out ensures Distinct(Preconds(e, pm)) {
    }
    if forall x :: x in Into(K, StepIds(out)) ==> x.0 in Ids(out) {
      forall e | e in out ensures PreSet(e, pm) <= Ids(out) {
        forall q | q in PreSet(e, pm) ensures q in Ids(out) { assert (q, e.id) in Into(K, StepIds(out)); }
      }
    } else {
      var x :| x in Into(K, StepIds(out)) && x.0 !in Ids(out);
      var e :| e in out && e.Step? && e.id == x.1;
      assert x.0 in PreSet(e, pm);
    }
  }

  lemma SameEntries(a: seq<Entry>, b: seq<Entry>)
    requires multiset(a) == multiset(b)
    ensures |a| == |b| && forall e :: e in a <==> e in b
    ensures Ids(a) == Ids(b) && StepIds(a) == StepIds(b) && LoopIds(a) == LoopIds(b)
  {
    assert |multiset(a)| == |multiset(b)|;
    forall e ensures e in a <==> e in b {
      assert e in a <==> e in multiset(a);
      assert e in b <==> e in multiset(b);
    }
  }

  lemma {:induction false} UniqueCount(s: seq<Entry>, e: Entry)
    requires UniqueIds(s)
    ensures multiset(s)[e] <= 1
  {
    CountUnique(s, e);
  }

  lemma UniquePermuted(a: seq<Entry>, b: seq<Entry>)
    requires multiset(a) == multiset(b) && UniqueIds(b)
    ensures UniqueIds(a)
  {
    SameEntries(a, b);
    forall i, j | 0 <= i < j < |a| ensures a[i].id != a[j].id {
      if a[i].id == a[j].id {
        assert a[i] in b && a[j] in b;
        SameId(b, a[i], a[j]);
        UniqueCount(b, a[i]);
        TwiceCounted(a, i, j);
      }
    }
  }

  lemma TwiceCounted(a: seq<Entry>, i: nat, j: nat)
    requires i < j < |a| && a[i] == a[j]
    ensures multiset(a)[a[i]] >= 2
  {
    assert a == a[..i] + [a[i]] + a[i + 1..j] + [a[j]] + a[j + 1..];
  }

  lemma SortedLists(out: seq<Entry>, pm: PreconditionMap, K: Edges, result: seq<Entry>)
    requires Collects(pm, K) && (forall e :: e in result <==> e in out)
    requires forall d :: d in out && d.Step? ==> d.preconditions == Preconds(d, pm)
    ensures Lists(result, Into(K, StepIds(out)))
  {
  }

  lemma SortedAlong(out: seq<Entry>, pm: PreconditionMap, K: Edges, result: seq<Entry>)
    requires Collects(pm, K) && (forall e :: e in result <==> e in out) && Ordered(result, pm)
    ensures forall x :: x in Into(K, StepIds(out)) ==> Precedes(result, x.0, x.1)
  {
    forall x | x in Into(K, StepIds(out)) ensures Precedes(result, x.0, x.1) {
      var e :| e in out && e.Step? && e.id == x.1;
      var k :| 0 <= k < |result| && result[k] == e;
      assert x.0 in PreSet(e, pm);
      var d :| d in result[..k] && d.id == x.0;
    }
  }

  lemma SortedOut(out: seq<Entry>, pm: PreconditionMap, K: Edges, result: seq<Entry>, m: nat)
    requires ExecutionOrder(out, pm, result, m) && UniqueIds(out) && Collects(pm, K)
    requires forall d :: d in out && d.Step? ==> d.preconditions == Preconds(d, pm)
    ensures StepIds(result) == StepIds(out) && LoopIds(result) == LoopIds(out) && UniqueIds(result)
    ensures Lists(result, Into(K, StepIds(out)))
    ensures m == |result| ==> forall x :: x in Into(K, StepIds(out)) ==> Precedes(result, x.0, x.1)
  {
    SameEntries(result, out);
    UniquePermuted(result, out);
    SortedLists(out, pm, K, result);
    if m == |result| {
      assert result[..m] == result;
      SortedAlong(out, pm, K, result);
    }
  }

  lemma OutSorted(out: seq<Entry>, pm: PreconditionMap, K: Edges, result: seq<Entry>, warned: bool)
    requires SortOutcome(out, pm, result, warned) && (warned <==> !Sortable(out, pm))
    requires UniqueIds(out) && Ids(out) == StepIds(out) + LoopIds(out) && Collects(pm, K)
    requires forall d :: d in out && d.Step? ==> d.preconditions == Preconds(d, pm)
    ensures LevelOutcome(out, Into(K, StepIds(out)), result, warned)
  {
    var m: nat :| ExecutionOrder(out, pm, result, m) && (warned <==> m < |result|);
    SortedOut(out, pm, K, result, m);
    OutSortable(out, pm, K);
  }

  lemma SameOutcome(nodes: seq<Entry>, out: seq<Entry>, W: Edges, result: seq<Entry>, warned: bool)
    requires SameLevel(nodes, out) && LevelOutcome(out, W, result, warned)
    ensures LevelOutcome(nodes, W, result, warned)
  {
  }

  /** One level of the export, whatever the graph. */
  lemma LevelExported(nodes: seq<Entry>, edges: seq<Edge>, known: set<string>, result: seq<Entry>, warned: bool)
    requires UniqueIds(nodes) && ExportedLevel(nodes, edges, known, result, warned)
    ensures LevelOutcome(nodes, Into(KeptPairs(edges, known), StepIds(nodes)), result, warned)
  {
    var K := KeptPairs(edges, known);
    var pm, out :| LevelFrom(nodes, edges, known, pm, out, result, warned);
    ConvertedIds(nodes, edges, pm, out);
    ConvertedLists(nodes, edges, pm, out);
    ConvertedUnique(nodes, edges, pm, out);
    OutSorted(out, pm, K, result, warned);
    SameOutcome(nodes, out, Into(K, StepIds(out)), result, warned);
  }

  // ----- edges that never matter -----

  /** The two edge lists make the same preconditions, whichever nodes are known. */
  ghost predicate SamePreconditionEdges(E: seq<Edge>, F: seq<Edge>) {
    forall known :: KeptPairs(E, known) == KeptPairs(F, known)
  }

  lemma {:induction false} SameConverted(e: Entry, E: seq<Edge>, F: seq<Edge>, pm: PreconditionMap, d: Entry)
    requires SamePreconditionEdges(E, F) && Converted(e, E, pm, d)
    ensures Converted(e, F, pm, d)
    decreases e, 0, 0
  {
    if e.Loop? {
      var warned :| ExportedLevel(e.body, E, Ids(e.body), d.body, warned);
      SameExport(e.body, E, F, Ids(e.body), d.body, warned);
    }
  }

  lemma {:induction false} SameConvertedAll(nodes: seq<Entry>, E: seq<Edge>, F: seq<Edge>, pm: PreconditionMap,
                                            out: seq<Entry>)
    requires SamePreconditionEdges(E, F) && ConvertedAll(nodes, E, pm, out)
    ensures ConvertedAll(nodes, F, pm, out)
    decreases nodes, 0, |nodes|
  {
    if nodes != [] {
      var init, e := nodes[..|nodes| - 1], nodes[|nodes| - 1];
      assert e in nodes;
      if e.Other? {
        SameConvertedAll(init, E, F, pm, out);
      } else {
        SameConverted(e, E, F, pm, out[|out| - 1]);
        SameConvertedAll(init, E, F, pm, out[..|out| - 1]);
      }
    }
  }

  lemma {:induction false} SameExport(nodes: seq<Entry>, E: seq<Edge>, F: seq<Edge>, known: set<string>,
                                      result: seq<Entry>, warned: bool)
    requires SamePreconditionEdges(E, F) && ExportedLevel(nodes, E, known, result, warned)
    ensures ExportedLevel(nodes, F, known, result, warned)
    decreases nodes, 1, 0
  {
    var pm, out :| LevelFrom(nodes, E, known, pm, out, result, warned);
    SameConvertedAll(nodes, E, F, pm, out);
    assert KeptPairs(E, known) == KeptPairs(F, known);
    assert LevelFrom(nodes, F, known, pm, out, result, warned);
  }

  lemma DroppedPairs(before: seq<Edge>, e: Edge, after: seq<Edge>)
    requires e.condition.Failed? || e.condition.Skipped?
    ensures SamePreconditionEdges(before + [e] + after, before + after)
  {
    forall known ensures KeptPairs(before + [e] + after, known) == KeptPairs(before + after, known) {
      assert !Kept(e, known);
      assert forall d :: d in before + [e] + after <==> d in before + after || d == e;
    }
  }

  /** Drawing or removing a failed or skipped edge anywhere changes nothing in
      the export, at any depth. */
  lemma FailedEdgeIgnored(nodes: seq<Entry>, before: seq<Edge>, e: Edge, after: seq<Edge>, known: set<string>,
                          result: seq<Entry>, warned: bool)
    requires e.condition.Failed? || e.condition.Skipped?
    ensures ExportedLevel(nodes, before + [e] + after, known, result, warned)
       <==> ExportedLevel(nodes, before + after, known, result, warned)
  {
    DroppedPairs(before, e, after);
    if ExportedLevel(nodes, before + [e] + after, known, result, warned) {
      SameExport(nodes, before + [e] + after, before + after, known, result, warned);
    }
    if ExportedLevel(nodes, before + after, known, result, warned) {
      SameExport(nodes, before + after, before + [e] + after, known, result, warned);
    }
  }

  /** Two exports of one level agree on the warning and on what each step lists. */
  lemma SameLists(nodes: seq<Entry>, edges: seq<Edge>, known: set<string>, r1: seq<Entry>, w1: bool,
                  r2: seq<Entry>, w2: bool)
    requires UniqueIds(nodes)
    requires ExportedLevel(nodes, edges, known, r1, w1) && ExportedLevel(nodes, edges, known, r2, w2)
    ensures w1 == w2
    ensures forall d, f :: d in r1 && f in r2 && d.Step? && f.Step? && d.id == f.id ==>
      forall q :: q in d.preconditions <==> q in f.preconditions
  {
    LevelExported(nodes, edges, known, r1, w1);
    LevelExported(nodes, edges, known, r2, w2);
  }

  // ----- import followed by export -----

  function Canvas(edges: seq<Edge>): seq<Edge> {
    seq(|edges|, i requires 0 <= i < |edges| => OnCanvas(edges[i]))
  }

  /** The edges between known nodes neither of whose ids holds the marker. */
  ghost function Unmarked(E: Edges, known: set<string>): Edges {
    set x | x in E && x.0 in known && x.1 in known && !Contains(x.0, LOOP_BACK) && !Contains(x.1, LOOP_BACK)
  }

  ghost predicate AllImported(edges: seq<Edge>) {
    forall e :: e in edges ==> IsLoopBack(e) || e == Link(e.source, e.target)
  }

  lemma KeptOnCanvas(edges: seq<Edge>, known: set<string>)
    requires AllImported(edges)
    ensures KeptPairs(Canvas(edges), known) == Unmarked(Pairs(edges), known)
  {
    forall x | x in KeptPairs(Canvas(edges), known) ensures x in Unmarked(Pairs(edges), known) {
      KeptIsUnmarked(edges, known, x);
    }
    forall x | x in Unmarked(Pairs(edges), known) ensures x in KeptPairs(Canvas(edges), known) {
      UnmarkedIsKept(edges, known, x);
    }
  }

  lemma KeptIsUnmarked(edges: seq<Edge>, known: set<string>, x: (string, string))
    requires AllImported(edges) && x in KeptPairs(Canvas(edges), known)
    ensures x in Unmarked(Pairs(edges), known)
  {
    var d :| d in Canvas(edges) && Kept(d, known) && (d.source, d.target) == x;
    var i :| 0 <= i < |edges| && d == OnCanvas(edges[i]);
    ImportedKept(edges[i], known);
    assert edges[i] in edges;
  }

  lemma UnmarkedIsKept(edges: seq<Edge>, known: set<string>, x: (string, string))
    requires AllImported(edges) && x in Unmarked(Pairs(edges), known)
    ensures x in KeptPairs(Canvas(edges), known)
  {
    var e :| e in edges && (e.source, e.target) == x;
    var i :| 0 <= i < |edges| && edges[i] == e;
    ImportedKept(e, known);
    assert Canvas(edges)[i] in Canvas(edges);
  }

  /** The ids that get a node: those of steps and loops at every depth. */
  ghost function EntryNodeIds(e: Entry): set<string> {
    match e
    case Step(id, _) => {id}
    case Loop(id, body) => {id} + PlanNodeIds(body)
    case Other(_) => {}
  }

  ghost function PlanNodeIds(steps: seq<Entry>): set<string> {
    if steps == [] then {} else EntryNodeIds(steps[0]) + PlanNodeIds(steps[1..])
  }

  ghost function GraphIds(steps: seq<Entry>, hasVariables: bool): set<string> {
    PlanNodeIds(steps) + if hasVariables then {VARIABLES_NODE.id} else {}
  }

  ghost function NodeIds(nodes: seq<Node>): set<string> {
    set n | n in nodes :: n.id
  }

  lemma {:induction false} CountedIds(steps: seq<Entry>, x: string)
    ensures x in PlanNodeIds(steps) <==> PlanNodes(steps, Node(x, StepNode)) + PlanNodes(steps, Node(x, LoopNode)) > 0
    ensures PlanNodes(steps, Node(x, VariablesNode)) == 0
    decreases steps
  {
    if steps != [] {
      CountedIds(steps[1..], x);
      if steps[0].Loop? { CountedIds(steps[0].body, x); }
    }
  }

  lemma ImportedIds(steps: seq<Entry>, hasVariables: bool, nodes: seq<Node>)
    requires forall n ::
      multiset(nodes)[n] == PlanNodes(steps, n) + if hasVariables && n == VARIABLES_NODE then 1 else 0
    ensures NodeIds(nodes) == GraphIds(steps, hasVariables)
  {
    forall x | x in NodeIds(nodes) ensures x in GraphIds(steps, hasVariables) {
      CountedIds(steps, x);
      var n :| n in nodes && n.id == x;
      assert multiset(nodes)[n] > 0;
      match n.kind
      case StepNode => assert n == Node(x, StepNode);
      case LoopNode => assert n == Node(x, LoopNode);
      case VariablesNode => assert n == Node(x, VariablesNode);
    }
    forall x | x in GraphIds(steps, hasVariables) ensures x in NodeIds(nodes) {
      CountedIds(steps, x);
      if x in PlanNodeIds(steps) {
        var n := if PlanNodes(steps, Node(x, StepNode)) > 0 then Node(x, StepNode) else Node(x, LoopNode);
        assert n in multiset(nodes);
      }
      if hasVariables && x == VARIABLES_NODE.id { assert VARIABLES_NODE in multiset(nodes); }
    }
  }

  /** A level of the canvas shows these entries: the same steps and loops, in any
      order, next to nodes of other kinds. */
  ghost predicate Shows(nodes: seq<Entry>, steps: seq<Entry>) {
    UniqueIds(nodes) && StepIds(nodes) == StepIds(steps) && LoopIds(nodes) == LoopIds(steps)
  }

  /** The wiring that reaches the steps of the plan: between nodes whose ids do
      not hold the marker. */
  ghost function TopWiring(steps: seq<Entry>, known: set<string>): Edges {
    Into(Unmarked(WiringPairs(steps), known), StepIds(steps))
  }

  /** Whatever counts as a precondition of a top-level step is a top-level step or loop. */
  ghost predicate SourcesAtTop(steps: seq<Entry>, known: set<string>) {
    forall x :: x in TopWiring(steps, known) ==> x.0 in StepIds(steps) + LoopIds(steps)
  }

  /** What an import leaves on the canvas. */
  ghost predicate ImportedEdges(steps: seq<Entry>, childEdges: seq<Edge>, topEdges: seq<Edge>) {
    && UniquePlan(steps) && Pairs(topEdges) == WiringPairs(steps)
    && (forall e :: e in topEdges ==> e == Link(e.source, e.target))
    && (forall e :: e in childEdges ==> ChildEdge(steps, e))
    && (forall k :: 0 <= k < |steps| ==> EntryWired(steps[k], Pairs(childEdges + topEdges)))
  }

  lemma TopKept(steps: seq<Entry>, childEdges: seq<Edge>, topEdges: seq<Edge>, known: set<string>)
    requires ImportedEdges(steps, childEdges, topEdges)
    ensures Into(KeptPairs(Canvas(childEdges + topEdges), known), StepIds(steps)) == TopWiring(steps, known)
  {
    KeptOnCanvas(childEdges + topEdges, known);
    PairsOfAppend(childEdges, topEdges);
    NestedApart(steps);
    assert StepIds(steps) <= Ids(steps);
    forall x | x in Pairs(childEdges) ensures x.1 !in StepIds(steps) {
    }
  }

  /** The synthesised edges never cause the warning: only the plan's own
      preconditions can close a cycle. */
  lemma TopWiringAcyclic(steps: seq<Entry>, known: set<string>)
    requires UniqueIds(steps)
    ensures Acyclic(TopWiring(steps, known)) <==> Acyclic(Unmarked(PreconditionPairs(steps), known))
  {
    WiringSubset(steps, TopWiring(steps, known));
    assert TopWiring(steps, known) * PreconditionPairs(steps) == Unmarked(PreconditionPairs(steps), known) by {
      forall x | x in PreconditionPairs(steps) ensures x.1 in StepIds(steps) {
      }
    }
  }

  /** A plan imported and exported again, its top-level nodes read in any order. */
  method ReExport(steps: seq<Entry>, hasVariables: bool, nodes: seq<Entry>)
    returns (edges: seq<Edge>, result: seq<Entry>, warned: bool)
    requires UniquePlan(steps) && !BodyAtDepth(steps, MAX_LOOP_DEPTH + 1) && Shows(nodes, steps)
    ensures exists childEdges, topEdges ::
      ImportedEdges(steps, childEdges, topEdges) && edges == Canvas(childEdges + topEdges)
    ensures ExportedLevel(nodes, edges, GraphIds(steps, hasVariables), result, warned)
    // exported steps list what they named and the free entry before them
    ensures LevelOutcome(steps, TopWiring(steps, GraphIds(steps, hasVariables)), result, warned)
    // the warning, in terms of the plan
    ensures var known := GraphIds(steps, hasVariables);
      warned <==> !(Acyclic(Unmarked(PreconditionPairs(steps), known)) && SourcesAtTop(steps, known))
  {
    var g := ImportPlan(steps, hasVariables);
    var known := set n | n in g.nodes :: n.id;
    ImportedIds(steps, hasVariables, g.nodes);
    assert known == NodeIds(g.nodes);
    edges := Canvas(g.childEdges + g.topEdges);
    assert ImportedEdges(steps, g.childEdges, g.topEdges);
    result, warned := ExportLevel(nodes, edges, known);
    LevelExported(nodes, edges, known, result, warned);
    TopKept(steps, g.childEdges, g.topEdges, known);
    UniqueLevel(steps);
    TopWiringAcyclic(steps, known);
  }

  // ----- the bodies of loops -----

  /** B is the body of a loop of the plan, at any depth. */
  ghost predicate BodyIn(steps: seq<Entry>, B: seq<Entry>) {
    exists i :: 0 <= i < |steps| && EntryHasBody(steps[i], B)
  }

  ghost predicate EntryHasBody(e: Entry, B: seq<Entry>) {
    match e
    case Loop(_, body) => body == B || BodyIn(body, B)
    case _ => false
  }

  lemma {:induction false} BodyFacts(steps: seq<Entry>, B: seq<Entry>, E: Edges)
    requires UniquePlan(steps) && BodyIn(steps, B) && forall k :: 0 <= k < |steps| ==> EntryWired(steps[k], E)
    ensures UniquePlan(B) && DeepWired(B, E)
    decreases steps
  {
    UniqueLevel(steps);
    var i :| 0 <= i < |steps| && EntryHasBody(steps[i], B);
    assert steps[i] in steps && UniqueEntry(steps[i]) && EntryWired(steps[i], E);
    var body := steps[i].body;
    assert DeepWired(body, E);
    if body != B { BodyFacts(body, B, E); }
  }

  /** Its children: the steps and loops of the body. */
  ghost function Children(B: seq<Entry>): set<string> {
    StepIds(B) + LoopIds(B)
  }

  /** What counts as a precondition inside the body: its own preconditions between
      children, and the iteration edge. */
  ghost function BodyWiring(B: seq<Entry>, order: seq<Entry>): Edges {
    Unmarked(PreconditionPairs(B) + BackPairs(order), Children(B))
  }

  lemma BodyKept(B: seq<Entry>, edges: seq<Edge>, order: seq<Entry>)
    requires AllImported(edges) && LevelWired(B, Pairs(edges), order)
    ensures Into(KeptPairs(Canvas(edges), Children(B)), StepIds(B)) == BodyWiring(B, order)
  {
    KeptOnCanvas(edges, Children(B));
    OrderPermutes(B, order);
    SortedSteps(B, order);
    forall x | x in PreconditionPairs(B) + BackPairs(order) ensures x.1 in StepIds(B) {
      if x in BackPairs(order) { assert order[0] in order; }
    }
    assert StepIds(B) <= Ids(B);
  }

  lemma ImportedShapes(steps: seq<Entry>, childEdges: seq<Edge>, topEdges: seq<Edge>)
    requires ImportedEdges(steps, childEdges, topEdges)
    ensures AllImported(childEdges + topEdges)
  {
  }

  /** A loop body of an imported plan, exported again with its children in any
      order: it warns exactly when its preconditions and the iteration edge
      together have a cycle, and is otherwise ordered along both. */
  lemma LoopReExported(steps: seq<Entry>, childEdges: seq<Edge>, topEdges: seq<Edge>, B: seq<Entry>,
                       nodes: seq<Entry>, result: seq<Entry>, warned: bool) returns (order: seq<Entry>)
    requires ImportedEdges(steps, childEdges, topEdges) && BodyIn(steps, B)
    requires Shows(nodes, B) && Ids(nodes) == Children(B)
    requires ExportedLevel(nodes, Canvas(childEdges + topEdges), Ids(nodes), result, warned)
    ensures UniqueIds(B) && BodyOrder(B, order) && LevelOutcome(B, BodyWiring(B, order), result, warned)
    ensures |order| >= 2 ==> EndsIn(B, order)
    ensures warned <==> !Acyclic(BodyWiring(B, order))
  {
    var edges := childEdges + topEdges;
    BodyFacts(steps, B, Pairs(edges));
    UniqueLevel(B);
    order :| LevelWired(B, Pairs(edges), order);
    ImportedShapes(steps, childEdges, topEdges);
    BodyKept(B, edges, order);
    LevelExported(nodes, Canvas(edges), Ids(nodes), result, warned);
    if |order| >= 2 { BodyEnds(B, order); }
  }

  /** The last entry is put before the first, which lists it. */
  ghost predicate WaitsFor(result: seq<Entry>, first: string, last: string) {
    Precedes(result, last, first) && forall d :: d in result && d.Step? && d.id == first ==> last in d.preconditions
  }

  /** What the iteration edge does to a body of two steps or more: unless an end
      holds the marker, the first step comes to list the last. The sort then warns
      when the last depends on the first, and otherwise puts the last before it. */
  lemma IterationEdgeCounts(B: seq<Entry>, order: seq<Entry>, result: seq<Entry>, warned: bool)
    requires |order| >= 2 && EndsIn(B, order) && LevelOutcome(B, BodyWiring(B, order), result, warned)
    requires !Contains(order[0].id, LOOP_BACK) && !Contains(order[|order| - 1].id, LOOP_BACK)
    ensures var first, last := order[0].id, order[|order| - 1].id;
      var own := Unmarked(PreconditionPairs(B), Children(B));
      && (warned <==> !Acyclic(own) || Reach(own, first, last))
      && (!warned ==> WaitsFor(result, first, last))
      && (forall d :: d in result && d.Step? && d.id == first ==> last in d.preconditions)
  {
    var first, last, own := order[0].id, order[|order| - 1].id, Unmarked(PreconditionPairs(B), Children(B));
    BodyWiringIs(B, order);
    assert (last, first) in BodyWiring(B, order);
    OneMoreEdge(own, last, first);
    SourcesAreChildren(B, order);
  }

  lemma BodyWiringIs(B: seq<Entry>, order: seq<Entry>)
    requires |order| >= 2 && EndsIn(B, order)
    requires !Contains(order[0].id, LOOP_BACK) && !Contains(order[|order| - 1].id, LOOP_BACK)
    ensures BodyWiring(B, order) == Unmarked(PreconditionPairs(B), Children(B)) + {(order[|order| - 1].id, order[0].id)}
  {
    UnmarkedPlus(PreconditionPairs(B), Children(B), (order[|order| - 1].id, order[0].id));
  }

  /** The ends of the order are two different children. */
  ghost predicate EndsIn(B: seq<Entry>, order: seq<Entry>)
    requires order != []
  {
    var first, last := order[0].id, order[|order| - 1].id;
    first in Children(B) && last in Children(B) && first != last
  }

  lemma BodyEnds(B: seq<Entry>, order: seq<Entry>)
    requires UniqueIds(B) && BodyOrder(B, order) && |order| >= 2
    ensures EndsIn(B, order)
  {
    OrderPermutes(B, order);
    UniqueSteps(B);
    PermutedEnds(StepsOf(B), order);
    StepEnds(B, order);
  }

  lemma PermutedEnds(own: seq<Entry>, order: seq<Entry>)
    requires UniqueIds(own) && multiset(order) == multiset(own) && |order| >= 2
    ensures order[0] in own && order[|order| - 1] in own && order[0].id != order[|order| - 1].id
  {
    SameEntries(order, own);
    UniquePermuted(order, own);
  }

  lemma StepEnds(B: seq<Entry>, order: seq<Entry>)
    requires |order| >= 2 && order[0].id != order[|order| - 1].id
    requires order[0] in StepsOf(B) && order[|order| - 1] in StepsOf(B)
    ensures EndsIn(B, order)
  {
    PartsOf(B);
  }

  lemma UnmarkedPlus(E: Edges, known: set<string>, x: (string, string))
    requires x.0 in known && x.1 in known && !Contains(x.0, LOOP_BACK) && !Contains(x.1, LOOP_BACK)
    ensures Unmarked(E + {x}, known) == Unmarked(E, known) + {x}
  {
  }

  lemma OneMoreEdge(E: Edges, s: string, t: string)
    ensures Acyclic(E + {(s, t)}) <==> Acyclic(E) && !Reach(E, t, s)
  {
    if Acyclic(E) {
      AddEdgeAcyclic(E, s, t);
    } else if Acyclic(E + {(s, t)}) {
      AcyclicSubset(E + {(s, t)}, E);
    }
  }

  lemma SourcesAreChildren(B: seq<Entry>, order: seq<Entry>)
    ensures forall x :: x in BodyWiring(B, order) ==> x.0 in StepIds(B) + LoopIds(B)
  {
  }

  lemma {:induction false} AllFree(es: seq<Entry>, pm: PreconditionMap)
    requires forall e :: e in es ==> Preconds(e, pm) == []
    ensures FreeOf(es, pm) == es
  {
    if es != [] { AllFree(es[..|es| - 1], pm); }
  }

  /** Entries without preconditions are left as they were. */
  lemma FreeOrder(own: seq<Entry>, pm: PreconditionMap, order: seq<Entry>)
    requires multiset(order) == multiset(own) && FreeOf(own, pm) <= order
    requires forall e :: e in own ==> Preconds(e, pm) == []
    ensures order == own
  {
    AllFree(own, pm);
    SameEntries(order, own);
  }

  lemma FreeSteps(B: seq<Entry>)
    requires UniqueIds(B) && forall e :: e in B && e.Step? ==> e.preconditions == []
    ensures forall e :: e in StepsOf(B) ==> Preconds(e, OwnMap(B)) == []
  {
    PartsOf(B);
    forall e | e in StepsOf(B) ensures Preconds(e, OwnMap(B)) == [] { OwnMapPreconds(B, e); }
  }

  lemma NothingOwned(B: seq<Entry>, a: string, b: string)
    requires a != b && forall e :: e in B && e.Step? ==> e.preconditions == []
    ensures var own := Unmarked(PreconditionPairs(B), Children(B)); Acyclic(own) && !Reach(own, a, b)
  {
    var own := Unmarked(PreconditionPairs(B), Children(B));
    assert own == {};
    RankedAcyclic(own, map[]);
    Unreached(own, a, b);
  }

  lemma FreeBodyReordered(B: seq<Entry>, order: seq<Entry>, result: seq<Entry>, warned: bool)
    requires |order| >= 2 && EndsIn(B, order) && LevelOutcome(B, BodyWiring(B, order), result, warned)
    requires forall e :: e in B && e.Step? ==> e.preconditions == []
    requires !Contains(order[0].id, LOOP_BACK) && !Contains(order[|order| - 1].id, LOOP_BACK)
    ensures !warned && WaitsFor(result, order[0].id, order[|order| - 1].id)
  {
    NothingOwned(B, order[0].id, order[|order| - 1].id);
    IterationEdgeCounts(B, order, result, warned);
  }

  /** The first and the last of two steps or more of a body, as written. */
  ghost predicate StepsFromTo(B: seq<Entry>, first: string, last: string) {
    var own := StepsOf(B);
    |own| >= 2 && own[0].id == first && own[|own| - 1].id == last
  }

  lemma FreeBodyEnds(B: seq<Entry>, order: seq<Entry>, first: string, last: string)
    requires UniqueIds(B) && BodyOrder(B, order) && StepsFromTo(B, first, last)
    requires forall e :: e in B && e.Step? ==> e.preconditions == []
    ensures |order| >= 2 && order[0].id == first && order[|order| - 1].id == last
  {
    FreeSteps(B);
    FreeEnds(StepsOf(B), OwnMap(B), order, first, last);
  }

  lemma FreeEnds(own: seq<Entry>, pm: PreconditionMap, order: seq<Entry>, first: string, last: string)
    requires multiset(order) == multiset(own) && FreeOf(own, pm) <= order
    requires forall e :: e in own ==> Preconds(e, pm) == []
    requires |own| >= 2 && own[0].id == first && own[|own| - 1].id == last
    ensures |order| >= 2 && order[0].id == first && order[|order| - 1].id == last
  {
    FreeOrder(own, pm, order);
  }

  /** So a loop over independent steps always comes back with its first step
      waiting for its last. */
  lemma FreeLoopReordered(steps: seq<Entry>, childEdges: seq<Edge>, topEdges: seq<Edge>, B: seq<Entry>, first: string,
                          last: string, nodes: seq<Entry>, result: seq<Entry>, warned: bool)
    requires ImportedEdges(steps, childEdges, topEdges) && BodyIn(steps, B)
    requires Shows(nodes, B) && Ids(nodes) == Children(B)
    requires ExportedLevel(nodes, Canvas(childEdges + topEdges), Ids(nodes), result, warned)
    requires StepsFromTo(B, first, last) && forall e :: e in B && e.Step? ==> e.preconditions == []
    requires !Contains(first, LOOP_BACK) && !Contains(last, LOOP_BACK)
    ensures !warned && WaitsFor(result, first, last)
  {
    var order := LoopReExported(steps, childEdges, topEdges, B, nodes, result, warned);
    FreeBodyEnds(B, order, first, last);
    FreeBodyReordered(B, order, result, warned);
  }

  lemma Unmarkable(x: string)
    requires |x| < |LOOP_BACK|
    ensures !Contains(x, LOOP_BACK)
  {
  }

  /** At an input: a loop over steps a and b comes back with b listed under a. */
  lemma TwoStepLoop(childEdges: seq<Edge>, topEdges: seq<Edge>, nodes: seq<Entry>, result: seq<Entry>, warned: bool)
    requires ImportedEdges([Loop("L", [Step("a", []), Step("b", [])])], childEdges, topEdges)
    requires Shows(nodes, [Step("a", []), Step("b", [])]) && Ids(nodes) == {"a", "b"}
    requires ExportedLevel(nodes, Canvas(childEdges + topEdges), Ids(nodes), result, warned)
    ensures !warned && WaitsFor(result, "a", "b")
  {
    var B := [Step("a", []), Step("b", [])];
    var steps := [Loop("L", B)];
    assert EntryHasBody(steps[0], B);
    TwoSteps(B);
    Unmarkable("a");
    Unmarkable("b");
    FreeLoopReordered(steps, childEdges, topEdges, B, "a", "b", nodes, result, warned);
  }

  lemma TwoSteps(B: seq<Entry>)
    requires |B| == 2 && B[0].Step? && B[1].Step?
    ensures StepsOf(B) == B && Children(B) == {B[0].id, B[1].id}
  {
    assert B[..1] == [B[0]] && [B[0]][..0] == [];
    assert StepsOf([B[0]]) == [B[0]];
    assert B[0] in B && B[1] in B;
  }

  // ----- every loop of the result is such an export -----

  /** d is the export of the children of loop e. */
  ghost predicate LoopExport(e: Entry, edges: seq<Edge>, d: Entry) {
    e.Loop? && d.Loop? && e.id == d.id && exists w :: ExportedLevel(e.body, edges, Ids(e.body), d.body, w)
  }

  lemma LoopConverted(e: Entry, edges: seq<Edge>, pm: PreconditionMap, d: Entry)
    requires Converted(e, edges, pm, d) && d.Loop?
    ensures LoopExport(e, edges, d)
  {
    match e
    case Loop(id, body) =>
      var w :| ExportedLevel(body, edges, Ids(body), d.body, w);
  }

  lemma {:induction false} LoopsConverted(nodes: seq<Entry>, edges: seq<Edge>, pm: PreconditionMap, out: seq<Entry>,
                                          d: Entry)
    requires ConvertedAll(nodes, edges, pm, out) && d in out && d.Loop?
    ensures exists e :: e in nodes && LoopExport(e, edges, d)
    decreases |nodes|
  {
    var init, e := nodes[..|nodes| - 1], nodes[|nodes| - 1];
    if !e.Other? && d == out[|out| - 1] {
      LoopConverted(e, edges, pm, d);
      assert e in nodes;
    } else {
      LoopsConverted(init, edges, pm, if e.Other? then out else out[..|out| - 1], d);
      assert forall f :: f in init ==> f in nodes;
    }
  }

  /** The loops of an exported level are exports of their own children, so the
      results above hold at every depth. */
  lemma ResultLoops(nodes: seq<Entry>, edges: seq<Edge>, known: set<string>, result: seq<Entry>, warned: bool, d: Entry)
    requires UniqueIds(nodes) && ExportedLevel(nodes, edges, known, result, warned) && d in result && d.Loop?
    ensures exists e :: e in nodes && LoopExport(e, edges, d)
  {
    var pm, out :| LevelFrom(nodes, edges, known, pm, out, result, warned);
    ConvertedUnique(nodes, edges, pm, out);
    SameEntries(result, out);
    LoopsConverted(nodes, edges, pm, out, d);
  }
}
