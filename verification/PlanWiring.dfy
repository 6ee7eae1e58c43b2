/** The top-level edges the importer builds: one per precondition, plus
    synthesised edges between neighbours of the plan. */
module PlanWiring {
  import opened Graphs
  import opened Plans

  /** The edge condition; `Unset` stands for an edge without one. */
  datatype Condition = Unset | Passed | Failed | Any | Skipped

  /** A port left empty is filled in when the edge is put on the canvas. */
  datatype Edge = Edge(source: string, target: string, sourcePort: string, targetPort: string, condition: Condition)

  function Link(source: string, target: string): Edge {
    Edge(source, target, "", "", Passed)
  }

  ghost function Pairs(edges: seq<Edge>): Edges {
    set e | e in edges :: (e.source, e.target)
  }

  lemma PairsOfAppend(a: seq<Edge>, b: seq<Edge>)
    ensures Pairs(a + b) == Pairs(a) + Pairs(b)
  {
    forall x | x in Pairs(a) + Pairs(b) ensures x in Pairs(a + b) {
      var e :| (e in a || e in b) && (e.source, e.target) == x;
      assert e in a + b;
    }
  }

  /** Loops, other entries, and steps without preconditions. */
  predicate Free(e: Entry) {
    e.Step? ==> e.preconditions == []
  }

  ghost function PreconditionPairs(steps: seq<Entry>): Edges {
    set e, p | e in steps && e.Step? && p in e.preconditions :: (p, e.id)
  }

  ghost function SequentialPairs(steps: seq<Entry>): Edges {
    set i | 0 <= i < |steps| - 1 && Free(steps[i]) :: (steps[i].id, steps[i + 1].id)
  }

  ghost function WiringPairs(steps: seq<Entry>): Edges {
    PreconditionPairs(steps) + SequentialPairs(steps)
  }

  /** What is wired: each step to the preconditions it names, and each entry to
      the next unless it is a step that names some. */
  lemma WiringMeans(steps: seq<Entry>, a: string, b: string)
    ensures (a, b) in WiringPairs(steps) <==>
      || (exists e :: e in steps && e.Step? && e.id == b && a in e.preconditions)
      || (exists i :: 0 <= i < |steps| - 1 && steps[i].id == a && steps[i + 1].id == b
                      && (steps[i].Loop? || steps[i].Other? || steps[i].preconditions == []))
  {
    if (a, b) in SequentialPairs(steps) {
      var i :| 0 <= i < |steps| - 1 && Free(steps[i]) && (steps[i].id, steps[i + 1].id) == (a, b);
      assert steps[i].id == a;
    }
    if i :| 0 <= i < |steps| - 1 && steps[i].id == a && steps[i + 1].id == b
            && (steps[i].Loop? || steps[i].Other? || steps[i].preconditions == [])
    {
      SequentialMember(steps, i);
    }
  }

  ghost predicate Bound(steps: seq<Entry>, x: string) {
    exists e :: e in steps && e.id == x && !Free(e)
  }

  lemma PreconditionBinds(steps: seq<Entry>, a: string, b: string)
    ensures (a, b) in PreconditionPairs(steps) ==> Bound(steps, b)
  {
  }

  lemma SequentialMember(steps: seq<Entry>, i: nat)
    requires i + 1 < |steps| && Free(steps[i])
    ensures (steps[i].id, steps[i + 1].id) in SequentialPairs(steps)
  {
  }

  /** An edge that is not a precondition edge joins neighbours and leaves a free entry. */
  lemma SequentialEdge(steps: seq<Entry>, a: string, b: string) returns (i: nat)
    requires UniqueIds(steps) && (a, b) in WiringPairs(steps)
    requires (a, b) !in PreconditionPairs(steps) || !Bound(steps, b)
    ensures i + 1 < |steps| && steps[i].id == a && steps[i + 1].id == b && !Bound(steps, a)
  {
    PreconditionBinds(steps, a, b);
    i :| 0 <= i < |steps| - 1 && Free(steps[i]) && (steps[i].id, steps[i + 1].id) == (a, b);
    forall e | e in steps && e.id == a ensures Free(e) {
      var k :| 0 <= k < |steps| && steps[k] == e;
      assert k == i;
    }
  }

  lemma SameIndex(steps: seq<Entry>, i: nat, j: nat)
    requires UniqueIds(steps) && i < |steps| && j < |steps| && steps[i].id == steps[j].id
    ensures i == j
  {
  }

  lemma ShorterPath(E: Edges, p: seq<string>)
    requires Path(E, p) && |p| >= 2
    ensures Path(E, p[..|p| - 1]) && (p[|p| - 2], p[|p| - 1]) in E
  {
    var q := p[..|p| - 1];
    assert Path(E, q);
  }

  /** The path runs along consecutive plan positions from i. */
  ghost predicate AlongPlan(steps: seq<Entry>, p: seq<string>, i: nat) {
    |p| >= 1 && i + |p| <= |steps| && steps[i].id == p[0] && steps[i + |p| - 1].id == p[|p| - 1]
  }

  /** Edges of W into unbound entries join neighbours and leave unbound ones. */
  ghost predicate FollowsPlan(steps: seq<Entry>, W: Edges) {
    forall a, b :: (a, b) in W && !Bound(steps, b) ==> !Bound(steps, a) && exists i :: NextTo(steps, i, a, b)
  }

  ghost predicate NextTo(steps: seq<Entry>, i: nat, a: string, b: string) {
    i + 1 < |steps| && steps[i].id == a && steps[i + 1].id == b
  }

  lemma WiringFollows(steps: seq<Entry>)
    requires UniqueIds(steps)
    ensures FollowsPlan(steps, WiringPairs(steps))
  {
    forall a, b | (a, b) in WiringPairs(steps) && !Bound(steps, b)
      ensures !Bound(steps, a) && exists i :: NextTo(steps, i, a, b)
    {
      var i := SequentialEdge(steps, a, b);
      assert NextTo(steps, i, a, b);
    }
  }

  /** A path that ends in an unbound entry only follows the order of the plan. */
  lemma {:induction false} BackAlongPlan(steps: seq<Entry>, W: Edges, p: seq<string>) returns (i: nat)
    requires UniqueIds(steps) && FollowsPlan(steps, W) && Path(W, p) && |p| >= 2 && !Bound(steps, p[|p| - 1])
    ensures !Bound(steps, p[0]) && AlongPlan(steps, p, i)
    decreases |p|
  {
    var n := |p|;
    ShorterPath(W, p);
    var k: nat :| NextTo(steps, k, p[n - 2], p[n - 1]);
    if n == 2 {
      i := k;
    } else {
      var q := p[..n - 1];
      i := BackAlongPlan(steps, W, q);
      OneFurther(steps, q, i, k, p[n - 1]);
      assert p == q + [p[n - 1]];
    }
  }

  lemma OneFurther(steps: seq<Entry>, q: seq<string>, i: nat, k: nat, x: string)
    requires UniqueIds(steps) && AlongPlan(steps, q, i)
    requires k + 1 < |steps| && steps[k].id == q[|q| - 1] && steps[k + 1].id == x
    ensures AlongPlan(steps, q + [x], i)
  {
    SameIndex(steps, i + |q| - 1, k);
  }

  lemma MorePaths(E: Edges, F: Edges, p: seq<string>)
    requires E <= F && Path(E, p)
    ensures Path(F, p)
  {
  }

  /** An edge of a cycle that is no precondition puts the whole cycle along the
      plan, where it cannot close. */
  lemma NoWayBack(steps: seq<Entry>, c: seq<string>, k: nat)
    requires UniqueIds(steps) && |c| >= 2 && c[0] == c[|c| - 1] && k + 1 < |c|
    requires (c[k], c[k + 1]) in WiringPairs(steps) && (c[k], c[k + 1]) !in PreconditionPairs(steps)
    ensures !Path(WiringPairs(steps), c)
  {
    if Path(WiringPairs(steps), c) {
      var j := SequentialEdge(steps, c[k], c[k + 1]);
      WiringFollows(steps);
      if k > 0 {
        Prefix(WiringPairs(steps), c, k);
        var h := BackAlongPlan(steps, WiringPairs(steps), c[..k + 1]);
      }
      var i := BackAlongPlan(steps, WiringPairs(steps), c);
    }
  }

  lemma Prefix(E: Edges, c: seq<string>, k: nat)
    requires Path(E, c) && k < |c|
    ensures Path(E, c[..k + 1])
  {
  }

  /** Whichever edges of the wiring are taken, the synthesised ones among them
      add no cycle of their own. */
  lemma WiringSubset(steps: seq<Entry>, W: Edges)
    requires UniqueIds(steps) && W <= WiringPairs(steps)
    ensures Acyclic(W) <==> Acyclic(W * PreconditionPairs(steps))
  {
    var P := W * PreconditionPairs(steps);
    if Acyclic(W) { AcyclicSubset(W, P); }
    if Acyclic(P) {
      forall c ensures !Cycle(W, c) {
        if Cycle(W, c) {
          assert !Cycle(P, c);
          var k :| 0 <= k < |c| - 1 && (c[k], c[k + 1]) !in P;
          assert (c[k], c[k + 1]) in W;
          MorePaths(W, WiringPairs(steps), c);
          NoWayBack(steps, c, k);
        }
      }
    }
  }

  /** The synthesised sequential edges never add a cycle of their own. */
  lemma WiringAcyclic(steps: seq<Entry>)
    requires UniqueIds(steps)
    ensures Acyclic(WiringPairs(steps)) <==> Acyclic(PreconditionPairs(steps))
  {
    WiringSubset(steps, WiringPairs(steps));
    assert WiringPairs(steps) * PreconditionPairs(steps) == PreconditionPairs(steps);
  }

  /** Unique ids are needed: an id used again after free entries closes a cycle,
      whatever the preconditions are. */
  lemma RepeatedIdCycle(steps: seq<Entry>, i: nat, j: nat)
    requires i < j < |steps| && steps[i].id == steps[j].id && forall k :: i <= k < j ==> Free(steps[k])
    ensures !Acyclic(WiringPairs(steps))
  {
    SequentialMember(steps, i);
    ReachAlong(steps, i + 1, j);
    EdgeBack(WiringPairs(steps), steps[i].id, steps[i + 1].id);
  }

  lemma {:induction false} ReachAlong(steps: seq<Entry>, i: nat, j: nat)
    requires i <= j < |steps| && forall k :: i <= k < j ==> Free(steps[k])
    ensures Reach(WiringPairs(steps), steps[i].id, steps[j].id)
    decreases j - i
  {
    if i == j {
      ReachSelf(WiringPairs(steps), steps[i].id);
    } else {
      SequentialMember(steps, i);
      ReachAlong(steps, i + 1, j);
      ReachEdge(WiringPairs(steps), steps[i].id, steps[i + 1].id, steps[j].id);
    }
  }

  lemma EdgeBack(E: Edges, a: string, b: string)
    requires (a, b) in E && Reach(E, b, a)
    ensures !Acyclic(E)
  {
    var p :| PathBetween(E, p, b, a);
    var c := [a] + p;
    forall i | 0 <= i < |c| - 1 ensures (c[i], c[i + 1]) in E {
      if i > 0 { assert c[i] == p[i - 1] && c[i + 1] == p[i]; }
    }
    assert Cycle(E, c);
  }

  predicate Connected(edges: seq<Edge>, a: string, b: string) {
    exists e :: e in edges && e.source == a && e.target == b
  }

  lemma PreconditionsSnoc(steps: seq<Entry>, i: nat)
    requires i < |steps|
    ensures PreconditionPairs(steps[..i + 1]) == PreconditionPairs(steps[..i]) + PreconditionPairs([steps[i]])
  {
    assert steps[..i + 1] == steps[..i] + [steps[i]];
    forall x | x in PreconditionPairs(steps[..i]) + PreconditionPairs([steps[i]])
      ensures x in PreconditionPairs(steps[..i + 1])
    {
      var e, p :| (e in steps[..i] || e in [steps[i]]) && e.Step? && p in e.preconditions && (p, e.id) == x;
      assert e in steps[..i + 1];
    }
  }

  /** The first wiring loop: one edge for every precondition of every step. */
  method WirePreconditions(steps: seq<Entry>) returns (edges: seq<Edge>)
    ensures forall e :: e in edges ==> e == Link(e.source, e.target)
    ensures Pairs(edges) == PreconditionPairs(steps)
    ensures |edges| == PreconditionCount(steps)
  {
    edges := [];
    for i := 0 to |steps|
      invariant forall e :: e in edges ==> e == Link(e.source, e.target)
      invariant Pairs(edges) == PreconditionPairs(steps[..i])
      invariant |edges| + PreconditionCount(steps[i..]) == PreconditionCount(steps)
    {
      assert steps[i..][1..] == steps[i + 1..];
      PreconditionsSnoc(steps, i);
      if steps[i].Step? {
        var more := StepLinks(steps[i].id, steps[i].preconditions);
        PairsOfAppend(edges, more);
        edges := edges + more;
      }
    }
    assert steps[..|steps|] == steps;
  }

  method StepLinks(target: string, ps: seq<string>) returns (edges: seq<Edge>)
    ensures forall e :: e in edges ==> e == Link(e.source, target)
    ensures Pairs(edges) == PreconditionPairs([Step(target, ps)])
    ensures |edges| == |ps|
  {
    edges := [];
    for j := 0 to |ps|
      invariant |edges| == j
      invariant forall k :: 0 <= k < j ==> edges[k] == Link(ps[k], target)
    {
      edges := edges + [Link(ps[j], target)];
    }
    var e := Step(target, ps);
    forall x | x in PreconditionPairs([e]) ensures x in Pairs(edges) {
      var k :| 0 <= k < |ps| && ps[k] == x.0;
      assert edges[k] in edges;
    }
    forall x | x in Pairs(edges) ensures x in PreconditionPairs([e]) {
      var k :| 0 <= k < |edges| && (edges[k].source, edges[k].target) == x;
      assert e in [e] && ps[k] in e.preconditions;
    }
  }

  function PreconditionCount(steps: seq<Entry>): nat {
    if steps == [] then 0
    else (if steps[0].Step? then |steps[0].preconditions| else 0) + PreconditionCount(steps[1..])
  }

  ghost predicate Wired(steps: seq<Entry>, edges: seq<Edge>, i: nat) {
    forall k :: 0 <= k < i && k + 1 < |steps| && Free(steps[k]) ==> Connected(edges, steps[k].id, steps[k + 1].id)
  }

  /** The second wiring loop: neighbours are joined when the first of them is
      free and nothing joins them yet. Edges of loop bodies pushed earlier count. */
  method WireSequence(steps: seq<Entry>, childEdges: seq<Edge>, preconditionEdges: seq<Edge>) returns (top: seq<Edge>)
    requires forall e :: e in preconditionEdges ==> e == Link(e.source, e.target)
    requires Pairs(preconditionEdges) == PreconditionPairs(steps)
    ensures forall e :: e in top ==> e == Link(e.source, e.target)
    ensures Pairs(top) <= WiringPairs(steps) <= Pairs(childEdges) + Pairs(top)
  {
    top := preconditionEdges;
    for i := 0 to |steps|
      invariant preconditionEdges <= top
      invariant forall e :: e in top ==> e == Link(e.source, e.target)
      invariant Pairs(top) <= WiringPairs(steps)
      invariant Wired(steps, childEdges + top, i)
    {
      if i + 1 < |steps| {
        var current, next := steps[i], steps[i + 1];
        ghost var before := top;
        if !Connected(childEdges + top, current.id, next.id) && Free(current) {
          if current.Step? && next.Step? && current.id in next.preconditions {
            PreconditionLinked(steps, preconditionEdges, childEdges + top, i);
          } else {
            SequentialMember(steps, i);
            PairsOfAppend(top, [Link(current.id, next.id)]);
            top := top + [Link(current.id, next.id)];
            assert top[|top| - 1] in childEdges + top;
          }
        }
        StillWired(steps, childEdges + before, childEdges + top, i);
      }
    }
    PairsOfAppend(childEdges, top);
    WiredAll(steps, childEdges + top, preconditionEdges);
  }

  lemma StillWired(steps: seq<Entry>, a: seq<Edge>, b: seq<Edge>, i: nat)
    requires Wired(steps, a, i) && a <= b
    ensures Wired(steps, b, i)
  {
    assert forall e :: e in a ==> e in b;
  }

  lemma PreconditionLinked(steps: seq<Entry>, pre: seq<Edge>, all: seq<Edge>, i: nat)
    requires Pairs(pre) == PreconditionPairs(steps) && forall e :: e in pre ==> e in all
    requires i + 1 < |steps| && steps[i + 1].Step? && steps[i].id in steps[i + 1].preconditions
    ensures Connected(all, steps[i].id, steps[i + 1].id)
  {
    assert (steps[i].id, steps[i + 1].id) in PreconditionPairs(steps);
  }

  lemma WiredAll(steps: seq<Entry>, all: seq<Edge>, pre: seq<Edge>)
    requires Wired(steps, all, |steps|) && Pairs(pre) == PreconditionPairs(steps)
    requires forall e :: e in pre ==> e in all
    ensures WiringPairs(steps) <= Pairs(all)
  {
    forall x | x in SequentialPairs(steps) ensures x in Pairs(all) {
      var i :| 0 <= i < |steps| - 1 && Free(steps[i]) && (steps[i].id, steps[i + 1].id) == x;
      assert Connected(all, steps[i].id, steps[i + 1].id);
    }
  }
}
