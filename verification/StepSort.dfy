/** Kahn's algorithm as the serializer runs it over plan entries.

    `topologicalSort` and `topologicalSortSteps` differ only in the entry type,
    so one method models both. */
module StepSort {
  import opened Graphs
  import opened Plans

  type PreconditionMap = map<string, seq<string>>

  /** Only steps have preconditions; loops and other entries start with in-degree 0. */
  function Preconds(e: Entry, pm: PreconditionMap): seq<string> {
    if e.Step? && e.id in pm then pm[e.id] else []
  }

  ghost function PreSet(e: Entry, pm: PreconditionMap): set<string> {
    set p | p in Preconds(e, pm)
  }

  /** The dependency graph: an edge from every precondition to the step that names it. */
  ghost function Dependencies(steps: seq<Entry>, pm: PreconditionMap): Edges {
    set e, p | e in steps && p in Preconds(e, pm) :: (p, e.id)
  }

  /** Reasons a step can never become ready: it is missing, it names a
      precondition twice, or it lies on a cycle. */
  ghost predicate Trouble(steps: seq<Entry>, pm: PreconditionMap, x: string) {
    || x !in Ids(steps)
    || (exists e :: e in steps && e.id == x && !Distinct(Preconds(e, pm)))
    || (exists c :: Cycle(Dependencies(steps, pm), c) && c[0] == x)
  }

  /** x depends, directly or not, on something that can never become ready. */
  ghost predicate Blocked(steps: seq<Entry>, pm: PreconditionMap, x: string) {
    exists y :: Trouble(steps, pm, y) && Reach(Dependencies(steps, pm), y, x)
  }

  function LeftOver(steps: seq<Entry>, done: set<string>): seq<Entry> {
    if steps == [] then []
    else (if steps[0].id in done then [] else [steps[0]]) + LeftOver(steps[1..], done)
  }

  /** Every entry of order stands after all of its preconditions. */
  ghost predicate Ordered(order: seq<Entry>, pm: PreconditionMap) {
    forall k :: 0 <= k < |order| ==> PreSet(order[k], pm) <= Ids(order[..k])
  }

  /** An entry with id a stands before one with id b. */
  ghost predicate Precedes(s: seq<Entry>, a: string, b: string) {
    exists i, j :: 0 <= i < j < |s| && s[i].id == a && s[j].id == b
  }

  /** The entries without preconditions, in input order. */
  function FreeOf(steps: seq<Entry>, pm: PreconditionMap): seq<Entry> {
    if steps == [] then []
    else
      var e := steps[|steps| - 1];
      FreeOf(steps[..|steps| - 1], pm) + if Preconds(e, pm) == [] then [e] else []
  }

  /** What the sort promises: a permutation whose first m entries are exactly
      the unblocked ones, each after all of its preconditions, followed by the
      blocked ones in input order. Entries without preconditions come first, in
      input order. */
  ghost predicate ExecutionOrder(steps: seq<Entry>, pm: PreconditionMap, result: seq<Entry>, m: nat) {
    && m <= |result|
    && multiset(result) == multiset(steps)
    && Ordered(result[..m], pm)
    && (forall k :: 0 <= k < |result| ==> (k < m <==> !Blocked(steps, pm, result[k].id)))
    && result[m..] == LeftOver(steps, Ids(result[..m]))
    && FreeOf(steps, pm) <= result
  }

  /** Such an order, with a warning exactly when something is left over. */
  ghost predicate SortOutcome(steps: seq<Entry>, pm: PreconditionMap, result: seq<Entry>, warned: bool) {
    exists m: nat :: ExecutionOrder(steps, pm, result, m) && (warned <==> m < |result|)
  }

  // ----- the in-degree counter -----

  /** The in-degree left once the ids in done are counted off. A name that is
      listed twice is counted off only once. */
  ghost function Remaining(ps: seq<string>, done: set<string>): nat {
    if ps == [] then 0
    else (if ps[0] in done && ps[0] !in ps[1..] then 0 else 1) + Remaining(ps[1..], done)
  }

  ghost function Degree(e: Entry, pm: PreconditionMap, done: set<string>): nat {
    Remaining(Preconds(e, pm), done)
  }

  lemma {:induction false} RemainingNone(ps: seq<string>)
    ensures Remaining(ps, {}) == |ps|
  {
    if ps != [] { RemainingNone(ps[1..]); }
  }

  lemma {:induction false} RemainingStep(ps: seq<string>, done: set<string>, cur: string)
    requires cur !in done
    ensures Remaining(ps, done + {cur}) == Remaining(ps, done) - (if cur in ps then 1 else 0)
  {
    if ps != [] { RemainingStep(ps[1..], done, cur); }
  }

  lemma {:induction false} RemainingZero(ps: seq<string>, done: set<string>)
    ensures Remaining(ps, done) == 0 <==> (forall p :: p in ps ==> p in done) && Distinct(ps)
  {
    if ps != [] {
      RemainingZero(ps[1..], done);
      DistinctCons(ps[0], ps[1..]);
      assert ps == [ps[0]] + ps[1..];
    }
  }

  lemma DegreeZero(e: Entry, pm: PreconditionMap, done: set<string>)
    ensures Degree(e, pm, done) == 0 <==> PreSet(e, pm) <= done && Distinct(Preconds(e, pm))
  {
    RemainingZero(Preconds(e, pm), done);
    if Degree(e, pm, done) == 0 {
      forall p | p in PreSet(e, pm) ensures p in done {}
    } 
  }

  // ----- what the placed prefix says about blocking -----

  /** Entries of placed come from steps, in dependency order. */
  ghost predicate Placed(steps: seq<Entry>, pm: PreconditionMap, placed: seq<Entry>) {
    && UniqueIds(steps) && UniqueIds(placed)
    && (forall k :: 0 <= k < |placed| ==> placed[k] in steps)
    && Ordered(placed, pm)
    && (forall k :: 0 <= k < |placed| ==> Distinct(Preconds(placed[k], pm)))
  }

  /** Nothing that is not placed is ready: the state in which the main loop stops. */
  ghost predicate Exhausted(steps: seq<Entry>, pm: PreconditionMap, done: set<string>) {
    forall e :: e in steps && e.id !in done ==> !(PreSet(e, pm) <= done && Distinct(Preconds(e, pm)))
  }

  lemma IndexOfId(steps: seq<Entry>, x: string) returns (k: nat)
    requires x in Ids(steps)
    ensures k < |steps| && steps[k].id == x
  {
    var e :| e in steps && e.id == x;
    k :| 0 <= k < |steps| && steps[k] == e;
  }

  lemma SameId(steps: seq<Entry>, a: Entry, b: Entry)
    requires UniqueIds(steps) && a in steps && b in steps && a.id == b.id
    ensures a == b
  {
  }

  lemma DependencyOf(steps: seq<Entry>, pm: PreconditionMap, q: string, e: Entry)
    requires UniqueIds(steps) && e in steps
    ensures (q, e.id) in Dependencies(steps, pm) <==> q in PreSet(e, pm)
  {
    if (q, e.id) in Dependencies(steps, pm) {
      var d, r :| d in steps && r in Preconds(d, pm) && (r, d.id) == (q, e.id);
      SameId(steps, d, e);
    }
  }

  /** Walking back from a placed entry only meets entries placed before it. */
  lemma {:induction false} BackFromPlaced(steps: seq<Entry>, pm: PreconditionMap, placed: seq<Entry>,
                                          k: nat, p: seq<string>) returns (j: nat)
    requires Placed(steps, pm, placed) && k < |placed|
    requires Path(Dependencies(steps, pm), p) && p[|p| - 1] == placed[k].id
    ensures j <= k && placed[j].id == p[0]
    ensures |p| >= 2 ==> j < k
    decreases |p|
  {
    var n := |p|;
    if n == 1 {
      j := k;
    } else {
      assert (p[n - 2], p[n - 1]) in Dependencies(steps, pm);
      DependencyOf(steps, pm, p[n - 2], placed[k]);
      var i := IndexOfId(placed[..k], p[n - 2]);
      assert Path(Dependencies(steps, pm), p[..n - 1]);
      j := BackFromPlaced(steps, pm, placed, i, p[..n - 1]);
    }
  }

  lemma PlacedNoTrouble(steps: seq<Entry>, pm: PreconditionMap, placed: seq<Entry>, j: nat)
    requires Placed(steps, pm, placed) && j < |placed|
    ensures !Trouble(steps, pm, placed[j].id)
  {
    var y := placed[j].id;
    forall e | e in steps && e.id == y ensures Distinct(Preconds(e, pm)) {
      SameId(steps, e, placed[j]);
    }
    forall c ensures !(Cycle(Dependencies(steps, pm), c) && c[0] == y) {
      if Cycle(Dependencies(steps, pm), c) && c[0] == y {
        var i := BackFromPlaced(steps, pm, placed, j, c);
      }
    }
  }

  lemma PlacedNotBlocked(steps: seq<Entry>, pm: PreconditionMap, placed: seq<Entry>, k: nat)
    requires Placed(steps, pm, placed) && k < |placed|
    ensures !Blocked(steps, pm, placed[k].id)
  {
    var D := Dependencies(steps, pm);
    forall y | Reach(D, y, placed[k].id) ensures !Trouble(steps, pm, y) {
      var p :| PathBetween(D, p, y, placed[k].id);
      var j := BackFromPlaced(steps, pm, placed, k, p);
      PlacedNoTrouble(steps, pm, placed, j);
    }
  }

  lemma BlockedForward(steps: seq<Entry>, pm: PreconditionMap, q: string, x: string)
    requires (q, x) in Dependencies(steps, pm) && Blocked(steps, pm, q)
    ensures Blocked(steps, pm, x)
  {
    var D := Dependencies(steps, pm);
    var y :| Trouble(steps, pm, y) && Reach(D, y, q);
    ReachSelf(D, x);
    ReachEdge(D, q, x, x);
    ReachTrans(D, y, q, x);
  }

  lemma TroubleIsBlocked(steps: seq<Entry>, pm: PreconditionMap, x: string)
    requires Trouble(steps, pm, x)
    ensures Blocked(steps, pm, x)
  {
    ReachSelf(Dependencies(steps, pm), x);
  }

  /** An unplaced entry that is not blocked waits for another such entry. */
  lemma UnblockedWaits(steps: seq<Entry>, pm: PreconditionMap, done: set<string>, e: Entry) returns (q: string)
    requires UniqueIds(steps) && Exhausted(steps, pm, done)
    requires e in steps && e.id !in done && !Blocked(steps, pm, e.id)
    ensures (q, e.id) in Dependencies(steps, pm)
    ensures q in Ids(steps) && q !in done && !Blocked(steps, pm, q)
  {
    if Trouble(steps, pm, e.id) { TroubleIsBlocked(steps, pm, e.id); }
    q :| q in PreSet(e, pm) && q !in done;
    DependencyOf(steps, pm, q, e);
    if Blocked(steps, pm, q) { BlockedForward(steps, pm, q, e.id); }
    if q !in Ids(steps) { TroubleIsBlocked(steps, pm, q); }
  }

  lemma UnplacedBlocked(steps: seq<Entry>, pm: PreconditionMap, done: set<string>)
    requires UniqueIds(steps) && Exhausted(steps, pm, done)
    ensures forall e :: e in steps && e.id !in done ==> Blocked(steps, pm, e.id)
  {
    var D := Dependencies(steps, pm);
    var U := set x | x in Ids(steps) && x !in done && !Blocked(steps, pm, x);
    forall x | x in U ensures HasPredecessor(D, U, x) {
      var e :| e in steps && e.id == x;
      var q := UnblockedWaits(steps, pm, done, e);
    }
    if U != {} {
      var c := NoSourceMeansCycle(D, U);
      TroubleIsBlocked(steps, pm, c[0]);
    }
    forall e | e in steps && e.id !in done ensures Blocked(steps, pm, e.id) {
      assert e.id !in U;
    }
  }

  /** Nothing is blocked: every precondition is listed, none is named twice,
      and the dependencies are acyclic. */
  ghost predicate Sortable(steps: seq<Entry>, pm: PreconditionMap) {
    && (forall e :: e in steps ==> PreSet(e, pm) <= Ids(steps) && Distinct(Preconds(e, pm)))
    && Acyclic(Dependencies(steps, pm))
  }

  lemma {:induction false} SourcesListed(steps: seq<Entry>, pm: PreconditionMap, p: seq<string>)
    requires forall e :: e in steps ==> PreSet(e, pm) <= Ids(steps)
    requires Path(Dependencies(steps, pm), p) && p[|p| - 1] in Ids(steps)
    ensures p[0] in Ids(steps)
  {
    if |p| >= 2 {
      assert (p[0], p[1]) in Dependencies(steps, pm);
      var e, q :| e in steps && q in Preconds(e, pm) && (q, e.id) == (p[0], p[1]);
      assert q in PreSet(e, pm);
    }
  }

  lemma CycleIsListed(steps: seq<Entry>, pm: PreconditionMap, c: seq<string>) returns (e: Entry)
    requires Cycle(Dependencies(steps, pm), c)
    ensures e in steps && e.id == c[0]
  {
    var n := |c|;
    assert (c[n - 2], c[n - 1]) in Dependencies(steps, pm);
    var q;
    e, q :| e in steps && q in Preconds(e, pm) && (q, e.id) == (c[n - 2], c[n - 1]);
  }

  lemma SortableUnblocked(steps: seq<Entry>, pm: PreconditionMap)
    requires UniqueIds(steps) && Sortable(steps, pm)
    ensures forall e :: e in steps ==> !Blocked(steps, pm, e.id)
  {
    var D := Dependencies(steps, pm);
    forall e | e in steps ensures !Blocked(steps, pm, e.id) {
      forall y | Reach(D, y, e.id) ensures !Trouble(steps, pm, y) {
        var p :| PathBetween(D, p, y, e.id);
        SourcesListed(steps, pm, p);
      }
    }
  }

  lemma UnblockedSortable(steps: seq<Entry>, pm: PreconditionMap)
    requires UniqueIds(steps) && forall e :: e in steps ==> !Blocked(steps, pm, e.id)
    ensures Sortable(steps, pm)
  {
    forall e | e in steps ensures PreSet(e, pm) <= Ids(steps) && Distinct(Preconds(e, pm)) {
      if !Distinct(Preconds(e, pm)) { TroubleIsBlocked(steps, pm, e.id); }
      forall q | q in PreSet(e, pm) ensures q in Ids(steps) {
        if q !in Ids(steps) {
          TroubleIsBlocked(steps, pm, q);
          DependencyOf(steps, pm, q, e);
          BlockedForward(steps, pm, q, e.id);
        }
      }
    }
    forall c ensures !Cycle(Dependencies(steps, pm), c) {
      if Cycle(Dependencies(steps, pm), c) {
        var e := CycleIsListed(steps, pm, c);
        TroubleIsBlocked(steps, pm, e.id);
      }
    }
  }

  // ----- the final list -----

  lemma IdsOfAppend(a: seq<Entry>, b: seq<Entry>)
    ensures Ids(a + b) == Ids(a) + Ids(b)
  {
    forall x | x in Ids(a) + Ids(b) ensures x in Ids(a + b) {
      var e :| (e in a || e in b) && e.id == x;
      assert e in a + b;
    }
  }

  lemma {:induction false} LeftOverParts(steps: seq<Entry>, done: set<string>)
    ensures forall e :: e in LeftOver(steps, done) <==> e in steps && e.id !in done
  {
    if steps != [] { LeftOverParts(steps[1..], done); }
  }

  /** A placed prefix plus the leftovers uses every entry once. */
  lemma {:induction false} LeftOverPermutes(steps: seq<Entry>, placed: seq<Entry>)
    requires UniqueIds(steps) && UniqueIds(placed)
    requires forall k :: 0 <= k < |placed| ==> placed[k] in steps
    ensures multiset(placed + LeftOver(steps, Ids(placed))) == multiset(steps)
  {
    var rest := LeftOver(steps, Ids(placed));
    forall e ensures multiset(placed + rest)[e] == multiset(steps)[e] {
      CountUnique(steps, e);
      CountUnique(placed, e);
      LeftOverCount(steps, Ids(placed), e);
      if e in steps && e.id in Ids(placed) {
        var k := IndexOfId(placed, e.id);
        SameId(steps, e, placed[k]);
      }
    }
  }

  lemma {:induction false} CountUnique(s: seq<Entry>, e: Entry)
    requires UniqueIds(s)
    ensures multiset(s)[e] == if e in s then 1 else 0
  {
    if s != [] {
      CountUnique(s[1..], e);
      assert s == [s[0]] + s[1..];
      assert s[0] !in s[1..];
    }
  }

  lemma {:induction false} LeftOverCount(s: seq<Entry>, done: set<string>, e: Entry)
    ensures multiset(LeftOver(s, done))[e] == if e.id in done then 0 else multiset(s)[e]
  {
    if s != [] {
      LeftOverCount(s[1..], done, e);
      assert s == [s[0]] + s[1..];
    }
  }

  lemma LeftOverOrder(steps: seq<Entry>, pm: PreconditionMap, placed: seq<Entry>)
    requires Placed(steps, pm, placed) && Exhausted(steps, pm, Ids(placed)) && FreeOf(steps, pm) <= placed
    ensures ExecutionOrder(steps, pm, placed + LeftOver(steps, Ids(placed)), |placed|)
  {
    var result := placed + LeftOver(steps, Ids(placed));
    var m := |placed|;
    assert result[..m] == placed && result[m..] == LeftOver(steps, Ids(placed));
    LeftOverPermutes(steps, placed);
    LeftOverParts(steps, Ids(placed));
    UnplacedBlocked(steps, pm, Ids(placed));
    forall k | 0 <= k < |result| ensures k < m <==> !Blocked(steps, pm, result[k].id) {
      if k < m {
        PlacedNotBlocked(steps, pm, placed, k);
      } else {
        assert result[k] in LeftOver(steps, Ids(placed));
      }
    }
  }

  // ----- the sort -----

  /** Under unique ids, the relation between the counters, the queue and the
      output between two rounds of the main loop. */
  ghost predicate Counters(steps: seq<Entry>, pm: PreconditionMap, deg: map<string, int>,
                           queue: seq<string>, done: set<string>)
    requires Ids(steps) <= deg.Keys
  {
    && Distinct(queue) && (forall q :: q in queue ==> q !in done)
    && (forall i :: 0 <= i < |steps| ==> deg[steps[i].id] == Degree(steps[i], pm, done))
    && (forall i :: 0 <= i < |steps| ==> (deg[steps[i].id] == 0 <==> steps[i].id in done || steps[i].id in queue))
  }

  ghost function Waiting(deg: map<string, int>): set<string> {
    set x | x in deg && deg[x] > 0
  }

  /** Initial in-degrees and the id lookup. */
  method InDegrees(steps: seq<Entry>, pm: PreconditionMap)
    returns (stepMap: map<string, Entry>, deg: map<string, int>)
    ensures stepMap.Keys == deg.Keys == Ids(steps)
    ensures UniqueIds(steps) ==> Initialised(steps, |steps|, pm, stepMap, deg)
  {
    stepMap, deg := map[], map[];
    for i := 0 to |steps|
      invariant stepMap.Keys == deg.Keys == Ids(steps[..i])
      invariant UniqueIds(steps) ==> Initialised(steps, i, pm, stepMap, deg)
    {
      var x, n := steps[i].id, |Preconds(steps[i], pm)|;
      IdsSnoc(steps, i);
      if UniqueIds(steps) { NextInitialised(steps, i, pm, stepMap, deg); }
      stepMap, deg := stepMap[x := steps[i]], deg[x := n];
    }
    assert steps[..|steps|] == steps;
  }

  lemma IdsSnoc(steps: seq<Entry>, i: nat)
    requires i < |steps|
    ensures Ids(steps[..i + 1]) == Ids(steps[..i]) + {steps[i].id}
  {
    assert steps[..i + 1] == steps[..i] + [steps[i]];
    IdsOfAppend(steps[..i], [steps[i]]);
    assert Ids([steps[i]]) == {steps[i].id};
  }

  /** The first i entries are entered in both maps. */
  ghost predicate Initialised(steps: seq<Entry>, i: nat, pm: PreconditionMap, stepMap: map<string, Entry>,
                              deg: map<string, int>)
    requires i <= |steps|
  {
    forall k :: 0 <= k < i ==> Entered(steps[k], pm, stepMap, deg)
  }

  ghost predicate Entered(e: Entry, pm: PreconditionMap, stepMap: map<string, Entry>, deg: map<string, int>) {
    e.id in stepMap && e.id in deg && stepMap[e.id] == e && deg[e.id] == |Preconds(e, pm)|
  }

  lemma NextInitialised(steps: seq<Entry>, i: nat, pm: PreconditionMap, stepMap: map<string, Entry>,
                        deg: map<string, int>)
    requires UniqueIds(steps) && i < |steps| && Initialised(steps, i, pm, stepMap, deg)
    ensures Initialised(steps, i + 1, pm, stepMap[steps[i].id := steps[i]],
                        deg[steps[i].id := |Preconds(steps[i], pm)|])
  {
    forall k | 0 <= k < i
      ensures Entered(steps[k], pm, stepMap[steps[i].id := steps[i]], deg[steps[i].id := |Preconds(steps[i], pm)|])
    {
      assert Entered(steps[k], pm, stepMap, deg) && steps[k].id != steps[i].id;
    }
  }

  function Names(steps: seq<Entry>): seq<string> {
    seq(|steps|, i requires 0 <= i < |steps| => steps[i].id)
  }

  /** The ids with counter 0, in input order. */
  function ReadyIds(steps: seq<Entry>, deg: map<string, int>): seq<string>
    requires Ids(steps) <= deg.Keys
  {
    if steps == [] then []
    else
      var init, e := steps[..|steps| - 1], steps[|steps| - 1];
      assert forall d :: d in init ==> d in steps;
      assert e in steps;
      ReadyIds(init, deg) + if deg[e.id] == 0 then [e.id] else []
  }

  lemma {:induction false} ReadyIsFree(steps: seq<Entry>, pm: PreconditionMap, deg: map<string, int>)
    requires Ids(steps) <= deg.Keys
    requires forall k :: 0 <= k < |steps| ==> deg[steps[k].id] == |Preconds(steps[k], pm)|
    ensures ReadyIds(steps, deg) == Names(FreeOf(steps, pm))
    ensures forall e :: e in FreeOf(steps, pm) ==> e in steps
  {
    FreeMembers(steps, pm);
    if steps != [] {
      var init, e := steps[..|steps| - 1], steps[|steps| - 1];
      assert forall d :: d in init ==> d in steps;
      ReadyIsFree(init, pm, deg);
      assert deg[e.id] == |Preconds(e, pm)|;
      NamesSnoc(FreeOf(init, pm), e);
    }
  }

  lemma {:induction false} FreeMembers(steps: seq<Entry>, pm: PreconditionMap)
    ensures forall e :: e in FreeOf(steps, pm) ==> e in steps
  {
    if steps != [] { FreeMembers(steps[..|steps| - 1], pm); }
  }

  lemma NamesSnoc(steps: seq<Entry>, e: Entry)
    ensures Names(steps + [e]) == Names(steps) + [e.id]
  {
  }

  /** What was queued first has been placed first. */
  lemma FreeFirst(steps: seq<Entry>, pm: PreconditionMap, placed: seq<Entry>)
    requires UniqueIds(steps) && (forall k :: 0 <= k < |placed| ==> placed[k] in steps)
    requires (forall e :: e in FreeOf(steps, pm) ==> e in steps) && Names(FreeOf(steps, pm)) <= Names(placed)
    ensures FreeOf(steps, pm) <= placed
  {
    var free := FreeOf(steps, pm);
    forall k | 0 <= k < |free| ensures free[k] == placed[k] {
      assert Names(free)[k] == Names(placed)[k];
      SameId(steps, free[k], placed[k]);
    }
  }

  lemma {:induction false} ReadyMembers(steps: seq<Entry>, deg: map<string, int>)
    requires Ids(steps) <= deg.Keys
    ensures forall q :: q in ReadyIds(steps, deg) <==> q in Ids(steps) && deg[q] == 0
  {
    if steps != [] {
      var init, e := steps[..|steps| - 1], steps[|steps| - 1];
      assert steps == init + [e];
      IdsOfAppend(init, [e]);
      assert Ids([e]) == {e.id};
      ReadyMembers(init, deg);
    }
  }

  lemma {:induction false} ReadyDistinct(steps: seq<Entry>, deg: map<string, int>)
    requires Ids(steps) <= deg.Keys && UniqueIds(steps)
    ensures Distinct(ReadyIds(steps, deg))
  {
    if steps != [] {
      var init, e := steps[..|steps| - 1], steps[|steps| - 1];
      assert steps == init + [e];
      IdsOfAppend(init, [e]);
      ReadyDistinct(init, deg);
      ReadyMembers(init, deg);
      forall d | d in init ensures d.id != e.id {
        var k :| 0 <= k < |init| && init[k] == d;
        assert steps[k] == d;
      }
    }
  }

  /** The ids that start ready, in input order. */
  method InitialQueue(steps: seq<Entry>, deg: map<string, int>) returns (queue: seq<string>)
    requires deg.Keys == Ids(steps)
    ensures queue == ReadyIds(steps, deg)
    ensures forall q :: q in queue <==> q in Ids(steps) && deg[q] == 0
    ensures UniqueIds(steps) ==> Distinct(queue)
  {
    queue := [];
    for i := 0 to |steps|
      invariant Ids(steps[..i]) <= deg.Keys
      invariant queue == ReadyIds(steps[..i], deg)
    {
      assert steps[..i + 1] == steps[..i] + [steps[i]] && steps[..i + 1][..i] == steps[..i];
      IdsOfAppend(steps[..i], [steps[i]]);
      if deg[steps[i].id] == 0 {
        queue := queue + [steps[i].id];
      }
    }
    assert steps[..|steps|] == steps;
    ReadyMembers(steps, deg);
    if UniqueIds(steps) { ReadyDistinct(steps, deg); }
  }

  /** Whatever was queued at the start is placed or still at the head of the queue. */
  ghost predicate Served(ready: seq<string>, placed: seq<Entry>, queue: seq<string>) {
    ready <= Names(placed) + queue
  }

  lemma ServedNext(ready: seq<string>, placed: seq<Entry>, queue: seq<string>, e: Entry, after: seq<string>)
    requires Served(ready, placed, queue) && queue != [] && queue[0] == e.id && queue[1..] <= after
    ensures Served(ready, placed + [e], after)
  {
    var now, next := Names(placed) + queue, Names(placed + [e]) + after;
    assert Names(placed + [e]) == Names(placed) + [e.id];
    assert now == Names(placed) + [e.id] + queue[1..];
    assert now <= next;
  }

  lemma StartCounters(steps: seq<Entry>, pm: PreconditionMap, deg: map<string, int>, queue: seq<string>)
    requires deg.Keys == Ids(steps) && Distinct(queue)
    requires forall k :: 0 <= k < |steps| ==> steps[k].id in deg && deg[steps[k].id] == |Preconds(steps[k], pm)|
    requires forall q :: q in queue <==> q in Ids(steps) && deg[q] == 0
    ensures Counters(steps, pm, deg, queue, {})
  {
    forall k | 0 <= k < |steps| ensures deg[steps[k].id] == Degree(steps[k], pm, {}) {
      RemainingNone(Preconds(steps[k], pm));
    }
    forall k | 0 <= k < |steps| ensures steps[k].id in Ids(steps) {
      assert steps[k] in steps;
    }
  }

  /** The state of the inner loop once the first i entries are counted off. */
  ghost predicate Releasing(steps: seq<Entry>, pm: PreconditionMap, deg: map<string, int>, queue: seq<string>,
                            done: set<string>, cur: string, i: nat)
    requires Ids(steps) <= deg.Keys
  {
    && Distinct(queue) && (forall q :: q in queue ==> q !in done && q != cur)
    && (forall k :: 0 <= k < |steps| ==>
          deg[steps[k].id] == Degree(steps[k], pm, if k < i then done + {cur} else done))
    && (forall k :: 0 <= k < |steps| ==>
          (deg[steps[k].id] == 0 <==> steps[k].id in done || steps[k].id == cur || steps[k].id in queue))
  }

  lemma ReleaseFirst(steps: seq<Entry>, pm: PreconditionMap, deg: map<string, int>, queue: seq<string>,
                     done: set<string>, cur: string)
    requires deg.Keys == Ids(steps) && Counters(steps, pm, deg, [cur] + queue, done)
    ensures cur !in done && Releasing(steps, pm, deg, queue, done, cur, 0)
  {
    DistinctCons(cur, queue);
    var all := [cur] + queue;
    assert cur in all;
    forall q | q in queue ensures q in all {}
  }

  lemma ReleaseLast(steps: seq<Entry>, pm: PreconditionMap, deg: map<string, int>, queue: seq<string>,
                    done: set<string>, cur: string)
    requires deg.Keys == Ids(steps) && Releasing(steps, pm, deg, queue, done, cur, |steps|)
    ensures Counters(steps, pm, deg, queue, done + {cur})
  {
  }

  lemma ReleaseSkip(steps: seq<Entry>, pm: PreconditionMap, deg: map<string, int>, queue: seq<string>,
                    done: set<string>, cur: string, i: nat)
    requires deg.Keys == Ids(steps) && Releasing(steps, pm, deg, queue, done, cur, i)
    requires i < |steps| && cur !in done && cur !in Preconds(steps[i], pm)
    ensures Releasing(steps, pm, deg, queue, done, cur, i + 1)
  {
    RemainingStep(Preconds(steps[i], pm), done, cur);
  }

  lemma ReleaseOne(steps: seq<Entry>, pm: PreconditionMap, deg: map<string, int>, queue: seq<string>,
                   done: set<string>, cur: string, i: nat, degAfter: map<string, int>, queueAfter: seq<string>)
    requires deg.Keys == Ids(steps) && UniqueIds(steps)
    requires i < |steps| && cur !in done && cur in Preconds(steps[i], pm)
    requires Releasing(steps, pm, deg, queue, done, cur, i)
    requires steps[i].id in deg && degAfter == deg[steps[i].id := deg[steps[i].id] - 1]
    requires queueAfter == if degAfter[steps[i].id] == 0 then queue + [steps[i].id] else queue
    ensures degAfter.Keys == Ids(steps)
    ensures Releasing(steps, pm, degAfter, queueAfter, done, cur, i + 1)
  {
    RemainingStep(Preconds(steps[i], pm), done, cur);
    var x := steps[i].id;
    assert deg[x] == Degree(steps[i], pm, done);
    assert deg[x] > 0;
    assert x !in done && x != cur && x !in queue;
    forall k | 0 <= k < |steps|
      ensures degAfter[steps[k].id] == Degree(steps[k], pm, if k < i + 1 then done + {cur} else done)
    {
      if k != i { assert steps[k].id != x; }
    }
    forall k | 0 <= k < |steps|
      ensures degAfter[steps[k].id] == 0 <==> steps[k].id in done || steps[k].id == cur || steps[k].id in queueAfter
    {
      if k != i { assert steps[k].id != x; }
    }
  }

  lemma WaitingShrinks(deg: map<string, int>, id: string)
    requires id in deg
    ensures var after := deg[id := deg[id] - 1];
      Waiting(after) <= Waiting(deg) && (deg[id] == 1 ==> Waiting(after) < Waiting(deg))
  {
    if deg[id] == 1 { assert id in Waiting(deg) && id !in Waiting(deg[id := 0]); }
  }

  /** The inner loop: cur has just been placed; count it off everywhere and
      queue what became ready. */
  method Release(steps: seq<Entry>, pm: PreconditionMap, deg0: map<string, int>, queue0: seq<string>,
                 cur: string, ghost done: set<string>)
    returns (deg: map<string, int>, queue: seq<string>)
    requires deg0.Keys == Ids(steps)
    requires forall q :: q in queue0 ==> q in Ids(steps)
    ensures deg.Keys == Ids(steps)
    ensures forall q :: q in queue ==> q in Ids(steps)
    ensures queue0 <= queue
    ensures Waiting(deg) < Waiting(deg0) || (Waiting(deg) == Waiting(deg0) && queue == queue0)
    ensures UniqueIds(steps) && Counters(steps, pm, deg0, [cur] + queue0, done)
            ==> Counters(steps, pm, deg, queue, done + {cur})
  {
    deg, queue := deg0, queue0;
    ghost var nice := UniqueIds(steps) && Counters(steps, pm, deg0, [cur] + queue0, done);
    if nice { ReleaseFirst(steps, pm, deg, queue, done, cur); }
    for i := 0 to |steps|
      invariant deg.Keys == Ids(steps)
      invariant forall q :: q in queue ==> q in Ids(steps)
      invariant queue0 <= queue
      invariant Waiting(deg) <= Waiting(deg0)
      invariant queue == queue0 || Waiting(deg) < Waiting(deg0)
      invariant nice ==> Releasing(steps, pm, deg, queue, done, cur, i)
    {
      if cur in Preconds(steps[i], pm) {
        deg, queue := CountOff(steps, pm, deg, queue, cur, i, done, nice);
      } else if nice {
        ReleaseSkip(steps, pm, deg, queue, done, cur, i);
      }
    }
    if nice { ReleaseLast(steps, pm, deg, queue, done, cur); }
  }

  /** One entry that names cur has one precondition less to wait for. */
  method CountOff(steps: seq<Entry>, pm: PreconditionMap, deg0: map<string, int>, queue0: seq<string>,
                  cur: string, i: nat, ghost done: set<string>, ghost nice: bool)
    returns (deg: map<string, int>, queue: seq<string>)
    requires i < |steps| && cur in Preconds(steps[i], pm) && deg0.Keys == Ids(steps)
    requires nice ==> UniqueIds(steps) && cur !in done && Releasing(steps, pm, deg0, queue0, done, cur, i)
    ensures deg == deg0[steps[i].id := deg0[steps[i].id] - 1] && deg.Keys == Ids(steps)
    ensures queue == queue0 + if deg[steps[i].id] == 0 then [steps[i].id] else []
    ensures Waiting(deg) <= Waiting(deg0) && (queue == queue0 || Waiting(deg) < Waiting(deg0))
    ensures nice ==> Releasing(steps, pm, deg, queue, done, cur, i + 1)
  {
    var newDegree := deg0[steps[i].id] - 1;
    deg, queue := deg0[steps[i].id := newDegree], queue0;
    if newDegree == 0 {
      queue := queue + [steps[i].id];
    }
    WaitingShrinks(deg0, steps[i].id);
    if nice { ReleaseOne(steps, pm, deg0, queue0, done, cur, i, deg, queue); }
  }

  lemma QueuedIsReady(steps: seq<Entry>, pm: PreconditionMap, deg: map<string, int>, queue: seq<string>,
                      done: set<string>, e: Entry)
    requires deg.Keys == Ids(steps) && Counters(steps, pm, deg, queue, done)
    requires e in steps && e.id in queue
    ensures PreSet(e, pm) <= done && Distinct(Preconds(e, pm)) && e.id !in done
  {
    var i :| 0 <= i < |steps| && steps[i] == e;
    assert deg[steps[i].id] == 0;
    DegreeZero(e, pm, done);
  }

  lemma OrderedNext(placed: seq<Entry>, pm: PreconditionMap, e: Entry)
    requires Ordered(placed, pm) && PreSet(e, pm) <= Ids(placed)
    ensures Ordered(placed + [e], pm)
  {
    var next := placed + [e];
    forall k | 0 <= k < |next| ensures PreSet(next[k], pm) <= Ids(next[..k]) {
      assert next[..k] == placed[..k];
      if k == |placed| { assert placed[..k] == placed; }
    }
  }

  lemma UniqueNext(placed: seq<Entry>, e: Entry)
    requires UniqueIds(placed) && e.id !in Ids(placed)
    ensures UniqueIds(placed + [e])
  {
    forall k | 0 <= k < |placed| ensures placed[k].id != e.id {
      assert placed[k] in placed;
    }
  }

  /** A ready entry may be placed next. */
  lemma PlaceNext(steps: seq<Entry>, pm: PreconditionMap, placed: seq<Entry>, e: Entry)
    requires Placed(steps, pm, placed) && e in steps
    requires PreSet(e, pm) <= Ids(placed) && Distinct(Preconds(e, pm)) && e.id !in Ids(placed)
    ensures Placed(steps, pm, placed + [e])
    ensures Ids(placed + [e]) == Ids(placed) + {e.id}
  {
    IdsOfAppend(placed, [e]);
    assert Ids([e]) == {e.id};
    OrderedNext(placed, pm, e);
    UniqueNext(placed, e);
  }

  lemma {:induction false} LeftOverSnoc(s: seq<Entry>, e: Entry, done: set<string>)
    ensures LeftOver(s + [e], done) == LeftOver(s, done) + (if e.id in done then [] else [e])
  {
    if s != [] {
      LeftOverSnoc(s[1..], e, done);
      assert (s + [e])[1..] == s[1..] + [e];
    }
  }

  /** Looking an entry up in the list built so far finds it exactly when it was placed. */
  lemma AppendLeftOver(steps: seq<Entry>, placed: seq<Entry>, i: nat)
    requires UniqueIds(steps) && i < |steps|
    ensures steps[i].id in Ids(placed + LeftOver(steps[..i], Ids(placed))) <==> steps[i].id in Ids(placed)
    ensures LeftOver(steps[..i + 1], Ids(placed))
         == LeftOver(steps[..i], Ids(placed)) + (if steps[i].id in Ids(placed) then [] else [steps[i]])
  {
    var rest := LeftOver(steps[..i], Ids(placed));
    IdsOfAppend(placed, rest);
    LeftOverParts(steps[..i], Ids(placed));
    assert steps[..i + 1] == steps[..i] + [steps[i]];
    LeftOverSnoc(steps[..i], steps[i], Ids(placed));
  }

  lemma NothingLeft(steps: seq<Entry>, placed: seq<Entry>)
    requires UniqueIds(steps) && UniqueIds(placed) && |placed| >= |steps|
    requires forall k :: 0 <= k < |placed| ==> placed[k] in steps
    ensures LeftOver(steps, Ids(placed)) == []
  {
    LeftOverPermutes(steps, placed);
    assert |multiset(placed + LeftOver(steps, Ids(placed)))| == |multiset(steps)|;
  }

  lemma StopExhausted(steps: seq<Entry>, pm: PreconditionMap, deg: map<string, int>, done: set<string>)
    requires deg.Keys == Ids(steps) && Counters(steps, pm, deg, [], done)
    ensures Exhausted(steps, pm, done)
  {
    forall e | e in steps && e.id !in done
      ensures !(PreSet(e, pm) <= done && Distinct(Preconds(e, pm)))
    {
      var i :| 0 <= i < |steps| && steps[i] == e;
      DegreeZero(steps[i], pm, done);
    }
  }

  lemma WarnedExactly(steps: seq<Entry>, pm: PreconditionMap, result: seq<Entry>, m: nat)
    requires ExecutionOrder(steps, pm, result, m)
    ensures |result| == |steps|
    ensures m < |steps| <==> exists e :: e in steps && Blocked(steps, pm, e.id)
  {
    assert |multiset(result)| == |multiset(steps)|;
    if m < |steps| {
      assert result[m] in multiset(result);
    }
    if e :| e in steps && Blocked(steps, pm, e.id) {
      assert e in multiset(steps);
      var k :| 0 <= k < |result| && result[k] == e;
    }
  }

  /** The warning branch: whatever could not be sorted goes to the end. */
  method AppendRest(steps: seq<Entry>, placed: seq<Entry>) returns (result: seq<Entry>, warned: bool)
    ensures warned <==> |placed| < |steps|
    ensures UniqueIds(steps) && UniqueIds(placed) && (forall k :: 0 <= k < |placed| ==> placed[k] in steps)
            ==> result == placed + LeftOver(steps, Ids(placed))
  {
    result, warned := placed, |placed| < |steps|;
    ghost var nice := UniqueIds(steps) && UniqueIds(placed) && forall k :: 0 <= k < |placed| ==> placed[k] in steps;
    if warned {
      for i := 0 to |steps|
        invariant nice ==> result == placed + LeftOver(steps[..i], Ids(placed))
      {
        if nice { AppendLeftOver(steps, placed, i); }
        if steps[i].id !in Ids(result) {
          result := result + [steps[i]];
        }
      }
      assert steps[..|steps|] == steps;
    } else if nice {
      NothingLeft(steps, placed);
    }
  }

  /** The main loop: place entries until none is ready. */
  method PlaceReady(steps: seq<Entry>, pm: PreconditionMap) returns (placed: seq<Entry>)
    ensures UniqueIds(steps) ==> Placed(steps, pm, placed) && Exhausted(steps, pm, Ids(placed))
    ensures UniqueIds(steps) ==> FreeOf(steps, pm) <= placed
  {
    placed := [];
    var stepMap, deg := InDegrees(steps, pm);
    var queue := InitialQueue(steps, deg);
    ghost var nice := UniqueIds(steps);
    ghost var ready := queue;
    assert Ids(placed) == {};
    if nice {
      forall k | 0 <= k < |steps| ensures steps[k].id in deg && deg[steps[k].id] == |Preconds(steps[k], pm)| {
        assert Entered(steps[k], pm, stepMap, deg);
      }
      StartCounters(steps, pm, deg, queue);
      ReadyIsFree(steps, pm, deg);
    }
    while |queue| > 0
      invariant deg.Keys == stepMap.Keys == Ids(steps)
      invariant forall q :: q in queue ==> q in Ids(steps)
      invariant nice ==> Placed(steps, pm, placed) && Served(ready, placed, queue)
      invariant nice ==> Counters(steps, pm, deg, queue, Ids(placed))
      decreases Waiting(deg), |queue|
    {
      var cur := queue[0];
      assert cur in queue && queue == [cur] + queue[1..];
      ghost var done := Ids(placed);
      if nice {
        var k := IndexOfId(steps, cur);
        QueuedIsReady(steps, pm, deg, queue, done, steps[k]);
        PlaceNext(steps, pm, placed, steps[k]);
      }
      ghost var before, waiting := placed, queue;
      placed := placed + [stepMap[cur]];
      deg, queue := Release(steps, pm, deg, queue[1..], cur, done);
      if nice { ServedNext(ready, before, waiting, placed[|before|], queue); }
    }
    if nice {
      StopExhausted(steps, pm, deg, Ids(placed));
      assert Names(placed) + queue == Names(placed);
      FreeFirst(steps, pm, placed);
    }
  }

  /** The sort. The flag tells whether the warning branch was taken. */
  method TopologicalSort(steps: seq<Entry>, pm: PreconditionMap) returns (result: seq<Entry>, warned: bool)
    ensures UniqueIds(steps) ==> SortOutcome(steps, pm, result, warned)
    ensures UniqueIds(steps) ==> (warned <==> !Sortable(steps, pm))
  {
    var placed := PlaceReady(steps, pm);
    result, warned := AppendRest(steps, placed);
    if UniqueIds(steps) {
      LeftOverOrder(steps, pm, placed);
      assert ExecutionOrder(steps, pm, result, |placed|);
      WarnedExactly(steps, pm, result, |placed|);
      if Sortable(steps, pm) { SortableUnblocked(steps, pm); } else if !warned { UnblockedSortable(steps, pm); }
    }
  }
}
