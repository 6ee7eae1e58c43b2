/** Directed graphs over string ids: paths, reachability and acyclicity.

    A graph is a set of edges. Every component that talks about dependencies
    (the plan importer, the step sorter, the cycle checker, the layout) states
    its claims with the definitions below. */
module Graphs {

  type Edges = set<(string, string)>

  /** Consecutive nodes of p are joined by edges of E. A single node is a path. */
  ghost predicate Path(E: Edges, p: seq<string>) {
    && |p| >= 1
    && forall i :: 0 <= i < |p| - 1 ==> (p[i], p[i + 1]) in E
  }

  ghost predicate PathBetween(E: Edges, p: seq<string>, a: string, b: string) {
    Path(E, p) && p[0] == a && p[|p| - 1] == b
  }

  /** Reflexive and transitive reachability. */
  ghost predicate Reach(E: Edges, a: string, b: string) {
    exists p :: PathBetween(E, p, a, b)
  }

  ghost predicate Cycle(E: Edges, p: seq<string>) {
    |p| >= 2 && PathBetween(E, p, p[0], p[0])
  }

  ghost predicate Acyclic(E: Edges) {
    forall p :: !Cycle(E, p)
  }

  /** The edges that end in S. */
  ghost function Into(E: Edges, S: set<string>): Edges {
    set x | x in E && x.1 in S
  }

  lemma ReachSelf(E: Edges, a: string)
    ensures Reach(E, a, a)
  {
    assert PathBetween(E, [a], a, a);
  }

  lemma ReachTrans(E: Edges, a: string, b: string, c: string)
    requires Reach(E, a, b) && Reach(E, b, c)
    ensures Reach(E, a, c)
  {
    var p :| PathBetween(E, p, a, b);
    var q :| PathBetween(E, q, b, c);
    assert PathBetween(E, p + q[1..], a, c);
  }

  lemma ReachEdge(E: Edges, a: string, b: string, c: string)
    requires (a, b) in E && Reach(E, b, c)
    ensures Reach(E, a, c)
  {
    assert PathBetween(E, [a, b], a, b);
    ReachTrans(E, a, b, c);
  }

  /** Everything reached from a closed set stays in it. */
  lemma {:induction false} ClosedUnderPath(E: Edges, S: set<string>, p: seq<string>)
    requires Path(E, p) && p[0] in S
    requires forall e :: e in E && e.0 in S ==> e.1 in S
    ensures p[|p| - 1] in S
    decreases |p|
  {
    if |p| > 1 {
      assert (p[0], p[1]) in E;
      assert Path(E, p[1..]);
      ClosedUnderPath(E, S, p[1..]);
    }
  }

  /** A node without outgoing edges reaches nothing else. */
  lemma Unreached(E: Edges, a: string, b: string)
    requires a != b && forall e :: e in E ==> e.0 != a
    ensures !Reach(E, a, b)
  {
    forall p ensures !PathBetween(E, p, a, b) {
      if PathBetween(E, p, a, b) { ClosedUnderPath(E, {a}, p); }
    }
  }

  lemma AcyclicSubset(E: Edges, F: Edges)
    requires F <= E && Acyclic(E)
    ensures Acyclic(F)
  {
    forall p ensures !Cycle(F, p) {
      if Cycle(F, p) { assert Cycle(E, p); }
    }
  }

  /** A path that may use the extra edge (s, t) and ends in s has an end part free of it. */
  lemma {:induction false} PathToSource(E: Edges, s: string, t: string, p: seq<string>)
    requires Path(E + {(s, t)}, p) && p[|p| - 1] == s
    ensures Reach(E, p[0], s)
    decreases |p|
  {
    if p[0] == s {
      ReachSelf(E, s);
    } else {
      assert (p[0], p[1]) in E + {(s, t)};
      assert Path(E + {(s, t)}, p[1..]);
      PathToSource(E, s, t, p[1..]);
      ReachEdge(E, p[0], p[1], s);
    }
  }

  lemma {:induction false} PathFromTarget(E: Edges, s: string, t: string, p: seq<string>)
    requires Path(E + {(s, t)}, p) && p[0] == t
    ensures Reach(E, t, p[|p| - 1])
    decreases |p|
  {
    var n := |p|;
    if p[n - 1] == t {
      ReachSelf(E, t);
    } else {
      assert (p[n - 2], p[n - 1]) in E + {(s, t)};
      assert Path(E + {(s, t)}, p[..n - 1]);
      PathFromTarget(E, s, t, p[..n - 1]);
      ReachSelf(E, p[n - 1]);
      ReachEdge(E, p[n - 2], p[n - 1], p[n - 1]);
      ReachTrans(E, t, p[n - 2], p[n - 1]);
    }
  }

  /** Adding (s, t) keeps a graph acyclic exactly when t does not already reach s. */
  lemma AddEdgeAcyclic(E: Edges, s: string, t: string)
    requires Acyclic(E)
    ensures Acyclic(E + {(s, t)}) <==> !Reach(E, t, s)
  {
    var F := E + {(s, t)};
    if Reach(E, t, s) {
      var p :| PathBetween(E, p, t, s);
      assert Cycle(F, [s] + p);
    } else {
      forall p ensures !Cycle(F, p) {
        if Cycle(F, p) {
          assert !Cycle(E, p);
          var i :| 0 <= i < |p| - 1 && (p[i], p[i + 1]) !in E;
          PathToSource(E, s, t, p[..i + 1]);
          PathFromTarget(E, s, t, p[i + 1..]);
          ReachTrans(E, t, p[0], s);
        }
      }
    }
  }

  /** Ranks that strictly grow along every edge rule cycles out. */
  lemma {:induction false} RankGrows(E: Edges, rank: map<string, int>, p: seq<string>)
    requires Path(E, p)
    requires forall e :: e in E ==> e.0 in rank && e.1 in rank && rank[e.0] < rank[e.1]
    ensures |p| >= 2 ==> p[0] in rank && p[|p| - 1] in rank && rank[p[0]] < rank[p[|p| - 1]]
    decreases |p|
  {
    if |p| >= 2 {
      assert (p[0], p[1]) in E;
      assert Path(E, p[1..]);
      RankGrows(E, rank, p[1..]);
    }
  }

  lemma RankedAcyclic(E: Edges, rank: map<string, int>)
    requires forall e :: e in E ==> e.0 in rank && e.1 in rank && rank[e.0] < rank[e.1]
    ensures Acyclic(E)
  {
    forall p ensures !Cycle(E, p) {
      if Cycle(E, p) { RankGrows(E, rank, p); }
    }
  }

  ghost predicate Distinct<T>(s: seq<T>) {
    forall i, j :: 0 <= i < j < |s| ==> s[i] != s[j]
  }

  lemma DistinctCons<T>(x: T, s: seq<T>)
    ensures Distinct([x] + s) <==> Distinct(s) && x !in s
  {
    var t := [x] + s;
    assert forall i :: 0 <= i < |s| ==> t[i + 1] == s[i];
    if Distinct(t) {
      forall i, j | 0 <= i < j < |s| ensures s[i] != s[j] {
        assert t[i + 1] != t[j + 1];
      }
      forall i | 0 <= i < |s| ensures s[i] != x {
        assert t[0] != t[i + 1];
      }
    }
  }

  lemma {:induction false} DistinctCount<T>(s: seq<T>)
    requires Distinct(s)
    ensures |(set x | x in s)| == |s|
  {
    if s != [] {
      DistinctCount(s[1..]);
      assert (set x | x in s) == (set x | x in s[1..]) + {s[0]};
      assert s[0] !in s[1..];
    }
  }

  lemma SubsetCount<T>(a: set<T>, b: set<T>)
    requires a <= b
    ensures |a| <= |b|
  {
    assert b == a + (b - a);
  }

  ghost predicate HasPredecessor(E: Edges, S: set<string>, y: string) {
    exists z :: z in S && (z, y) in E
  }

  /** Every node of S has an edge coming in from S. */
  ghost predicate NoSource(E: Edges, S: set<string>) {
    forall y {:trigger HasPredecessor(E, S, y)} :: y in S ==> HasPredecessor(E, S, y)
  }

  /** Walk backwards through S for n steps. */
  lemma {:induction false} BackwardWalk(E: Edges, S: set<string>, x: string, n: nat) returns (p: seq<string>)
    requires x in S
    requires NoSource(E, S)
    ensures |p| == n + 1 && Path(E, p) && p[n] == x
    ensures forall y :: y in p ==> y in S
    decreases n
  {
    if n == 0 {
      p := [x];
    } else {
      assert HasPredecessor(E, S, x);
      var z :| z in S && (z, x) in E;
      var q := BackwardWalk(E, S, z, n - 1);
      p := q + [x];
    }
  }

  /** Pigeonhole: a list longer than the set it draws from repeats an element. */
  lemma Repeats<T>(w: seq<T>, S: set<T>)
    requires |w| > |S| && forall y :: y in w ==> y in S
    ensures !Distinct(w)
  {
    if Distinct(w) {
      DistinctCount(w);
      SubsetCount((set y | y in w), S);
    }
  }

  lemma SliceIsPath(E: Edges, w: seq<string>, i: nat, j: nat)
    requires Path(E, w) && i <= j < |w|
    ensures PathBetween(E, w[i..j + 1], w[i], w[j])
  {
    var p := w[i..j + 1];
    forall k | 0 <= k < |p| - 1 ensures (p[k], p[k + 1]) in E {
      assert (w[i + k], w[i + k + 1]) in E;
    }
  }

  /** A nonempty finite set in which every node has a predecessor holds a cycle. */
  lemma NoSourceMeansCycle(E: Edges, S: set<string>) returns (p: seq<string>)
    requires S != {}
    requires NoSource(E, S)
    ensures Cycle(E, p) && p[0] in S
  {
    var x :| x in S;
    var w := BackwardWalk(E, S, x, |S|);
    Repeats(w, S);
    var i, j :| 0 <= i < j < |w| && w[i] == w[j];
    SliceIsPath(E, w, i, j);
    p := w[i..j + 1];
    assert p[0] in w;
  }
}
