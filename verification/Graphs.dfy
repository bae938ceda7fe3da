/** Finite directed graphs: where nothing waits in a circle, there is an order in which to go. */
module Graphs {

  /** A sequence of nodes, each with an edge to the next one. */
  ghost predicate IsPath<T(!new)>(edges: set<(T, T)>, p: seq<T>) {
    forall i | 0 < i < |p| :: (p[i - 1], p[i]) in edges
  }

  /** A path whose last node has an edge to the first one. */
  ghost predicate IsCycle<T(!new)>(edges: set<(T, T)>, p: seq<T>) {
    p != [] && IsPath(edges, p) && (p[|p| - 1], p[0]) in edges
  }

  ghost predicate Acyclic<T(!new)>(edges: set<(T, T)>) {
    forall p :: !IsCycle(edges, p)
  }

  /** Every edge leads to a node of smaller height. */
  ghost predicate Descending<T(!new)>(edges: set<(T, T)>, height: map<T, nat>) {
    forall a, b | (a, b) in edges :: a in height && b in height && height[b] < height[a]
  }

  ghost predicate Within<T(!new)>(edges: set<(T, T)>, nodes: set<T>) {
    forall a, b | (a, b) in edges :: a in nodes && b in nodes
  }

  ghost predicate IsSink<T(!new)>(edges: set<(T, T)>, a: T) {
    forall b :: (a, b) !in edges
  }

  /** A sequence that is longer than a set from which it is taken has some element twice. */
  lemma {:induction false} Pigeonhole<T>(nodes: set<T>, p: seq<T>) returns (i: nat, j: nat)
    requires |p| > |nodes| && forall k | 0 <= k < |p| :: p[k] in nodes
    ensures i < j < |p| && p[i] == p[j]
    decreases |p|
  {
    var init, last := p[..|p| - 1], p[|p| - 1];
    if last in init {
      i :| 0 <= i < |init| && init[i] == last;
      j := |p| - 1;
    } else {
      i, j := Pigeonhole(nodes - {last}, init);
    }
  }

  /** Without a sink, one can walk on forever. */
  lemma {:induction false} Walk<T(!new)>(edges: set<(T, T)>, nodes: set<T>, n: nat) returns (p: seq<T>)
    requires nodes != {} && Within(edges, nodes) && forall a | a in nodes :: !IsSink(edges, a)
    ensures |p| == n + 1 && IsPath(edges, p) && forall k | 0 <= k < |p| :: p[k] in nodes
  {
    if n == 0 {
      var a :| a in nodes;
      p := [a];
    } else {
      var q := Walk(edges, nodes, n - 1);
      assert !IsSink(edges, q[n - 1]);
      var b :| (q[n - 1], b) in edges;
      p := q + [b];
    }
  }

  lemma SinkExists<T(!new)>(edges: set<(T, T)>, nodes: set<T>) returns (s: T)
    requires nodes != {} && Within(edges, nodes) && Acyclic(edges)
    ensures s in nodes && IsSink(edges, s)
  {
    if forall a | a in nodes :: !IsSink(edges, a) {
      var p := Walk(edges, nodes, |nodes|);
      var i, j := Pigeonhole(nodes, p);
      assert IsCycle(edges, p[i..j]);
    }
    s :| s in nodes && IsSink(edges, s);
  }

  /** A finite graph without cycles has heights below the number of its nodes. */
  lemma {:induction false} Heights<T(!new)>(edges: set<(T, T)>, nodes: set<T>) returns (height: map<T, nat>)
    requires Within(edges, nodes) && Acyclic(edges)
    ensures Descending(edges, height)
    ensures height.Keys == nodes && forall a | a in nodes :: height[a] < |nodes|
    decreases |nodes|
  {
    if nodes == {} {
      height := map[];
    } else {
      var s := SinkExists(edges, nodes);
      var rest := set e | e in edges && e.1 != s;
      PartAcyclic(edges, rest);
      var h := Heights(rest, nodes - {s});
      height := map a | a in nodes :: if a == s then 0 else h[a] + 1;
    }
  }

  lemma PartAcyclic<T(!new)>(edges: set<(T, T)>, part: set<(T, T)>)
    requires Acyclic(edges) && part <= edges
    ensures Acyclic(part)
  {
    forall p ensures !IsCycle(part, p) {
      if IsCycle(part, p) { assert IsCycle(edges, p); }
    }
  }
}
