/** Finite directed graphs given by adjacency lists: walks, cycles and rankings. */
module Graph {

  /** Every listed successor is a node. */
  ghost predicate WellFormed(adj: seq<seq<nat>>) {
    forall u, k :: 0 <= u < |adj| && 0 <= k < |adj[u]| ==> adj[u][k] < |adj|
  }

  predicate Edge(adj: seq<seq<nat>>, u: nat, v: nat) {
    u < |adj| && v in adj[u]
  }

  /** A nonempty sequence of nodes in which each node is followed by one of its successors. */
  predicate Walk(adj: seq<seq<nat>>, p: seq<nat>) {
    |p| > 0 && p[|p| - 1] < |adj| && forall k :: 0 <= k < |p| - 1 ==> Edge(adj, p[k], p[k + 1])
  }

  /** A walk of at least one edge that ends where it starts. */
  predicate Cycle(adj: seq<seq<nat>>, p: seq<nat>) {
    |p| > 1 && Walk(adj, p) && p[0] == p[|p| - 1]
  }

  ghost predicate HasCycle(adj: seq<seq<nat>>) {
    exists p :: Cycle(adj, p)
  }

  /** A numbering of the nodes below the node count that increases along every edge. */
  ghost predicate Ranking(adj: seq<seq<nat>>, rank: seq<nat>) {
    && |rank| == |adj|
    && (forall u: nat :: u < |adj| ==> rank[u] < |adj|)
    && (forall u: nat, v: nat :: v < |adj| && Edge(adj, u, v) ==> rank[u] < rank[v])
  }

  ghost predicate Distinct<T>(p: seq<T>) {
    forall i, j :: 0 <= i < j < |p| ==> p[i] != p[j]
  }

  lemma DistinctCardinality<T>(p: seq<T>, s: set<T>)
    requires Distinct(p)
    requires forall x :: x in p ==> x in s
    ensures |p| <= |s|
  {
    if p != [] {
      var last := p[|p| - 1];
      var rest := p[..|p| - 1];
      assert forall x :: x in rest ==> x in s - {last};
      DistinctCardinality(rest, s - {last});
    }
  }

  lemma {:induction false} DistinctToSet<T>(p: seq<T>)
    requires Distinct(p)
    ensures |set x | x in p| == |p|
  {
    if p != [] {
      var rest := p[..|p| - 1];
      DistinctToSet(rest);
      assert p == rest + [p[|p| - 1]];
      assert (set x | x in p) == (set x | x in rest) + {p[|p| - 1]};
    }
  }

  /** A ranking rules out every cycle. */
  lemma RankingExcludesCycles(adj: seq<seq<nat>>, rank: seq<nat>)
    requires WellFormed(adj) && Ranking(adj, rank)
    ensures !HasCycle(adj)
  {
    forall p | Cycle(adj, p) ensures false {
      RankGrows(adj, rank, p, |p| - 1);
    }
  }

  lemma {:induction false} RankGrows(adj: seq<seq<nat>>, rank: seq<nat>, p: seq<nat>, k: nat)
    requires WellFormed(adj) && Ranking(adj, rank) && Walk(adj, p) && k < |p|
    ensures p[0] < |adj| && p[k] < |adj|
    ensures rank[p[0]] + k <= rank[p[k]]
  {
    if k > 0 {
      RankGrows(adj, rank, p, k - 1);
      assert Edge(adj, p[k - 1], p[k]);
    } else if |p| > 1 {
      assert Edge(adj, p[0], p[1]);
    }
  }

  lemma NoSelfEdge(adj: seq<seq<nat>>, i: nat)
    requires WellFormed(adj) && !HasCycle(adj)
    ensures !Edge(adj, i, i)
  {
    assert Edge(adj, i, i) ==> Cycle(adj, [i, i]);
  }

  ghost predicate HasPredecessorIn(adj: seq<seq<nat>>, s: set<nat>, v: nat) {
    exists u :: u in s && Edge(adj, u, v)
  }

  /** Following predecessors inside a finite set for ever must close a cycle. */
  lemma PredecessorClosedHasCycle(adj: seq<seq<nat>>, s: set<nat>)
    requires s != {} && forall v :: v in s ==> v < |adj|
    requires forall v {:trigger HasPredecessorIn(adj, s, v)} :: v in s ==> HasPredecessorIn(adj, s, v)
    ensures HasCycle(adj)
  {
    var v :| v in s;
    assert Walk(adj, [v]);
    ExtendBackwards(adj, s, [v]);
  }

  lemma {:induction false} ExtendBackwards(adj: seq<seq<nat>>, s: set<nat>, p: seq<nat>)
    requires forall v :: v in s ==> v < |adj|
    requires forall v {:trigger HasPredecessorIn(adj, s, v)} :: v in s ==> HasPredecessorIn(adj, s, v)
    requires Walk(adj, p) && Distinct(p) && forall x :: x in p ==> x in s
    ensures HasCycle(adj)
    decreases |s| - |p|
  {
    DistinctCardinality(p, s);
    assert HasPredecessorIn(adj, s, p[0]);
    var u :| u in s && Edge(adj, u, p[0]);
    PrependWalk(adj, u, p);
    if u in p {
      CloseCycle(adj, u, p);
    } else {
      var q := [u] + p;
      assert Distinct(q);
      DistinctCardinality(q, s);
      ExtendBackwards(adj, s, q);
    }
  }

  lemma PrependWalk(adj: seq<seq<nat>>, u: nat, p: seq<nat>)
    requires Walk(adj, p) && Edge(adj, u, p[0])
    ensures Walk(adj, [u] + p)
  {
    var q := [u] + p;
    forall k | 0 <= k < |q| - 1 ensures Edge(adj, q[k], q[k + 1]) {
      if k > 0 {
        assert Edge(adj, p[k - 1], p[k]);
      }
    }
  }

  lemma CloseCycle(adj: seq<seq<nat>>, u: nat, p: seq<nat>)
    requires Walk(adj, [u] + p) && u in p
    ensures HasCycle(adj)
  {
    var q := [u] + p;
    var k :| 0 <= k < |p| && p[k] == u;
    assert q[k + 1] == u;
    PrefixIsWalk(adj, q, k + 2);
    assert Cycle(adj, q[..k + 2]);
  }

  lemma PrefixIsWalk(adj: seq<seq<nat>>, p: seq<nat>, k: nat)
    requires Walk(adj, p) && 0 < k <= |p|
    ensures Walk(adj, p[..k])
  {
    assert k < |p| ==> Edge(adj, p[k - 1], p[k]);
  }

  /** The nodes of a graph with n nodes. */
  function Nodes(n: nat): (s: set<nat>)
    ensures |s| == n && forall v: nat :: v in s <==> v < n
  {
    if n == 0 then {} else Nodes(n - 1) + {n - 1}
  }

  /** An acyclic graph has a ranking: peel off nodes without predecessors one at a time. */
  lemma AcyclicHasRanking(adj: seq<seq<nat>>) returns (rank: seq<nat>)
    requires WellFormed(adj) && !HasCycle(adj)
    ensures Ranking(adj, rank)
  {
    var order := Peel(adj, Nodes(|adj|), []);
    rank := seq(|adj|, v requires 0 <= v < |adj| => Position(order, v));
    DistinctCardinality(order, Nodes(|adj|));
    forall v: nat | v < |adj| ensures rank[v] < |adj| && order[rank[v]] == v {
      assert v in order;
    }
    forall u: nat, v: nat | v < |adj| && Edge(adj, u, v) ensures rank[u] < rank[v] {
      assert Ordered(adj, order, rank[v]);
      var j: nat :| j < rank[v] && order[j] == u;
      assert rank[u] == j;
    }
  }

  ghost function Position(order: seq<nat>, v: nat): (k: nat)
    ensures v in order ==> k < |order| && order[k] == v
  {
    if v in order then var k :| 0 <= k < |order| && order[k] == v; k else 0
  }

  /** All predecessors of order[k] occur in order before position k. */
  ghost predicate Ordered(adj: seq<seq<nat>>, order: seq<nat>, k: nat)
    requires k < |order|
  {
    forall u: nat :: Edge(adj, u, order[k]) ==> exists j :: 0 <= j < k && order[j] == u
  }

  lemma {:induction false} Peel(adj: seq<seq<nat>>, todo: set<nat>, done: seq<nat>) returns (order: seq<nat>)
    requires WellFormed(adj) && !HasCycle(adj)
    requires forall v :: v in todo ==> v < |adj|
    requires forall v: nat :: v < |adj| ==> v in todo || v in done
    requires Distinct(done) && forall v :: v in done ==> v < |adj| && v !in todo
    requires forall k :: 0 <= k < |done| ==> Ordered(adj, done, k)
    ensures Distinct(order) && (forall v: nat :: v < |adj| <==> v in order)
    ensures forall k :: 0 <= k < |order| ==> Ordered(adj, order, k)
    decreases todo
  {
    if todo == {} {
      order := done;
    } else {
      if forall v {:trigger HasPredecessorIn(adj, todo, v)} :: v in todo ==> HasPredecessorIn(adj, todo, v) {
        PredecessorClosedHasCycle(adj, todo);
        assert false;
      }
      var v :| v in todo && !HasPredecessorIn(adj, todo, v);
      var next := done + [v];
      forall k | 0 <= k < |next| ensures Ordered(adj, next, k) {
        forall u: nat | Edge(adj, u, next[k]) ensures exists j :: 0 <= j < k && next[j] == u {
          if k < |done| {
            assert Ordered(adj, done, k);
            var j :| 0 <= j < k && done[j] == u;
            assert next[j] == u;
          } else {
            assert u in done;
            var j :| 0 <= j < |done| && done[j] == u;
            assert next[j] == u;
          }
        }
      }
      order := Peel(adj, todo - {v}, next);
    }
  }
}
