/** The scheduling order: Kahn's algorithm over the data-flow edges of a list of components. */
module TopoOrder {
  import opened Netlist
  import opened Graph

  ghost predicate NodesOf(comps: seq<Component>, nodes: seq<nat>) {
    Distinct(nodes) && forall k :: 0 <= k < |nodes| ==> nodes[k] < |comps|
  }

  /** nodes[a] is the last entry of the node list with an output on the net. */
  ghost predicate LastWriter(comps: seq<Component>, nodes: seq<nat>, net: int, a: nat)
    requires NodesOf(comps, nodes)
  {
    && a < |nodes| && Drives(comps[nodes[a]], net)
    && forall b :: a < b < |nodes| ==> !Drives(comps[nodes[b]], net)
  }

  /** nodes[b] reads a net whose last writer is the different node nodes[a]. */
  ghost predicate DataEdge(comps: seq<Component>, nodes: seq<nat>, a: nat, b: nat)
    requires NodesOf(comps, nodes)
  {
    a < |nodes| && b < |nodes| && a != b &&
    exists net :: Reads(comps[nodes[b]], net) && LastWriter(comps, nodes, net, a)
  }

  // ---- Counting the pending predecessors of a node ----

  /** The number of adjacency entries for v in the lists of the first n nodes that are not yet done. */
  ghost function Pending(adj: seq<seq<nat>>, n: nat, done: set<nat>, v: nat): nat
    requires n <= |adj|
  {
    if n == 0 then 0
    else Pending(adj, n - 1, done, v) + (if n - 1 in done then 0 else multiset(adj[n - 1])[v])
  }

  lemma {:induction false} PendingPredecessor(adj: seq<seq<nat>>, n: nat, done: set<nat>, v: nat)
    requires n <= |adj|
    ensures Pending(adj, n, done, v) == 0 <==> forall u: nat :: u < n && Edge(adj, u, v) ==> u in done
  {
    if n > 0 {
      PendingPredecessor(adj, n - 1, done, v);
      assert v in adj[n - 1] <==> v in multiset(adj[n - 1]);
    }
  }

  lemma {:induction false} PendingAfterDone(adj: seq<seq<nat>>, n: nat, done: set<nat>, u: nat, v: nat)
    requires n <= |adj| && u !in done && u < |adj|
    ensures Pending(adj, n, done, v) == Pending(adj, n, done + {u}, v) + if u < n then multiset(adj[u])[v] else 0
  {
    if n > 0 {
      PendingAfterDone(adj, n - 1, done, u, v);
    }
  }

  lemma PendingReleased(adj: seq<seq<nat>>, done: set<nat>, u: nat)
    requires u in done && u < |adj|
    ensures forall v: nat ::
      Pending(adj, |adj|, done - {u}, v) == Pending(adj, |adj|, done, v) + multiset(adj[u])[v]
  {
    forall v: nat
      ensures Pending(adj, |adj|, done - {u}, v) == Pending(adj, |adj|, done, v) + multiset(adj[u])[v]
    {
      PendingAfterDone(adj, |adj|, done - {u}, u, v);
      assert done - {u} + {u} == done;
    }
  }

  lemma {:induction false} PendingAfterInsert(adj: seq<seq<nat>>, n: nat, a: nat, b: nat, v: nat)
    requires n <= |adj| && a < |adj|
    ensures Pending(adj[a := adj[a] + [b]], n, {}, v) == Pending(adj, n, {}, v) + if a < n && v == b then 1 else 0
  {
    if n > 0 {
      PendingAfterInsert(adj, n - 1, a, b, v);
    }
  }

  lemma PendingAfterInsertAll(adj: seq<seq<nat>>, a: nat, b: nat)
    requires a < |adj|
    ensures forall v: nat ::
      Pending(adj[a := adj[a] + [b]], |adj|, {}, v) == Pending(adj, |adj|, {}, v) + if v == b then 1 else 0
  {
    forall v: nat
      ensures Pending(adj[a := adj[a] + [b]], |adj|, {}, v) == Pending(adj, |adj|, {}, v) + if v == b then 1 else 0
    {
      PendingAfterInsert(adj, |adj|, a, b, v);
    }
  }

  lemma {:induction false} PendingOfEmpty(adj: seq<seq<nat>>, n: nat, v: nat)
    requires n <= |adj| && forall u :: 0 <= u < n ==> adj[u] == []
    ensures Pending(adj, n, {}, v) == 0
  {
    if n > 0 {
      PendingOfEmpty(adj, n - 1, v);
    }
  }

  /** The in-degrees count the pending predecessors. */
  ghost predicate Counted(adj: seq<seq<nat>>, indeg: seq<nat>, done: set<nat>) {
    |indeg| == |adj| && forall v: nat :: v < |adj| ==> indeg[v] == Pending(adj, |adj|, done, v)
  }

  lemma CountedAfterInsert(adj: seq<seq<nat>>, indeg: seq<nat>, a: nat, b: nat)
    requires Counted(adj, indeg, {}) && a < |adj| && b < |adj|
    ensures Counted(adj[a := adj[a] + [b]], indeg[b := indeg[b] + 1], {})
  {
    PendingAfterInsertAll(adj, a, b);
    hide Pending;
  }

  // ---- Kahn's loop ----

  ghost predicate WaitsIn(adj: seq<seq<nat>>, nodes: seq<nat>, v: nat) {
    exists u: nat :: u in nodes && Edge(adj, u, v)
  }

  /** The queue holds exactly the unfinished nodes of in-degree zero. */
  ghost predicate Ready(indeg: seq<nat>, done: set<nat>, q: seq<nat>) {
    && Distinct(q)
    && (forall v: nat :: v in q <==> v < |indeg| && indeg[v] == 0 && v !in done)
    && (forall v: nat :: v in done ==> v < |indeg| && indeg[v] == 0)
  }

  /** Pops ready nodes until none is left; what keeps a pending predecessor is left over. */
  method Kahn(adj: seq<seq<nat>>, indeg: array<nat>) returns (order: seq<nat>, leftovers: seq<nat>)
    requires WellFormed(adj) && indeg.Length == |adj|
    requires Counted(adj, indeg[..], {})
    modifies indeg
    ensures Distinct(order) && Distinct(leftovers)
    ensures forall v: nat :: v < |adj| <==> v in order || v in leftovers
    ensures forall v :: v in order ==> v !in leftovers
    ensures forall i, j :: 0 <= i < j < |leftovers| ==> leftovers[i] < leftovers[j]
    ensures forall k :: 0 <= k < |order| ==> Ordered(adj, order, k)
    ensures forall v {:trigger WaitsIn(adj, leftovers, v)} :: v in leftovers ==> WaitsIn(adj, leftovers, v)
  {
    hide Ordered;
    var n := |adj|;
    var q := Select(indeg, true);
    order := [];
    ghost var done: set<nat> := {};
    while q != []
      invariant Distinct(order) && forall v: nat :: v in done <==> v in order
      invariant Ready(indeg[..], done, q)
      invariant Counted(adj, indeg[..], done)
      invariant forall k :: 0 <= k < |order| ==> Ordered(adj, order, k)
      decreases Nodes(n) - done
    {
      var u := q[|q| - 1];
      assert q == q[..|q| - 1] + [u] && done + {u} - {u} == done;
      q := q[..|q| - 1];
      order := AppendReady(adj, order, done, u);
      done := done + {u};
      q := Release(adj, u, indeg, q, done);
    }
    leftovers := Select(indeg, false);
    LeftoversWait(adj, indeg[..], done, order, leftovers);
  }

  /** When no node is ready, what is not ordered waits for other leftovers. */
  lemma LeftoversWait(adj: seq<seq<nat>>, indeg: seq<nat>, done: set<nat>, order: seq<nat>, leftovers: seq<nat>)
    requires WellFormed(adj) && Counted(adj, indeg, done) && Ready(indeg, done, []) && forall v: nat :: v in done <==> v in order
    requires forall v: nat :: v in leftovers <==> v < |indeg| && indeg[v] != 0
    ensures forall v: nat :: v < |adj| <==> v in order || v in leftovers
    ensures forall v :: v in order ==> v !in leftovers
    ensures forall v {:trigger WaitsIn(adj, leftovers, v)} :: v in leftovers ==> WaitsIn(adj, leftovers, v)
  {
    var none: seq<nat> := [];
    assert forall v: nat :: v < |indeg| && indeg[v] == 0 && v !in done ==> v in none;
    forall v | v in leftovers ensures WaitsIn(adj, leftovers, v) {
      PendingPredecessor(adj, |adj|, done, v);
    }
  }

  lemma ReadyPopped(indeg: seq<nat>, done: set<nat>, q: seq<nat>, u: nat)
    requires u in done && Ready(indeg, done - {u}, q + [u])
    ensures Ready(indeg, done, q)
  {
    var longer := q + [u];
    assert u in longer && longer[|q|] == u;
    assert forall v: nat :: v in done ==> v == u || v in done - {u};
    forall i, j | 0 <= i < j < |q| ensures q[i] != q[j] {
      assert longer[i] != longer[j];
    }
    forall v: nat ensures v in q <==> v in longer && v != u {
      if v in q {
        var i :| 0 <= i < |q| && q[i] == v;
        assert longer[i] != longer[|q|];
      }
    }
  }

  /** The nodes whose in-degree is zero, or is not, in ascending order. */
  method Select(indeg: array<nat>, zero: bool) returns (s: seq<nat>)
    ensures forall v: nat :: v in s <==> v < indeg.Length && (indeg[v] == 0 <==> zero)
    ensures Distinct(s) && forall j, k :: 0 <= j < k < |s| ==> s[j] < s[k]
  {
    s := [];
    for i := 0 to indeg.Length
      invariant forall v: nat :: v in s <==> v < i && (indeg[v] == 0 <==> zero)
      invariant forall j :: 0 <= j < |s| ==> s[j] < i
      invariant Distinct(s) && forall j, k :: 0 <= j < k < |s| ==> s[j] < s[k]
    {
      if (indeg[i] == 0) == zero {
        s := s + [i];
      }
    }
  }

  /** Appending a node all of whose predecessors are placed keeps the placed nodes ordered. */
  method AppendReady(adj: seq<seq<nat>>, order: seq<nat>, ghost done: set<nat>, u: nat) returns (longer: seq<nat>)
    requires WellFormed(adj) && Distinct(order) && (forall v: nat :: v in done <==> v in order) && u !in order
    requires forall k :: 0 <= k < |order| ==> Ordered(adj, order, k)
    requires Pending(adj, |adj|, done, u) == 0
    ensures longer == order + [u] && Distinct(longer)
    ensures forall k :: 0 <= k < |longer| ==> Ordered(adj, longer, k)
  {
    longer := order + [u];
    PendingPredecessor(adj, |adj|, done, u);
    forall k | 0 <= k < |longer| ensures Ordered(adj, longer, k) {
      forall v: nat | Edge(adj, v, longer[k]) ensures exists j :: 0 <= j < k && longer[j] == v {
        if k < |order| {
          assert Ordered(adj, order, k);
          var j :| 0 <= j < k && order[j] == v;
          assert longer[j] == v;
        } else {
          var j :| 0 <= j < |order| && order[j] == v;
          assert longer[j] == v;
        }
      }
    }
  }

  /** Lowers the in-degree of every successor of u, queueing the ones that reach zero. */
  method Release(adj: seq<seq<nat>>, u: nat, indeg: array<nat>, q0: seq<nat>, ghost done: set<nat>)
    returns (q: seq<nat>)
    requires WellFormed(adj) && indeg.Length == |adj| && u < |adj| && u in done
    requires Ready(indeg[..], done - {u}, q0 + [u])
    requires Counted(adj, indeg[..], done - {u})
    modifies indeg
    ensures Ready(indeg[..], done, q) && Counted(adj, indeg[..], done)
  {
    q := q0;
    ReadyPopped(indeg[..], done, q0, u);
    CountsStart(adj, indeg[..], done, u);
    hide Ready, Counts, Counted;
    for k := 0 to |adj[u]|
      invariant Ready(indeg[..], done, q) && Counts(adj, indeg[..], done, u, k)
    {
      var v := adj[u][k];
      CountsStep(adj, indeg[..], done, u, k);
      ReadyAfterRelease(indeg[..], done, q, v);
      Decrement(indeg, v);
      if indeg[v] == 0 {
        q := q + [v];
      }
    }
    CountsDone(adj, indeg[..], done, u);
  }

  method Decrement(indeg: array<nat>, v: nat)
    requires v < indeg.Length && indeg[v] > 0
    modifies indeg
    ensures indeg[..] == old(indeg[..])[v := old(indeg[v]) - 1]
  {
    indeg[v] := indeg[v] - 1;
  }

  /** The in-degrees still count the entries of u's list from position k on. */
  ghost predicate Counts(adj: seq<seq<nat>>, indeg: seq<nat>, done: set<nat>, u: nat, k: nat) {
    && |indeg| == |adj| && u < |adj| && k <= |adj[u]|
    && forall v: nat :: v < |adj| ==> indeg[v] == Pending(adj, |adj|, done, v) + Rest(adj[u], k, v)
  }

  lemma CountsStart(adj: seq<seq<nat>>, indeg: seq<nat>, done: set<nat>, u: nat)
    requires u < |adj| && u in done && Counted(adj, indeg, done - {u})
    ensures Counts(adj, indeg, done, u, 0)
  {
    PendingReleased(adj, done, u);
    hide Pending;
  }

  lemma CountsStep(adj: seq<seq<nat>>, indeg: seq<nat>, done: set<nat>, u: nat, k: nat)
    requires Counts(adj, indeg, done, u, k) && k < |adj[u]| && WellFormed(adj)
    ensures var v := adj[u][k]; indeg[v] > 0 && Counts(adj, indeg[v := indeg[v] - 1], done, u, k + 1)
  {
    RestStep(adj[u], k);
    hide Pending, Rest;
  }

  lemma CountsDone(adj: seq<seq<nat>>, indeg: seq<nat>, done: set<nat>, u: nat)
    requires u < |adj| && Counts(adj, indeg, done, u, |adj[u]|)
    ensures Counted(adj, indeg, done)
  {
    hide Pending, Rest;
  }

  lemma ReadyAfterRelease(indeg: seq<nat>, done: set<nat>, q: seq<nat>, v: nat)
    requires v < |indeg| && indeg[v] > 0 && Ready(indeg, done, q)
    ensures Ready(indeg[v := indeg[v] - 1], done, if indeg[v] == 1 then q + [v] else q)
  {
  }

  /** The number of entries for v in s from position k on. */
  ghost function Rest(s: seq<nat>, k: nat, v: nat): (r: nat)
    requires k <= |s|
    ensures k == 0 ==> r == multiset(s)[v]
    ensures k == |s| ==> r == 0
  {
    assert s[0..] == s;
    multiset(s[k..])[v]
  }

  lemma RestStep(s: seq<nat>, k: nat)
    requires k < |s|
    ensures forall v :: Rest(s, k, v) == Rest(s, k + 1, v) + if v == s[k] then 1 else 0
  {
    assert s[k..] == [s[k]] + s[k + 1..];
  }

  // ---- Building the edges ----

  /** The driver table after the nodes have written their output nets in order, later ones winning. */
  method NetWriters(comps: seq<Component>, nodes: seq<nat>) returns (writer: map<int, nat>)
    requires NodesOf(comps, nodes)
    ensures IsWriterTable(comps, nodes, writer)
  {
    writer := map[];
    for i := 0 to |nodes|
      invariant forall net :: net in writer ==> net >= 0 && writer[net] < i && Drives(comps[nodes[writer[net]]], net)
      invariant forall net, a :: net >= 0 && 0 <= a < i && Drives(comps[nodes[a]], net) ==> net in writer && a <= writer[net]
    {
      writer := ClaimOutputs(comps[nodes[i]], i, writer);
    }
  }

  /** The output loop for one node: its nets now belong to it. */
  method ClaimOutputs(c: Component, i: nat, before: map<int, nat>) returns (writer: map<int, nat>)
    ensures forall net :: net in writer <==> net in before || (net >= 0 && Drives(c, net))
    ensures forall net :: net in writer ==> writer[net] == if net >= 0 && Drives(c, net) then i else before[net]
  {
    writer := before;
    for o := 0 to |c.outputs|
      invariant forall net :: net in before ==> net in writer
      invariant forall net :: net in writer ==>
        (net >= 0 && writer[net] == i && Drives(c, net)) || (net in before && writer[net] == before[net])
      invariant forall k :: 0 <= k < o && c.outputs[k].net >= 0 ==>
        c.outputs[k].net in writer && writer[c.outputs[k].net] == i
    {
      if c.outputs[o].net >= 0 {
        writer := writer[c.outputs[o].net := i];
      }
    }
  }

  /** The adjacency lists hold exactly the data-flow edges, and indeg counts their entries. */
  ghost predicate EdgesUpTo(comps: seq<Component>, nodes: seq<nat>, adj: seq<seq<nat>>, bound: nat)
    requires NodesOf(comps, nodes)
  {
    && |adj| == |nodes| && WellFormed(adj)
    && forall a: nat, b: nat :: a < |nodes| ==> (b in adj[a] <==> b < bound && DataEdge(comps, nodes, a, b))
  }

  /** The edge that pin k of node b stands for, if its net has a writer other than b itself. */
  ghost predicate PinEdge(comps: seq<Component>, nodes: seq<nat>, a: nat, b: nat, k: nat)
    requires NodesOf(comps, nodes) && b < |nodes| && k < |comps[nodes[b]].inputs|
  {
    var net := comps[nodes[b]].inputs[k];
    net >= 0 && a != b && LastWriter(comps, nodes, net, a)
  }

  method BuildEdges(comps: seq<Component>, nodes: seq<nat>, indeg: array<nat>) returns (adj: seq<seq<nat>>)
    requires NodesOf(comps, nodes) && indeg.Length == |nodes|
    requires forall v :: 0 <= v < indeg.Length ==> indeg[v] == 0
    modifies indeg
    ensures EdgesUpTo(comps, nodes, adj, |nodes|) && Counted(adj, indeg[..], {})
  {
    var writer := NetWriters(comps, nodes);
    adj := seq(|nodes|, _ => []);
    forall v: nat | v < |adj| ensures Pending(adj, |adj|, {}, v) == 0 {
      PendingOfEmpty(adj, |adj|, v);
    }
    for b := 0 to |nodes|
      invariant EdgesUpTo(comps, nodes, adj, b) && Counted(adj, indeg[..], {})
    {
      adj := ConnectInputs(comps, nodes, writer, b, adj, indeg);
    }
  }

  ghost predicate IsWriterTable(comps: seq<Component>, nodes: seq<nat>, writer: map<int, nat>)
    requires NodesOf(comps, nodes)
  {
    && (forall net :: net in writer ==> net >= 0 && LastWriter(comps, nodes, net, writer[net]))
    && (forall net, a: nat :: net >= 0 && LastWriter(comps, nodes, net, a) ==> net in writer && writer[net] == a)
  }

  /** The input loop for node b: one adjacency entry per pin whose net another node writes. */
  method ConnectInputs(comps: seq<Component>, nodes: seq<nat>, writer: map<int, nat>, b: nat, before: seq<seq<nat>>,
                       indeg: array<nat>) returns (adj: seq<seq<nat>>)
    requires NodesOf(comps, nodes) && indeg.Length == |nodes| && b < |nodes|
    requires IsWriterTable(comps, nodes, writer)
    requires EdgesUpTo(comps, nodes, before, b) && Counted(before, indeg[..], {})
    modifies indeg
    ensures EdgesUpTo(comps, nodes, adj, b + 1) && Counted(adj, indeg[..], {})
  {
    var ins := comps[nodes[b]].inputs;
    adj := before;
    PinsStart(comps, nodes, before, b);
    hide EdgesUpTo, PinsUpTo, IsWriterTable, Counted;
    for k := 0 to |ins|
      invariant |adj| == |nodes| && PinsUpTo(comps, nodes, before, b, k, adj) && Counted(adj, indeg[..], {})
    {
      PinsStep(comps, nodes, writer, before, b, k, adj);
      if ins[k] >= 0 && ins[k] in writer && writer[ins[k]] != b {
        var a := writer[ins[k]];
        CountedAfterInsert(adj, indeg[..], a, b);
        ghost var was := indeg[..];
        adj := adj[a := adj[a] + [b]];
        indeg[b] := indeg[b] + 1;
        assert indeg[..] == was[b := was[b] + 1];
      }
    }
    PinsDone(comps, nodes, before, b, adj);
  }

  /** The lists hold the edges from before, and those that the first k pins of node b stand for. */
  ghost predicate PinsUpTo(comps: seq<Component>, nodes: seq<nat>, before: seq<seq<nat>>, b: nat, k: nat, adj: seq<seq<nat>>)
    requires NodesOf(comps, nodes) && b < |nodes| && k <= |comps[nodes[b]].inputs|
  {
    && |adj| == |nodes| == |before| && WellFormed(adj)
    && forall a: nat, v: nat :: a < |nodes| ==>
         (v in adj[a] <==> v in before[a] || (v == b && exists j: nat :: j < k && PinEdge(comps, nodes, a, b, j)))
  }

  lemma PinsStart(comps: seq<Component>, nodes: seq<nat>, before: seq<seq<nat>>, b: nat)
    requires NodesOf(comps, nodes) && b < |nodes| && EdgesUpTo(comps, nodes, before, b)
    ensures |before| == |nodes| && PinsUpTo(comps, nodes, before, b, 0, before)
  {
  }

  lemma PinsStep(comps: seq<Component>, nodes: seq<nat>, writer: map<int, nat>, before: seq<seq<nat>>, b: nat, k: nat,
                 adj: seq<seq<nat>>)
    requires NodesOf(comps, nodes) && b < |nodes| && IsWriterTable(comps, nodes, writer)
    requires k < |comps[nodes[b]].inputs| && PinsUpTo(comps, nodes, before, b, k, adj)
    ensures var net := comps[nodes[b]].inputs[k];
      if net >= 0 && net in writer && writer[net] != b
      then writer[net] < |adj| && PinsUpTo(comps, nodes, before, b, k + 1, adj[writer[net] := adj[writer[net]] + [b]])
      else PinsUpTo(comps, nodes, before, b, k + 1, adj)
  {
    var net := comps[nodes[b]].inputs[k];
    if net >= 0 && net in writer && writer[net] != b {
      var a := writer[net];
      assert PinEdge(comps, nodes, a, b, k);
      forall x: nat ensures PinEdge(comps, nodes, x, b, k) <==> x == a {
        hide PinsUpTo;
      }
    } else {
      forall x: nat ensures !PinEdge(comps, nodes, x, b, k) {
        hide PinsUpTo;
      }
    }
    hide IsWriterTable, PinEdge;
  }

  lemma PinsDone(comps: seq<Component>, nodes: seq<nat>, before: seq<seq<nat>>, b: nat, adj: seq<seq<nat>>)
    requires NodesOf(comps, nodes) && b < |nodes| && EdgesUpTo(comps, nodes, before, b)
    requires PinsUpTo(comps, nodes, before, b, |comps[nodes[b]].inputs|, adj)
    ensures EdgesUpTo(comps, nodes, adj, b + 1)
  {
    forall a: nat | a < |nodes|
      ensures (exists j: nat :: j < |comps[nodes[b]].inputs| && PinEdge(comps, nodes, a, b, j)) <==> DataEdge(comps, nodes, a, b)
    {
      PinEdgesAreDataEdges(comps, nodes, a, b);
    }
    hide PinEdge, DataEdge;
  }

  lemma PinEdgesAreDataEdges(comps: seq<Component>, nodes: seq<nat>, a: nat, b: nat)
    requires NodesOf(comps, nodes) && a < |nodes| && b < |nodes|
    ensures (exists j: nat :: j < |comps[nodes[b]].inputs| && PinEdge(comps, nodes, a, b, j)) <==> DataEdge(comps, nodes, a, b)
  {
    if DataEdge(comps, nodes, a, b) {
      var net :| Reads(comps[nodes[b]], net) && LastWriter(comps, nodes, net, a);
      var j: nat :| j < |comps[nodes[b]].inputs| && comps[nodes[b]].inputs[j] == net;
      assert PinEdge(comps, nodes, a, b, j);
    }
  }

  // ---- The whole order ----

  /** The same edge between component numbers. */
  ghost predicate Feeds(comps: seq<Component>, nodes: seq<nat>, i: nat, j: nat)
    requires NodesOf(comps, nodes)
  {
    exists a, b :: 0 <= a < |nodes| && 0 <= b < |nodes| && nodes[a] == i && nodes[b] == j && DataEdge(comps, nodes, a, b)
  }

  /** i occurs in the sequence before position k. */
  ghost predicate Before(order: seq<nat>, i: nat, k: nat) {
    exists j :: 0 <= j < k && j < |order| && order[j] == i
  }

  ghost predicate FedFrom(comps: seq<Component>, nodes: seq<nat>, some: seq<nat>, j: nat)
    requires NodesOf(comps, nodes)
  {
    exists i: nat :: i in some && Feeds(comps, nodes, i, j)
  }

  /** What topoOrder promises of its split of the nodes into an order and leftovers. */
  ghost predicate Sorted(comps: seq<Component>, nodes: seq<nat>, order: seq<nat>, leftovers: seq<nat>)
    requires NodesOf(comps, nodes)
  {
    // a permutation of the nodes, the leftovers in their original order
    && Distinct(order + leftovers)
    && (forall i: nat :: i in nodes <==> i in order || i in leftovers)
    && (forall j, k :: 0 <= j < k < |leftovers| ==> Position(nodes, leftovers[j]) < Position(nodes, leftovers[k]))
    // every edge into an ordered node comes from an earlier one
    && (forall i: nat, k: nat :: k < |order| && Feeds(comps, nodes, i, order[k]) ==> Before(order, i, k))
    // every leftover waits for a leftover
    && (forall j {:trigger FedFrom(comps, nodes, leftovers, j)} :: j in leftovers ==> FedFrom(comps, nodes, leftovers, j))
  }

  method Order(comps: seq<Component>, nodes: seq<nat>) returns (order: seq<nat>, leftovers: seq<nat>)
    requires NodesOf(comps, nodes)
    ensures Sorted(comps, nodes, order, leftovers)
  {
    var indeg := new nat[|nodes|](_ => 0);
    var adj := BuildEdges(comps, nodes, indeg);
    var o, l := Kahn(adj, indeg);
    assert forall i :: 0 <= i < |o| ==> o[i] in o;
    assert forall i :: 0 <= i < |l| ==> l[i] in l;
    order := seq(|o|, i requires 0 <= i < |o| => nodes[o[i]]);
    leftovers := seq(|l|, i requires 0 <= i < |l| => nodes[l[i]]);
    SortedFromPositions(comps, nodes, adj, o, l, order, leftovers);
  }

  /** The components at the given positions of the node list. */
  ghost predicate At(nodes: seq<nat>, positions: seq<nat>, ids: seq<nat>) {
    |ids| == |positions| && forall i :: 0 <= i < |ids| ==> positions[i] < |nodes| && ids[i] == nodes[positions[i]]
  }

  lemma AtMembers(nodes: seq<nat>, positions: seq<nat>, ids: seq<nat>)
    requires At(nodes, positions, ids)
    ensures forall a: nat :: a in positions ==> a < |nodes| && nodes[a] in ids
    ensures forall i: nat :: i in ids ==> exists a: nat :: a in positions && a < |nodes| && nodes[a] == i
  {
    forall a: nat | a in positions ensures a < |nodes| && nodes[a] in ids {
      var k :| 0 <= k < |positions| && positions[k] == a;
      assert ids[k] == nodes[a];
    }
    forall i: nat | i in ids ensures exists a: nat :: a in positions && a < |nodes| && nodes[a] == i {
      var k :| 0 <= k < |ids| && ids[k] == i;
      assert positions[k] in positions;
    }
  }

  lemma PermutationFromPositions(comps: seq<Component>, nodes: seq<nat>, o: seq<nat>, l: seq<nat>,
                                 order: seq<nat>, leftovers: seq<nat>)
    requires NodesOf(comps, nodes) && At(nodes, o, order) && At(nodes, l, leftovers)
    requires Distinct(o) && Distinct(l)
    requires forall v: nat :: v < |nodes| <==> v in o || v in l
    requires forall v :: v in o ==> v !in l
    ensures Distinct(order + leftovers)
    ensures forall i: nat :: i in nodes <==> i in order || i in leftovers
  {
    AtMembers(nodes, o, order);
    AtMembers(nodes, l, leftovers);
    forall j, k | 0 <= j < |order| && 0 <= k < |leftovers| ensures order[j] != leftovers[k] {
      assert o[j] in o && l[k] in l;
    }
  }

  lemma EdgesFromPositions(comps: seq<Component>, nodes: seq<nat>, adj: seq<seq<nat>>, o: seq<nat>, order: seq<nat>,
                           i: nat, k: nat)
    requires NodesOf(comps, nodes) && EdgesUpTo(comps, nodes, adj, |nodes|) && At(nodes, o, order)
    requires k < |o| && Ordered(adj, o, k) && Feeds(comps, nodes, i, order[k])
    ensures Before(order, i, k)
  {
    var a, b :| 0 <= a < |nodes| && 0 <= b < |nodes| && nodes[a] == i && nodes[b] == order[k] && DataEdge(comps, nodes, a, b);
    assert b == o[k] && Edge(adj, a, b);
    var j :| 0 <= j < k && o[j] == a;
    assert order[j] == i;
  }

  lemma WaitingFromPositions(comps: seq<Component>, nodes: seq<nat>, adj: seq<seq<nat>>, l: seq<nat>, leftovers: seq<nat>,
                             j: nat)
    requires NodesOf(comps, nodes) && EdgesUpTo(comps, nodes, adj, |nodes|) && At(nodes, l, leftovers)
    requires j < |l| && WaitsIn(adj, l, l[j])
    ensures FedFrom(comps, nodes, leftovers, leftovers[j])
  {
    var u: nat :| u in l && Edge(adj, u, l[j]);
    AtMembers(nodes, l, leftovers);
    assert DataEdge(comps, nodes, u, l[j]);
    assert Feeds(comps, nodes, nodes[u], leftovers[j]);
  }

  lemma SortedFromPositions(comps: seq<Component>, nodes: seq<nat>, adj: seq<seq<nat>>, o: seq<nat>, l: seq<nat>,
                            order: seq<nat>, leftovers: seq<nat>)
    requires NodesOf(comps, nodes) && EdgesUpTo(comps, nodes, adj, |nodes|)
    requires At(nodes, o, order) && At(nodes, l, leftovers)
    requires Distinct(o) && Distinct(l)
    requires forall v: nat :: v < |nodes| <==> v in o || v in l
    requires forall v :: v in o ==> v !in l
    requires forall i, j :: 0 <= i < j < |l| ==> l[i] < l[j]
    requires forall k :: 0 <= k < |o| ==> Ordered(adj, o, k)
    requires forall v {:trigger WaitsIn(adj, l, v)} :: v in l ==> WaitsIn(adj, l, v)
    ensures Sorted(comps, nodes, order, leftovers)
  {
    PermutationFromPositions(comps, nodes, o, l, order, leftovers);
    forall j, k | 0 <= j < k < |leftovers| ensures Position(nodes, leftovers[j]) < Position(nodes, leftovers[k]) {
      assert leftovers[j] in nodes && leftovers[k] in nodes;
      assert Position(nodes, leftovers[j]) == l[j] && Position(nodes, leftovers[k]) == l[k];
    }
    forall i: nat, k: nat | k < |order| && Feeds(comps, nodes, i, order[k]) ensures Before(order, i, k) {
      EdgesFromPositions(comps, nodes, adj, o, order, i, k);
    }
    forall j | j in leftovers ensures FedFrom(comps, nodes, leftovers, j) {
      var k :| 0 <= k < |l| && leftovers[k] == j;
      assert l[k] in l && WaitsIn(adj, l, l[k]);
      WaitingFromPositions(comps, nodes, adj, l, leftovers, k);
    }
  }
}
