/** What depends on the wiring of a circuit alone, whatever its components compute. */
module Wiring {
  import opened Netlist
  import opened Graph
  import opened TopoOrder
  import TriAffected
  import opened TickSpec
  import opened TickTheorems
  import opened Settling
  import opened ClockSources

  /** The same pins on the same nets, whatever the components compute. */
  ghost predicate SameWiring(k: Circuit, j: Circuit) {
    && |j.comps| == |k.comps| && j.nets == k.nets && j.bus == k.bus
    && forall i :: 0 <= i < |k.comps| ==> SamePins(k.comps[i], j.comps[i])
  }

  predicate SamePins(a: Component, b: Component) {
    a.inputs == b.inputs && a.outputs == b.outputs && a.comb == b.comb && a.clock == b.clock
  }

  lemma SameOutputs(k: Circuit, j: Circuit)
    requires SameWiring(k, j)
    ensures forall d :: IsOutput(k, d) <==> IsOutput(j, d)
    ensures forall d :: IsOutput(k, d) ==> PinOf(k, d) == PinOf(j, d)
    ensures forall d, net :: On(k, d, net) <==> On(j, d, net)
    ensures forall d, net :: TriOn(k, d, net) <==> TriOn(j, d, net)
    ensures forall net :: TriNet(k, net) <==> TriNet(j, net)
    ensures forall net :: Shared(k, net) <==> Shared(j, net)
  {
    forall d ensures IsOutput(k, d) <==> IsOutput(j, d) {
      if d.comp < |k.comps| {
        assert SamePins(k.comps[d.comp], j.comps[d.comp]);
      }
    }
    forall d | IsOutput(k, d) ensures PinOf(k, d) == PinOf(j, d) {
      assert SamePins(k.comps[d.comp], j.comps[d.comp]);
    }
    assert forall d, net :: TriOn(k, d, net) <==> TriOn(j, d, net);
  }

  lemma SameConnections(k: Circuit, j: Circuit, i: nat, net: int)
    requires SameWiring(k, j) && i < |k.comps|
    ensures Drives(k.comps[i], net) <==> Drives(j.comps[i], net)
    ensures Reads(k.comps[i], net) <==> Reads(j.comps[i], net)
  {
  }

  lemma WiringKeepsChecked(k: Circuit, j: Circuit)
    requires SameWiring(k, j) && Checked(k)
    ensures Checked(j)
  {
    SameOutputs(k, j);
    forall i | 0 <= i < |j.comps| ensures SamePins(k.comps[i], j.comps[i]) {}
    assert SingleDriver(j) by {
      forall d, e, net | net >= 0 && On(j, d, net) && On(j, e, net) && d != e ensures PinOf(j, d).tri {
        assert On(k, d, net) && On(k, e, net);
      }
    }
  }

  lemma {:induction false} SameSuccessors(k: Circuit, j: Circuit, i: nat, n: nat)
    requires SameWiring(k, j) && i < |k.comps| && n <= |k.comps|
    ensures Successors(k, i, n) == Successors(j, i, n)
  {
    if n > 0 {
      SameSuccessors(k, j, i, n - 1);
      SameFlow(k, j, i, n - 1);
    }
  }

  lemma SameFlow(k: Circuit, j: Circuit, a: nat, b: nat)
    requires SameWiring(k, j) && a < |k.comps| && b < |k.comps|
    ensures TriAffected.Flows(k.comps[a], k.comps[b]) <==> TriAffected.Flows(j.comps[a], j.comps[b])
  {
    assert SamePins(k.comps[a], j.comps[a]) && SamePins(k.comps[b], j.comps[b]);
    forall net ensures Reads(k.comps[b], net) && Drives(k.comps[a], net) <==> Reads(j.comps[b], net) && Drives(j.comps[a], net) {
      SameConnections(k, j, a, net);
      SameConnections(k, j, b, net);
    }
  }

  lemma WiringKeepsFlow(k: Circuit, j: Circuit)
    requires SameWiring(k, j)
    ensures FlowGraph(j) == FlowGraph(k)
  {
    forall i | 0 <= i < |k.comps| ensures FlowGraph(j)[i] == FlowGraph(k)[i] {
      SameSuccessors(k, j, i, |k.comps|);
      assert SamePins(k.comps[i], j.comps[i]);
    }
  }

  lemma SameFeeds(k: Circuit, j: Circuit, nodes: seq<nat>)
    requires SameWiring(k, j) && NodesOf(k.comps, nodes)
    ensures forall a: nat, b: nat :: Feeds(k.comps, nodes, a, b) <==> Feeds(j.comps, nodes, a, b)
  {
    forall a: nat, b: nat ensures DataEdge(k.comps, nodes, a, b) <==> DataEdge(j.comps, nodes, a, b) {
      SameDataEdge(k, j, nodes, a, b);
    }
  }

  lemma SameDataEdge(k: Circuit, j: Circuit, nodes: seq<nat>, a: nat, b: nat)
    requires SameWiring(k, j) && NodesOf(k.comps, nodes)
    ensures DataEdge(k.comps, nodes, a, b) <==> DataEdge(j.comps, nodes, a, b)
  {
    forall net ensures LastWriter(k.comps, nodes, net, a) <==> LastWriter(j.comps, nodes, net, a) {
      forall c | 0 <= c < |nodes| ensures Drives(k.comps[nodes[c]], net) <==> Drives(j.comps[nodes[c]], net) {
        SameConnections(k, j, nodes[c], net);
      }
    }
    if b < |nodes| {
      forall net ensures Reads(k.comps[nodes[b]], net) <==> Reads(j.comps[nodes[b]], net) {
        SameConnections(k, j, nodes[b], net);
      }
    }
  }

  lemma WiringKeepsSorted(k: Circuit, j: Circuit, nodes: seq<nat>, order: seq<nat>)
    requires SameWiring(k, j) && NodesOf(k.comps, nodes) && Sorted(k.comps, nodes, order, [])
    ensures Sorted(j.comps, nodes, order, [])
  {
    SameFeeds(k, j, nodes);
    hide Feeds;
  }

  lemma WiringKeepsComplete(k: Circuit, j: Circuit, order: seq<nat>, clocks: bool)
    requires SameWiring(k, j) && Complete(k, order, clocks)
    ensures Complete(j, order, clocks)
  {
    var nodes :| NodesOf(k.comps, nodes)
      && (forall i: nat :: i in nodes <==> i < |k.comps| && (k.comps[i].comb || (clocks && k.comps[i].clock)))
      && Sorted(k.comps, nodes, order, []);
    hide Sorted;
    WiringKeepsSorted(k, j, nodes, order);
    forall i | 0 <= i < |k.comps| ensures SamePins(k.comps[i], j.comps[i]) {}
    assert forall i: nat :: i in nodes <==> i < |j.comps| && (j.comps[i].comb || (clocks && j.comps[i].clock));
  }

  lemma WiringKeepsReruns(k: Circuit, j: Circuit, p: Plan)
    requires SameWiring(k, j) && PlanFits(k, p) && TriAffected.Reruns(k.comps, p.sorted, p.affected)
    ensures TriAffected.Reruns(j.comps, p.sorted, p.affected)
  {
    forall i | 0 <= i < |k.comps| ensures SamePins(k.comps[i], j.comps[i]) {}
    forall i | i in p.sorted && j.comps[i].comb && TriAffected.ReadsTriNet(j.comps, j.comps[i]) ensures i in p.affected {
      var net :| Reads(j.comps[i], net) && TriAffected.IsTriNet(j.comps, net);
      SameConnections(k, j, i, net);
      SameOutputs(k, j);
      TriNetsAgree(k, net);
      TriNetsAgree(j, net);
      assert TriAffected.ReadsTriNet(k.comps, k.comps[i]);
    }
    forall a, b | a in p.affected && b in p.sorted && a < |j.comps| && j.comps[b].comb && TriAffected.Flows(j.comps[a], j.comps[b])
      ensures b in p.affected
    {
      SameFlow(k, j, a, b);
    }
  }

  lemma WiringKeepsPlan(k: Circuit, j: Circuit, p: Plan)
    requires SameWiring(k, j) && CompletePlan(k, p)
    ensures CompletePlan(j, p)
  {
    WiringKeepsComplete(k, j, p.joint, true);
    WiringKeepsComplete(k, j, p.sorted, false);
    WiringKeepsReruns(k, j, p);
  }

  lemma WiringKeepsLate(k: Circuit, j: Circuit, net: int)
    requires SameWiring(k, j)
    ensures Late(j, net) <==> Late(k, net)
  {
    SameOutputs(k, j);
    forall m: nat | m < |k.comps|
      ensures k.comps[m].comb == j.comps[m].comb && (Drives(k.comps[m], net) <==> Drives(j.comps[m], net))
    {
      assert SamePins(k.comps[m], j.comps[m]);
      SameConnections(k, j, m, net);
    }
  }

  lemma WiringKeepsWaits(k: Circuit, j: Circuit, i: nat)
    requires SameWiring(k, j)
    ensures Waits(j, i) <==> Waits(k, i)
  {
    WiringKeepsFlow(k, j);
    forall p ensures LateChain(k, p) <==> LateChain(j, p) {
      if |p| > 0 {
        WiringKeepsReadsLate(k, j, p[0]);
      }
    }
  }

  lemma WiringKeepsReadsLate(k: Circuit, j: Circuit, i: nat)
    requires SameWiring(k, j)
    ensures InPhase1(k, i) <==> InPhase1(j, i)
    ensures ReadsLate(k, i) <==> ReadsLate(j, i)
  {
    if i < |k.comps| {
      assert SamePins(k.comps[i], j.comps[i]);
      forall net ensures Reads(k.comps[i], net) && Late(k, net) <==> Reads(j.comps[i], net) && Late(j, net) {
        SameConnections(k, j, i, net);
        WiringKeepsLate(k, j, net);
      }
    }
  }

  lemma WiringKeepsClocksPrompt(k: Circuit, j: Circuit)
    requires SameWiring(k, j) && ClocksPrompt(k)
    ensures ClocksPrompt(j)
  {
    SameOutputs(k, j);
    forall i: nat | i < |j.comps| && j.comps[i].clock && Connected(j, i) ensures !Waits(j, i) {
      assert SamePins(k.comps[i], j.comps[i]);
      var d :| IsOutput(j, d) && d.comp == i && PinOf(j, d).net >= 0;
      assert Connected(k, i);
      WiringKeepsWaits(k, j, i);
    }
  }
}
