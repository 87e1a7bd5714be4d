/** Which combinational components phase 2b must re-run: the closure of "reads a tri-state net". */
module TriAffected {
  import opened Netlist
  import opened Graph

  ghost predicate IsTriNet(comps: seq<Component>, net: int) {
    net >= 0 && exists i, o :: 0 <= i < |comps| && 0 <= o < |comps[i].outputs| && comps[i].outputs[o] == OutPin(net, true, comps[i].outputs[o].sequential)
  }

  ghost predicate ReadsTriNet(comps: seq<Component>, c: Component) {
    exists net :: Reads(c, net) && IsTriNet(comps, net)
  }

  /** Some output net of a is an input net of b. */
  ghost predicate Flows(a: Component, b: Component) {
    exists net :: Reads(b, net) && Drives(a, net)
  }

  /** Every re-runnable component that reads a tri-state net or an output of a member is a member. */
  ghost predicate Closed(comps: seq<Component>, sorted: seq<nat>, members: set<nat>)
    requires forall k :: 0 <= k < |sorted| ==> sorted[k] < |comps|
  {
    && (forall j :: j in sorted && comps[j].comb && ReadsTriNet(comps, comps[j]) ==> j in members)
    && (forall i, j :: i in members && j in sorted && i < |comps| && comps[j].comb && Flows(comps[i], comps[j]) ==> j in members)
  }

  /** A closed set of combinational components of the order. */
  ghost predicate Reruns(comps: seq<Component>, sorted: seq<nat>, members: set<nat>)
    requires forall k :: 0 <= k < |sorted| ==> sorted[k] < |comps|
  {
    (forall j :: j in members ==> j in sorted && comps[j].comb) && Closed(comps, sorted, members)
  }

  /** The least of them. */
  ghost predicate Affected(comps: seq<Component>, sorted: seq<nat>, members: set<nat>)
    requires forall k :: 0 <= k < |sorted| ==> sorted[k] < |comps|
  {
    Reruns(comps, sorted, members) && forall other: set<nat> :: Closed(comps, sorted, other) ==> members <= other
  }

  method TriNets(comps: seq<Component>) returns (nets: set<int>)
    ensures forall net :: net in nets <==> IsTriNet(comps, net)
  {
    nets := {};
    for i := 0 to |comps|
      invariant forall net :: net in nets ==> IsTriNet(comps, net)
      invariant forall a, o :: 0 <= a < i && 0 <= o < |comps[a].outputs| && comps[a].outputs[o].tri && comps[a].outputs[o].net >= 0
                           ==> comps[a].outputs[o].net in nets
    {
      for o := 0 to |comps[i].outputs|
        invariant forall net :: net in nets ==> IsTriNet(comps, net)
        invariant forall a, b :: 0 <= a < i && 0 <= b < |comps[a].outputs| && comps[a].outputs[b].tri && comps[a].outputs[b].net >= 0
                             ==> comps[a].outputs[b].net in nets
        invariant forall b :: 0 <= b < o && comps[i].outputs[b].tri && comps[i].outputs[b].net >= 0
                          ==> comps[i].outputs[b].net in nets
      {
        var p := comps[i].outputs[o];
        if p.tri && p.net >= 0 {
          nets := nets + {p.net};
          assert comps[i].outputs[o] == OutPin(p.net, true, p.sequential);
        }
      }
    }
  }

  /** The queue lists the members, each once. */
  ghost predicate Queued(affected: set<nat>, queue: seq<nat>) {
    Distinct(queue) && forall j: nat :: j in affected <==> j in queue
  }

  lemma QueuedMore(affected: set<nat>, queue: seq<nat>, j: nat)
    requires Queued(affected, queue) && j !in affected
    ensures Queued(affected + {j}, queue + [j])
  {
  }

  method Compute(comps: seq<Component>, sorted: seq<nat>) returns (affected: set<nat>)
    requires forall k :: 0 <= k < |sorted| ==> sorted[k] < |comps|
    ensures Affected(comps, sorted, affected)
  {
    var queue;
    queue, affected := Seed(comps, sorted);
    var qi := 0;
    hide Partial, Affected;
    while qi < |queue|
      invariant 0 <= qi <= |queue|
      invariant Queued(affected, queue)
      invariant Partial(comps, sorted, affected, queue, qi)
      decreases Nodes(|comps|) - affected, |queue| - qi
    {
      queue, affected := Spread(comps, sorted, queue, affected, qi);
      MembersAreNodes(comps, sorted, affected, queue, qi + 1);
      qi := qi + 1;
    }
    PartialIsAffected(comps, sorted, affected, queue);
  }

  lemma MembersAreNodes(comps: seq<Component>, sorted: seq<nat>, affected: set<nat>, queue: seq<nat>, qi: nat)
    requires forall k :: 0 <= k < |sorted| ==> sorted[k] < |comps|
    requires qi <= |queue| && Partial(comps, sorted, affected, queue, qi)
    ensures affected <= Nodes(|comps|)
  {
  }

  lemma PartialIsAffected(comps: seq<Component>, sorted: seq<nat>, affected: set<nat>, queue: seq<nat>)
    requires forall k :: 0 <= k < |sorted| ==> sorted[k] < |comps|
    requires Partial(comps, sorted, affected, queue, |queue|) && Queued(affected, queue)
    ensures Affected(comps, sorted, affected)
  {
    assert queue[..|queue|] == queue;
  }

  /** The first k entries have put exactly their components that read a tri-state net into the set. */
  ghost predicate SeededUpTo(comps: seq<Component>, sorted: seq<nat>, affected: set<nat>, k: nat)
    requires forall k :: 0 <= k < |sorted| ==> sorted[k] < |comps|
  {
    forall j: nat :: j in affected <==>
      exists m :: 0 <= m < k && m < |sorted| && sorted[m] == j && comps[j].comb && ReadsTriNet(comps, comps[j])
  }

  /** The components that read a tri-state net. */
  method Seed(comps: seq<Component>, sorted: seq<nat>) returns (queue: seq<nat>, affected: set<nat>)
    requires forall k :: 0 <= k < |sorted| ==> sorted[k] < |comps|
    ensures Queued(affected, queue)
    ensures Partial(comps, sorted, affected, queue, 0)
  {
    var tri := TriNets(comps);
    affected := {};
    queue := [];
    assert SeededUpTo(comps, sorted, affected, 0) && Queued(affected, queue) && TriSet(comps, tri);
    hide SeededUpTo, ReadsTriNet, IsTriNet, Queued, TriSet;
    for k := 0 to |sorted|
      invariant Queued(affected, queue)
      invariant SeededUpTo(comps, sorted, affected, k)
    {
      var c := comps[sorted[k]];
      SeedStep(comps, sorted, affected, k);
      var touched := TouchesTri(comps, c, tri);
      if c.comb && touched {
        if sorted[k] !in affected {
          QueuedMore(affected, queue, sorted[k]);
          affected := affected + {sorted[k]};
          queue := queue + [sorted[k]];
        } else {
          assert affected + {sorted[k]} == affected;
        }
      }
    }
    SeededIsPartial(comps, sorted, affected, queue);
  }

  lemma SeedStep(comps: seq<Component>, sorted: seq<nat>, affected: set<nat>, k: nat)
    requires forall k :: 0 <= k < |sorted| ==> sorted[k] < |comps|
    requires k < |sorted| && SeededUpTo(comps, sorted, affected, k)
    ensures var c := comps[sorted[k]];
      SeededUpTo(comps, sorted, if c.comb && ReadsTriNet(comps, c) then affected + {sorted[k]} else affected, k + 1)
  {
    hide ReadsTriNet;
    var c := comps[sorted[k]];
    var more := if c.comb && ReadsTriNet(comps, c) then affected + {sorted[k]} else affected;
    forall j: nat | j in more
      ensures exists m :: 0 <= m < k + 1 && m < |sorted| && sorted[m] == j && comps[j].comb && ReadsTriNet(comps, comps[j])
    {
      if j in affected {
        var m :| 0 <= m < k && m < |sorted| && sorted[m] == j && comps[j].comb && ReadsTriNet(comps, comps[j]);
      } else {
        assert sorted[k] == j;
      }
    }
  }

  ghost predicate TriSet(comps: seq<Component>, tri: set<int>) {
    forall net :: net in tri <==> IsTriNet(comps, net)
  }

  /** Some input pin is on a tri-state net. */
  method TouchesTri(comps: seq<Component>, c: Component, tri: set<int>) returns (touches: bool)
    requires TriSet(comps, tri)
    ensures touches <==> ReadsTriNet(comps, c)
  {
    touches := false;
    for pin := 0 to |c.inputs|
      invariant !touches && forall p :: 0 <= p < pin ==> !(c.inputs[p] >= 0 && c.inputs[p] in tri)
    {
      if c.inputs[pin] >= 0 && c.inputs[pin] in tri {
        assert Reads(c, c.inputs[pin]);
        return true;
      }
    }
  }

  lemma SeededIsPartial(comps: seq<Component>, sorted: seq<nat>, affected: set<nat>, queue: seq<nat>)
    requires forall k :: 0 <= k < |sorted| ==> sorted[k] < |comps|
    requires SeededUpTo(comps, sorted, affected, |sorted|)
    ensures Partial(comps, sorted, affected, queue, 0)
  {
    forall j: nat | j in sorted && comps[j].comb && ReadsTriNet(comps, comps[j]) ensures j in affected {
      var m :| 0 <= m < |sorted| && sorted[m] == j;
    }
  }

  /** Members are combinational and forced; the seeds and the successors of the first qi entries are in. */
  ghost predicate Partial(comps: seq<Component>, sorted: seq<nat>, affected: set<nat>, queue: seq<nat>, qi: nat)
    requires forall k :: 0 <= k < |sorted| ==> sorted[k] < |comps|
    requires qi <= |queue|
  {
    && (forall j :: j in affected ==> j in sorted && comps[j].comb)
    && (forall j :: j in sorted && comps[j].comb && ReadsTriNet(comps, comps[j]) ==> j in affected)
    && (forall i, j :: i in queue[..qi] && j in sorted && i < |comps| && comps[j].comb && Flows(comps[i], comps[j]) ==> j in affected)
    && (forall other: set<nat> :: Closed(comps, sorted, other) ==> affected <= other)
  }

  /** Adds every component that reads an output of queue[qi]. */
  method Spread(comps: seq<Component>, sorted: seq<nat>, queue0: seq<nat>, affected0: set<nat>, qi: nat)
    returns (queue: seq<nat>, affected: set<nat>)
    requires forall k :: 0 <= k < |sorted| ==> sorted[k] < |comps|
    requires qi < |queue0|
    requires Queued(affected0, queue0)
    requires Partial(comps, sorted, affected0, queue0, qi)
    ensures queue0 <= queue && affected0 <= affected && (affected == affected0 ==> queue == queue0)
    ensures Queued(affected, queue)
    ensures Partial(comps, sorted, affected, queue, qi + 1)
  {
    queue, affected := queue0, affected0;
    var u := queue[qi];
    assert u in affected0;
    assert queue0[..qi + 1] == queue0[..qi] + [u];
    for o := 0 to |comps[u].outputs|
      invariant queue0 <= queue && affected0 <= affected && (affected == affected0 ==> queue == queue0)
      invariant Queued(affected, queue)
      invariant Partial(comps, sorted, affected, queue, qi)
      invariant forall j, b :: 0 <= b < o && j in sorted && comps[j].comb && Reads(comps[j], comps[u].outputs[b].net) ==> j in affected
    {
      var net := comps[u].outputs[o].net;
      if net >= 0 {
        queue, affected := SpreadNet(comps, sorted, queue, affected, qi, u, net);
      }
    }
    assert queue[..qi + 1] == queue[..qi] + [u];
    forall j | j in sorted && comps[j].comb && Flows(comps[u], comps[j]) ensures j in affected {
      var net :| Reads(comps[j], net) && Drives(comps[u], net);
      var b :| 0 <= b < |comps[u].outputs| && comps[u].outputs[b].net == net;
    }
  }

  /** Adds every component that reads one output net of queue[qi]. */
  method SpreadNet(comps: seq<Component>, sorted: seq<nat>, queue0: seq<nat>, affected0: set<nat>, qi: nat, u: nat, net: int)
    returns (queue: seq<nat>, affected: set<nat>)
    requires forall k :: 0 <= k < |sorted| ==> sorted[k] < |comps|
    requires qi < |queue0| && queue0[qi] == u && u < |comps| && net >= 0 && Drives(comps[u], net)
    requires Queued(affected0, queue0)
    requires Partial(comps, sorted, affected0, queue0, qi)
    ensures queue0 <= queue && affected0 <= affected && (affected == affected0 ==> queue == queue0)
    ensures Queued(affected, queue)
    ensures Partial(comps, sorted, affected, queue, qi)
    ensures forall j :: j in sorted && comps[j].comb && Reads(comps[j], net) ==> j in affected
  {
    queue, affected := queue0, affected0;
    for d := 0 to |sorted|
      invariant queue0 <= queue && affected0 <= affected && (affected == affected0 ==> queue == queue0)
      invariant Queued(affected, queue)
      invariant Partial(comps, sorted, affected, queue, qi)
      invariant forall b :: 0 <= b < d && comps[sorted[b]].comb && Reads(comps[sorted[b]], net) ==> sorted[b] in affected
    {
      var down := sorted[d];
      if comps[down].comb && down !in affected && net in comps[down].inputs {
        assert Flows(comps[u], comps[down]);
        QueuedMore(affected, queue, down);
        affected := affected + {down};
        queue := queue + [down];
        assert queue[..qi] == queue0[..qi];
      }
    }
  }
}
