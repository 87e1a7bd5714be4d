/** Circuit::check as a whole, and what its verdict gives the scheduler. */
module NetlistAudit {
  import opened Netlist
  import opened Graph
  import opened TopoOrder
  import opened TickSpec
  import opened TickTheorems
  import opened Settling
  import opened NetlistCheck

  // ---- The static dependency graph between nets ----

  /** The dependency lists name existing input pins. */
  ghost predicate DepsInRange(k: Circuit) {
    forall d, p :: IsOutput(k, d) && p in k.comps[d.comp].deps(d.out) ==> p < |k.comps[d.comp].inputs|
  }

  /** An output on net b statically depends on an input on net a. */
  ghost predicate NetDependsOn(k: Circuit, a: nat, b: nat) {
    exists d, p: nat :: IsOutput(k, d) && PinOf(k, d).net == b && p in k.comps[d.comp].deps(d.out) &&
      p < |k.comps[d.comp].inputs| && k.comps[d.comp].inputs[p] == a
  }

  ghost predicate IsNetGraph(k: Circuit, adj: seq<seq<nat>>) {
    && |adj| == k.nets && WellFormed(adj)
    && forall a: nat, b: nat :: a < k.nets ==> (b in adj[a] <==> NetDependsOn(k, a, b))
  }

  /** Edges from the outputs before (i, o), and from the first p dependencies of output (i, o). */
  ghost predicate EdgeSoFar(k: Circuit, a: nat, b: nat, i: nat, o: nat, p: nat) {
    exists d, j: nat ::
      && IsOutput(k, d) && PinOf(k, d).net == b && j < |k.comps[d.comp].deps(d.out)|
      && k.comps[d.comp].deps(d.out)[j] < |k.comps[d.comp].inputs|
      && k.comps[d.comp].inputs[k.comps[d.comp].deps(d.out)[j]] == a
      && (d.comp < i || (d.comp == i && (d.out < o || (d.out == o && j < p))))
  }

  ghost predicate GraphSoFar(k: Circuit, adj: seq<seq<nat>>, i: nat, o: nat, p: nat) {
    && |adj| == k.nets && WellFormed(adj)
    && forall a: nat, b: nat :: a < k.nets ==> (b in adj[a] <==> EdgeSoFar(k, a, b, i, o, p))
  }

  method NetGraph(k: Circuit) returns (adj: seq<seq<nat>>)
    requires PinsInRange(k) && DepsInRange(k)
    ensures IsNetGraph(k, adj)
  {
    adj := seq(k.nets, _ => []);
    for i := 0 to |k.comps|
      invariant GraphSoFar(k, adj, i, 0, 0)
    {
      for o := 0 to |k.comps[i].outputs|
        invariant GraphSoFar(k, adj, i, o, 0)
      {
        var out := k.comps[i].outputs[o].net;
        if out >= 0 {
          var deps := k.comps[i].deps(o);
          for p := 0 to |deps|
            invariant GraphSoFar(k, adj, i, o, p)
          {
            assert IsOutput(k, Driver(i, o)) && deps[p] in deps;
            var source := k.comps[i].inputs[deps[p]];
            OneMoreEdge(k, i, o, p);
            if source >= 0 {
              adj := adj[source := adj[source] + [out]];
            }
          }
          NextOutput(k, i, o);
        } else {
          NextOutput(k, i, o);
        }
      }
      NextComponent(k, i);
    }
    assert forall a: nat, b: nat :: EdgeSoFar(k, a, b, |k.comps|, 0, 0) <==> NetDependsOn(k, a, b) by {
      AllEdges(k);
    }
  }

  lemma OneMoreEdge(k: Circuit, i: nat, o: nat, p: nat)
    requires i < |k.comps| && o < |k.comps[i].outputs| && DepsInRange(k)
    requires p < |k.comps[i].deps(o)| && k.comps[i].deps(o)[p] < |k.comps[i].inputs|
    ensures forall a: nat, b: nat :: EdgeSoFar(k, a, b, i, o, p + 1) <==>
      EdgeSoFar(k, a, b, i, o, p) || (b == k.comps[i].outputs[o].net && a == k.comps[i].inputs[k.comps[i].deps(o)[p]])
  {
    var b := k.comps[i].outputs[o].net;
    var a := k.comps[i].inputs[k.comps[i].deps(o)[p]];
    if a >= 0 && b >= 0 {
      assert IsOutput(k, Driver(i, o)) && PinOf(k, Driver(i, o)).net == b;
      assert EdgeSoFar(k, a, b, i, o, p + 1);
    }
  }

  lemma NextOutput(k: Circuit, i: nat, o: nat)
    requires i < |k.comps| && o < |k.comps[i].outputs|
    ensures forall a: nat, b: nat :: EdgeSoFar(k, a, b, i, o + 1, 0) <==>
      if k.comps[i].outputs[o].net >= 0 then EdgeSoFar(k, a, b, i, o, |k.comps[i].deps(o)|) else EdgeSoFar(k, a, b, i, o, 0)
  {
  }

  lemma NextComponent(k: Circuit, i: nat)
    requires i < |k.comps|
    ensures forall a: nat, b: nat :: EdgeSoFar(k, a, b, i + 1, 0, 0) <==> EdgeSoFar(k, a, b, i, |k.comps[i].outputs|, 0)
  {
  }

  lemma AllEdges(k: Circuit)
    requires DepsInRange(k)
    ensures forall a: nat, b: nat :: EdgeSoFar(k, a, b, |k.comps|, 0, 0) <==> NetDependsOn(k, a, b)
  {
    forall a: nat, b: nat | NetDependsOn(k, a, b) ensures EdgeSoFar(k, a, b, |k.comps|, 0, 0) {
      var d, p: nat :| IsOutput(k, d) && PinOf(k, d).net == b && p in k.comps[d.comp].deps(d.out) &&
        p < |k.comps[d.comp].inputs| && k.comps[d.comp].inputs[p] == a;
      var j: nat :| j < |k.comps[d.comp].deps(d.out)| && k.comps[d.comp].deps(d.out)[j] == p;
    }
  }

  // ---- Drivers per net ----

  ghost predicate ListsUpTo(k: Circuit, lists: seq<seq<Driver>>, triOnly: bool, i: nat, o: nat) {
    && |lists| == k.nets
    && forall net :: 0 <= net < k.nets ==> Distinct(lists[net]) && forall d :: d in lists[net] <==>
         On(k, d, net) && (triOnly ==> PinOf(k, d).tri) && (d.comp < i || (d.comp == i && d.out < o))
  }

  /** The outputs on every net in component and pin order, or only the tri-state ones. */
  method DriverLists(k: Circuit, triOnly: bool) returns (lists: seq<seq<Driver>>)
    requires PinsInRange(k)
    ensures ListsUpTo(k, lists, triOnly, |k.comps|, 0)
  {
    lists := seq(k.nets, _ => []);
    for i := 0 to |k.comps|
      invariant ListsUpTo(k, lists, triOnly, i, 0)
    {
      for o := 0 to |k.comps[i].outputs|
        invariant ListsUpTo(k, lists, triOnly, i, o)
      {
        var pin := k.comps[i].outputs[o];
        if pin.net >= 0 && (triOnly ==> pin.tri) {
          AddDriver(k, lists, triOnly, i, o);
          lists := lists[pin.net := lists[pin.net] + [Driver(i, o)]];
        }
      }
    }
  }

  lemma AddDriver(k: Circuit, lists: seq<seq<Driver>>, triOnly: bool, i: nat, o: nat)
    requires PinsInRange(k) && ListsUpTo(k, lists, triOnly, i, o) && i < |k.comps| && o < |k.comps[i].outputs|
    requires k.comps[i].outputs[o].net >= 0 && (triOnly ==> k.comps[i].outputs[o].tri)
    ensures var net := k.comps[i].outputs[o].net;
      ListsUpTo(k, lists[net := lists[net] + [Driver(i, o)]], triOnly, i, o + 1)
  {
    var net := k.comps[i].outputs[o].net;
    var longer := lists[net] + [Driver(i, o)];
    assert Driver(i, o) !in lists[net];
    assert forall d :: d in longer <==> d in lists[net] || d == Driver(i, o);
  }

  method PinsOk(k: Circuit) returns (ok: bool)
    ensures ok <==> PinsInRange(k)
  {
    for i := 0 to |k.comps|
      invariant forall j :: 0 <= j < i ==>
        && (forall p :: 0 <= p < |k.comps[j].inputs| ==> -1 <= k.comps[j].inputs[p] < k.nets)
        && (forall o :: 0 <= o < |k.comps[j].outputs| ==> -1 <= k.comps[j].outputs[o].net < k.nets)
    {
      if exists p :: 0 <= p < |k.comps[i].inputs| && !(-1 <= k.comps[i].inputs[p] < k.nets) {
        return false;
      }
      if exists o :: 0 <= o < |k.comps[i].outputs| && !(-1 <= k.comps[i].outputs[o].net < k.nets) {
        return false;
      }
    }
    return true;
  }

  /** The first plain output, in component order, that shares its net. */
  method SharedPlainOutput(k: Circuit, lists: seq<seq<Driver>>) returns (net: int)
    requires PinsInRange(k) && ListsUpTo(k, lists, false, |k.comps|, 0)
    ensures net == -1 <==> SingleDriver(k)
    ensures net != -1 ==> 0 <= net < k.nets && |lists[net]| > 1 && exists d :: d in lists[net] && IsOutput(k, d) && !PinOf(k, d).tri
  {
    for i := 0 to |k.comps|
      invariant forall d :: IsOutput(k, d) && d.comp < i && PinOf(k, d).net >= 0 && !PinOf(k, d).tri ==> |lists[PinOf(k, d).net]| <= 1
    {
      for o := 0 to |k.comps[i].outputs|
        invariant forall d :: IsOutput(k, d) && (d.comp < i || (d.comp == i && d.out < o)) && PinOf(k, d).net >= 0 && !PinOf(k, d).tri ==>
          |lists[PinOf(k, d).net]| <= 1
      {
        var pin := k.comps[i].outputs[o];
        if pin.net >= 0 && !pin.tri && |lists[pin.net]| > 1 {
          net := pin.net;
          assert On(k, Driver(i, o), net) && Driver(i, o) in lists[net];
          var a, b := lists[net][0], lists[net][1];
          assert a in lists[net] && b in lists[net];
          assert On(k, a, net) && On(k, b, net);
          return;
        }
      }
    }
    forall d, e, n | n >= 0 && On(k, d, n) && On(k, e, n) && d != e ensures PinOf(k, d).tri {
      assert d in lists[n] && e in lists[n];
      TwoMembers(lists[n], d, e);
    }
    net := -1;
  }

  lemma TwoMembers(s: seq<Driver>, d: Driver, e: Driver)
    requires d in s && e in s && d != e
    ensures |s| > 1
  {
  }

  /** Registers exactly the nets with at least two tri-state outputs. */
  method BusTable(k: Circuit) returns (bus: map<int, seq<Driver>>)
    requires PinsInRange(k)
    ensures BusExact(k.(bus := bus))
  {
    var lists := DriverLists(k, true);
    bus := map net: int | 0 <= net < k.nets && |lists[net]| >= 2 :: lists[net];
    forall net: int ensures net in bus <==> net >= 0 && Shared(k.(bus := bus), net) {
      SharedByLists(k, lists, bus, net);
    }
    forall net, d | net in bus ensures d in bus[net] <==> TriOn(k.(bus := bus), d, net) {
      assert TriOn(k.(bus := bus), d, net) <==> TriOn(k, d, net);
    }
  }

  lemma SharedByLists(k: Circuit, lists: seq<seq<Driver>>, bus: map<int, seq<Driver>>, net: int)
    requires PinsInRange(k) && ListsUpTo(k, lists, true, |k.comps|, 0)
    ensures 0 <= net < k.nets && |lists[net]| >= 2 <==> net >= 0 && Shared(k.(bus := bus), net)
  {
    var done := k.(bus := bus);
    if 0 <= net < k.nets && |lists[net]| >= 2 {
      var a, b := lists[net][0], lists[net][1];
      assert a in lists[net] && b in lists[net];
      assert TriOn(done, a, net) && TriOn(done, b, net);
    }
    if net >= 0 && Shared(done, net) {
      var d, e :| d != e && TriOn(done, d, net) && TriOn(done, e, net);
      assert k.comps[d.comp].outputs[d.out].net == net;
      assert TriOn(k, d, net) && TriOn(k, e, net);
      assert d in lists[net] && e in lists[net];
      TwoMembers(lists[net], d, e);
    }
  }

  // ---- The verdict ----

  /** A closed chain of static dependencies between nets. */
  ghost predicate NetLoop(k: Circuit, p: seq<nat>) {
    |p| > 1 && p[0] == p[|p| - 1] && p[0] < k.nets && forall i :: 0 <= i < |p| - 1 ==> NetDependsOn(k, p[i], p[i + 1])
  }

  datatype Verdict =
    | Passed(bus: map<int, seq<Driver>>)
    | InvalidNet
    | MultipleDrivers(net: int)
    | CombinationalLoop(cycle: seq<nat>)

  method Check(k: Circuit) returns (v: Verdict)
    requires DepsInRange(k)
    ensures v.InvalidNet? <==> !PinsInRange(k)
    ensures v.MultipleDrivers? <==> PinsInRange(k) && !SingleDriver(k)
    ensures v.MultipleDrivers? ==> exists d, e :: d != e && On(k, d, v.net) && On(k, e, v.net) && !PinOf(k, d).tri
    ensures v.CombinationalLoop? ==> NetLoop(k, v.cycle)
    ensures v.CombinationalLoop? <==> PinsInRange(k) && SingleDriver(k) && exists p :: NetLoop(k, p)
    ensures v.Passed? && (forall i :: 0 <= i < |k.comps| ==> !(k.comps[i].comb && k.comps[i].clock)) ==> Checked(k.(bus := v.bus))
  {
    var ok := PinsOk(k);
    if !ok {
      return InvalidNet;
    }
    var lists := DriverLists(k, false);
    var net := SharedPlainOutput(k, lists);
    if net != -1 {
      SharedWitness(k, lists, net);
      return MultipleDrivers(net);
    }
    var bus := BusTable(k);
    var adj := NetGraph(k);
    var loop := FindLoop(adj);
    LoopsAgree(k, adj);
    if loop.Loop? {
      CycleIsNetLoop(k, adj, loop.cycle);
      return CombinationalLoop(loop.cycle);
    }
    SameDrivers(k, bus);
    return Verdict.Passed(bus);
  }

  lemma SameDrivers(k: Circuit, bus: map<int, seq<Driver>>)
    ensures PinsInRange(k) ==> PinsInRange(k.(bus := bus))
    ensures SingleDriver(k) ==> SingleDriver(k.(bus := bus))
  {
    var b := k.(bus := bus);
    assert forall d, net :: On(b, d, net) <==> On(k, d, net);
    if SingleDriver(k) {
      forall d, e, net | net >= 0 && On(b, d, net) && On(b, e, net) && d != e ensures PinOf(b, d).tri {
        assert On(k, d, net) && On(k, e, net);
      }
    }
  }

  lemma SharedWitness(k: Circuit, lists: seq<seq<Driver>>, net: nat)
    requires ListsUpTo(k, lists, false, |k.comps|, 0) && net < k.nets && |lists[net]| > 1
    requires exists d :: d in lists[net] && IsOutput(k, d) && !PinOf(k, d).tri
    ensures exists d, e :: d != e && On(k, d, net) && On(k, e, net) && !PinOf(k, d).tri
  {
    var d :| d in lists[net] && IsOutput(k, d) && !PinOf(k, d).tri;
    var a, b := lists[net][0], lists[net][1];
    assert a in lists[net] && b in lists[net] && a != b;
    var e := if a == d then b else a;
    assert On(k, d, net) && On(k, e, net);
  }

  lemma CycleIsNetLoop(k: Circuit, adj: seq<seq<nat>>, p: seq<nat>)
    requires IsNetGraph(k, adj)
    ensures Cycle(adj, p) <==> NetLoop(k, p)
  {
    if Cycle(adj, p) {
      forall i | 0 <= i < |p| - 1 ensures NetDependsOn(k, p[i], p[i + 1]) {
        assert Edge(adj, p[i], p[i + 1]);
      }
    }
    if NetLoop(k, p) {
      forall i | 0 <= i < |p| - 1 ensures Edge(adj, p[i], p[i + 1]) && p[i] < |adj| {
        LoopEdge(k, adj, p, i);
      }
    }
  }

  lemma {:induction false} LoopEdge(k: Circuit, adj: seq<seq<nat>>, p: seq<nat>, i: nat)
    requires IsNetGraph(k, adj) && NetLoop(k, p) && i < |p| - 1
    ensures p[i] < |adj| && Edge(adj, p[i], p[i + 1])
  {
    if i > 0 {
      LoopEdge(k, adj, p, i - 1);
      var j :| 0 <= j < |adj[p[i - 1]]| && adj[p[i - 1]][j] == p[i];
    }
    assert NetDependsOn(k, p[i], p[i + 1]);
  }

  lemma LoopsAgree(k: Circuit, adj: seq<seq<nat>>)
    requires IsNetGraph(k, adj)
    ensures HasCycle(adj) <==> exists p :: NetLoop(k, p)
  {
    if HasCycle(adj) {
      var p :| Cycle(adj, p);
      CycleIsNetLoop(k, adj, p);
    }
    if exists p :: NetLoop(k, p) {
      var p :| NetLoop(k, p);
      CycleIsNetLoop(k, adj, p);
    }
  }

  // ---- What a passed check gives the scheduler ----

  /** Component i reports every input for each plain, non-sequential output, and nothing for the others. */
  ghost predicate DefaultDeps(k: Circuit, i: nat) {
    i < |k.comps| && forall o, p :: 0 <= o < |k.comps[i].outputs| && 0 <= p < |k.comps[i].inputs| ==>
      k.comps[i].outputs[o].tri || k.comps[i].outputs[o].sequential || p in k.comps[i].deps(o)
  }

  lemma PlainOutputDepends(k: Circuit, d: Driver, a: nat, b: nat)
    requires IsOutput(k, d) && DefaultDeps(k, d.comp) && !PinOf(k, d).tri && !PinOf(k, d).sequential
    requires PinOf(k, d).net == b && Reads(k.comps[d.comp], a)
    ensures NetDependsOn(k, a, b)
  {
    var p: nat :| p < |k.comps[d.comp].inputs| && k.comps[d.comp].inputs[p] == a;
    assert k.comps[d.comp].outputs[d.out] == PinOf(k, d);
    assert p in k.comps[d.comp].deps(d.out);
  }

  /** A passed check rules out the one feedback the sort does not see: a component reading its own plain output. */
  lemma CheckRulesOutFeedback(k: Circuit)
    requires PinsInRange(k) && !exists p :: NetLoop(k, p)
    requires forall d :: IsOutput(k, d) && k.comps[d.comp].comb && !PinOf(k, d).tri ==> !PinOf(k, d).sequential && DefaultDeps(k, d.comp)
    ensures NoPlainFeedback(k)
  {
    forall i: nat | i < |k.comps| && k.comps[i].comb ensures !PlainSelfLoop(k, i) {
      if PlainSelfLoop(k, i) {
        var d, net :| IsOutput(k, d) && d.comp == i && PinOf(k, d).net == net && !PinOf(k, d).tri && Reads(k.comps[i], net);
        PlainOutputDepends(k, d, net, net);
        assert NetLoop(k, [net, net]);
      }
    }
  }

  /** The two graph algorithms agree: when every output of the combinational components is plain, a passed check
      means the combinational sort has no leftovers. */
  lemma CheckedPlainCircuitSortsCompletely(k: Circuit, nodes: seq<nat>, order: seq<nat>, leftovers: seq<nat>, adj: seq<seq<nat>>)
    requires PinsInRange(k) && IsNetGraph(k, adj) && !exists p :: NetLoop(k, p)
    requires NodesOf(k.comps, nodes) && Sorted(k.comps, nodes, order, leftovers)
    requires forall d :: IsOutput(k, d) && d.comp in nodes ==>
      !PinOf(k, d).tri && !PinOf(k, d).sequential && DefaultDeps(k, d.comp)
    ensures leftovers == []
  {
    if leftovers != [] {
      hide Sorted, NodesOf, StuckNet, NetLoop, DefaultDeps, HasPredecessorIn, PinsInRange;
      var stuck := set n | n in Nodes(k.nets) && StuckNet(k, leftovers, n);
      forall b | b in stuck ensures HasPredecessorIn(adj, stuck, b) {
        StuckNetHasPredecessor(k, nodes, order, leftovers, adj, stuck, b);
      }
      var n := FedNet(k, nodes, order, leftovers, leftovers[0]);
      StuckIsCycle(adj, stuck, n);
      LoopsAgree(k, adj);
    }
  }

  lemma StuckIsCycle(adj: seq<seq<nat>>, stuck: set<nat>, n: nat)
    requires n in stuck && forall b :: b in stuck ==> b < |adj|
    requires forall b {:trigger HasPredecessorIn(adj, stuck, b)} :: b in stuck ==> HasPredecessorIn(adj, stuck, b)
    ensures HasCycle(adj)
  {
    hide HasPredecessorIn;
    PredecessorClosedHasCycle(adj, stuck);
  }

  /** A net driven by a leftover component. */
  ghost predicate StuckNet(k: Circuit, leftovers: seq<nat>, n: nat) {
    exists d :: IsOutput(k, d) && d.comp in leftovers && PinOf(k, d).net == n
  }

  /** Every leftover reads a net that a leftover drives. */
  lemma FedNet(k: Circuit, nodes: seq<nat>, order: seq<nat>, leftovers: seq<nat>, j: nat) returns (n: nat)
    requires PinsInRange(k) && NodesOf(k.comps, nodes) && Sorted(k.comps, nodes, order, leftovers) && j in leftovers
    ensures j < |k.comps| && n < k.nets && StuckNet(k, leftovers, n) && Reads(k.comps[j], n)
  {
    assert FedFrom(k.comps, nodes, leftovers, j);
    var i: nat :| i in leftovers && Feeds(k.comps, nodes, i, j);
    var a, b :| 0 <= a < |nodes| && 0 <= b < |nodes| && nodes[a] == i && nodes[b] == j && DataEdge(k.comps, nodes, a, b);
    var net :| Reads(k.comps[j], net) && LastWriter(k.comps, nodes, net, a);
    n := net;
    var d := OutputOn(k, i, net);
    assert IsOutput(k, d) && d.comp in leftovers && PinOf(k, d).net == n;
    assert k.comps[i].outputs[d.out].net < k.nets;
  }

  lemma StuckNetHasPredecessor(k: Circuit, nodes: seq<nat>, order: seq<nat>, leftovers: seq<nat>, adj: seq<seq<nat>>,
                               stuck: set<nat>, b: nat)
    requires PinsInRange(k) && IsNetGraph(k, adj)
    requires NodesOf(k.comps, nodes) && Sorted(k.comps, nodes, order, leftovers)
    requires forall d :: IsOutput(k, d) && d.comp in nodes ==>
      !PinOf(k, d).tri && !PinOf(k, d).sequential && DefaultDeps(k, d.comp)
    requires stuck == set n | n in Nodes(k.nets) && StuckNet(k, leftovers, n)
    requires b in stuck
    ensures HasPredecessorIn(adj, stuck, b)
  {
    var d :| IsOutput(k, d) && d.comp in leftovers && PinOf(k, d).net == b;
    assert d.comp in nodes;
    hide Sorted, NodesOf, IsNetGraph, LastWriter, DataEdge;
    var a := FedNet(k, nodes, order, leftovers, d.comp);
    PlainOutputDepends(k, d, a, b);
    assert Edge(adj, a, b) && a in stuck;
  }
}
