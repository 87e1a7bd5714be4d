/** What the sort and the structural check say about feedback: when the sort is complete, and when the two agree. */
module SortVerdicts {
  import opened Netlist
  import opened Graph
  import opened TopoOrder
  import TriAffected
  import opened TickSpec
  import opened TickTheorems
  import opened NetlistAudit

  // ---- What the sort leaves over ----

  /** Each component reads, on whatever pin, a net that the one before drives last in the list. */
  ghost predicate Chain(comps: seq<Component>, nodes: seq<nat>, p: seq<nat>)
    requires NodesOf(comps, nodes)
  {
    |p| > 0 && forall i :: 0 <= i < |p| - 1 ==> Feeds(comps, nodes, p[i], p[i + 1])
  }

  ghost predicate PinLoop(comps: seq<Component>, nodes: seq<nat>, p: seq<nat>)
    requires NodesOf(comps, nodes)
  {
    Chain(comps, nodes, p) && |p| > 1 && p[0] == p[|p| - 1]
  }

  /** A chain that closes a loop and then leads to component i. */
  ghost predicate LoopInto(comps: seq<Component>, nodes: seq<nat>, p: seq<nat>, i: nat)
    requires NodesOf(comps, nodes)
  {
    Chain(comps, nodes, p) && p[|p| - 1] == i && p[0] in p[1..]
  }

  /** Following feeding leftovers backwards for ever must close a loop. */
  lemma {:induction false} LoopBehind(comps: seq<Component>, nodes: seq<nat>, leftovers: seq<nat>, some: set<nat>, p: seq<nat>,
                                      i: nat)
    requires NodesOf(comps, nodes) && some == (set x | x in leftovers)
    requires forall j {:trigger FedFrom(comps, nodes, leftovers, j)} :: j in leftovers ==> FedFrom(comps, nodes, leftovers, j)
    requires Chain(comps, nodes, p) && p[|p| - 1] == i && Distinct(p) && forall x: nat :: x in p ==> x in some
    ensures exists q :: LoopInto(comps, nodes, q, i)
    decreases |some| - |p|
  {
    hide Feeds;
    DistinctCardinality(p, some);
    assert p[0] in p;
    assert FedFrom(comps, nodes, leftovers, p[0]);
    var u: nat :| u in leftovers && Feeds(comps, nodes, u, p[0]);
    var q := [u] + p;
    assert q[1..] == p;
    assert Chain(comps, nodes, q) && q[|q| - 1] == i;
    if u in p {
      assert LoopInto(comps, nodes, q, i);
    } else {
      DistinctCardinality(q, some);
      LoopBehind(comps, nodes, leftovers, some, q, i);
    }
  }

  lemma StepGrows(comps: seq<Component>, nodes: seq<nat>, order: seq<nat>, leftovers: seq<nat>, i: nat, j: nat)
    requires NodesOf(comps, nodes) && Sorted(comps, nodes, order, leftovers) && Feeds(comps, nodes, i, j) && j in order
    ensures i in order && Position(order, i) < Position(order, j)
  {
    var k := Position(order, j);
    assert Before(order, i, k);
    var x :| 0 <= x < k && order[x] == i;
    var y := Position(order, i);
    assert (order + leftovers)[x] == (order + leftovers)[y] == i;
  }

  /** Along a chain into an ordered component everything is ordered, and the positions grow. */
  lemma {:induction false} PositionsGrow(comps: seq<Component>, nodes: seq<nat>, order: seq<nat>, leftovers: seq<nat>,
                                         p: seq<nat>, m: nat, n: nat)
    requires NodesOf(comps, nodes) && Sorted(comps, nodes, order, leftovers) && Chain(comps, nodes, p)
    requires m <= n < |p| && p[n] in order
    ensures p[m] in order && Position(order, p[m]) + (n - m) <= Position(order, p[n])
    decreases n - m
  {
    hide Sorted, Feeds;
    if m < n {
      PositionsGrow(comps, nodes, order, leftovers, p, m + 1, n);
      StepGrows(comps, nodes, order, leftovers, p[m], p[m + 1]);
    }
  }

  /** Main result: the sort leaves over exactly the components on a loop of connections or after one, every input pin of
      every component counted. */
  lemma LeftoverIffAfterLoop(comps: seq<Component>, nodes: seq<nat>, order: seq<nat>, leftovers: seq<nat>, i: nat)
    requires NodesOf(comps, nodes) && Sorted(comps, nodes, order, leftovers)
    ensures i in leftovers <==> exists p :: LoopInto(comps, nodes, p, i)
  {
    if i in leftovers {
      assert Chain(comps, nodes, [i]);
      LoopBehind(comps, nodes, leftovers, set x | x in leftovers, [i], i);
    }
    forall p | LoopInto(comps, nodes, p, i) ensures i in leftovers {
      var n := ReturnTo(comps, nodes, p, i);
      ChainStays(comps, nodes, p);
      if i in order {
        PositionsGrow(comps, nodes, order, leftovers, p, n, |p| - 1);
        PositionsGrow(comps, nodes, order, leftovers, p, 0, n);
      }
    }
  }

  lemma ReturnTo(comps: seq<Component>, nodes: seq<nat>, p: seq<nat>, i: nat) returns (n: nat)
    requires NodesOf(comps, nodes) && LoopInto(comps, nodes, p, i)
    ensures 0 < n < |p| && p[n] == p[0]
  {
    var m :| 0 <= m < |p| - 1 && p[1..][m] == p[0];
    n := m + 1;
  }

  lemma ChainStays(comps: seq<Component>, nodes: seq<nat>, p: seq<nat>)
    requires NodesOf(comps, nodes) && Chain(comps, nodes, p) && |p| > 1
    ensures p[|p| - 1] in nodes
  {
    assert Feeds(comps, nodes, p[|p| - 2], p[|p| - 1]);
  }

  /** In particular it is complete exactly when no chain of connections closes. */
  lemma CompleteIffNoPinLoop(comps: seq<Component>, nodes: seq<nat>, order: seq<nat>, leftovers: seq<nat>)
    requires NodesOf(comps, nodes) && Sorted(comps, nodes, order, leftovers)
    ensures leftovers == [] <==> !exists p :: PinLoop(comps, nodes, p)
  {
    hide Sorted, Feeds;
    if leftovers != [] {
      LeftoverIffAfterLoop(comps, nodes, order, leftovers, leftovers[0]);
      var p :| LoopInto(comps, nodes, p, leftovers[0]);
      var n := ReturnTo(comps, nodes, p, leftovers[0]);
      assert PinLoop(comps, nodes, p[..n + 1]);
    }
    forall p | PinLoop(comps, nodes, p) ensures leftovers != [] {
      assert p[1..][|p| - 2] == p[0];
      assert LoopInto(comps, nodes, p, p[0]);
      LeftoverIffAfterLoop(comps, nodes, order, leftovers, p[0]);
    }
  }

  /** Of several components that drive a net only the last in the list counts as the one a reader waits for. */
  lemma OnlyLastDriverFeeds(comps: seq<Component>, nodes: seq<nat>, net: int, a: nat, b: nat, reader: nat)
    requires NodesOf(comps, nodes) && a < b < |nodes| && reader < |nodes| && reader != a && reader != b
    requires Drives(comps[nodes[a]], net) && Drives(comps[nodes[b]], net)
    requires forall c :: b < c < |nodes| ==> !Drives(comps[nodes[c]], net)
    requires Reads(comps[nodes[reader]], net) && forall p :: 0 <= p < |comps[nodes[reader]].inputs| ==> comps[nodes[reader]].inputs[p] == net
    ensures Feeds(comps, nodes, nodes[b], nodes[reader]) && !Feeds(comps, nodes, nodes[a], nodes[reader])
  {
    assert LastWriter(comps, nodes, net, b);
    assert DataEdge(comps, nodes, b, reader);
    forall x, y | 0 <= x < |nodes| && 0 <= y < |nodes| && nodes[x] == nodes[a] && nodes[y] == nodes[reader]
      ensures !DataEdge(comps, nodes, x, y)
    {
      assert x == a && y == reader;
      assert forall m :: Reads(comps[nodes[reader]], m) ==> m == net;
    }
  }

  // ---- Where the check and the sort disagree ----

  /** Net 0 carries what the register file reads, net 1 what the adder makes of it for writing back; net 2 is the read
      address. The register file reports only its read address as a dependency, yet the sort counts its write data. */
  const ADDER := Component([0], [OutPin(1, false, false)], true, false,
    (w: seq<Word>, o: nat) => Drive(if |w| == 1 then w[0] else 0, true), (o: nat) => [0])

  const REGISTERS := Component([1, 2], [OutPin(0, false, false)], true, false,
    (w: seq<Word>, o: nat) => Drive(5, true), (o: nat) => [1])

  const WRITE_BACK := Circuit([ADDER, REGISTERS], 3, map[])

  /** The joint order and the re-run set generated for that circuit. */
  const WRITE_BACK_PLAN := Plan([0, 1], [0, 1], {})

  lemma WriteBackFeeds()
    ensures NodesOf(WRITE_BACK.comps, [0, 1])
    ensures Feeds(WRITE_BACK.comps, [0, 1], 0, 1) && Feeds(WRITE_BACK.comps, [0, 1], 1, 0)
  {
    var comps, nodes := WRITE_BACK.comps, [0, 1];
    assert comps[0].outputs[0].net == 1 && comps[1].outputs[0].net == 0;
    assert comps[0].inputs[0] == 0 && comps[1].inputs[0] == 1;
    assert LastWriter(comps, nodes, 1, 0) && LastWriter(comps, nodes, 0, 1);
    assert DataEdge(comps, nodes, 0, 1) && DataEdge(comps, nodes, 1, 0);
    assert nodes[0] == 0 && nodes[1] == 1;
  }

  lemma WriteBackAffectsNothing()
    ensures TriAffected.Affected(WRITE_BACK.comps, [0, 1], {})
  {
  }

  lemma WriteBackDepends(a: nat, b: nat)
    ensures NetDependsOn(WRITE_BACK, a, b) ==> (a == 0 && b == 1) || (a == 2 && b == 0)
  {
  }

  /** No dependency leaves net 1, and none enters net 2. */
  lemma WriteBackHasNoNetLoop(p: seq<nat>)
    ensures !NetLoop(WRITE_BACK, p)
  {
    if NetLoop(WRITE_BACK, p) {
      var last := |p| - 1;
      var a, b, c, z := p[0], p[1], if last > 1 then p[2] else 0, p[last - 1];
      hide NetDependsOn;
      WriteBackDepends(a, b);
      WriteBackDepends(b, c);
      WriteBackDepends(z, a);
    }
  }

  lemma WriteBackIsChecked()
    ensures Checked(WRITE_BACK) && DepsInRange(WRITE_BACK)
  {
  }

  lemma FirstIsUnfed(comps: seq<Component>, nodes: seq<nat>, order: seq<nat>, leftovers: seq<nat>)
    requires NodesOf(comps, nodes) && Sorted(comps, nodes, order, leftovers)
    ensures order != [] ==> order[0] in nodes && forall i: nat :: !Feeds(comps, nodes, i, order[0])
  {
  }

  /** Whatever order the sort takes, it orders neither component and leaves both over in list order. */
  lemma WriteBackIsLeftOver(order: seq<nat>, leftovers: seq<nat>)
    requires NodesOf(WRITE_BACK.comps, [0, 1]) && Sorted(WRITE_BACK.comps, [0, 1], order, leftovers)
    ensures order == [] && leftovers == [0, 1]
  {
    WriteBackFeeds();
    var nodes := [0, 1];
    FirstIsUnfed(WRITE_BACK.comps, nodes, order, leftovers);
    assert 0 in nodes && 1 in nodes;
    assert forall i: nat :: i in leftovers ==> i in nodes;
    assert Position(nodes, 0) == 0 && Position(nodes, 1) == 1;
    TwoInOrder(leftovers);
  }

  lemma TwoInOrder(s: seq<nat>)
    requires 0 in s && 1 in s && forall i: nat :: i in s ==> i < 2
    requires forall j, k :: 0 <= j < k < |s| ==> s[j] < s[k]
    ensures s == [0, 1]
  {
    assert forall j :: 0 <= j < |s| ==> s[j] in s;
    DistinctCardinality(s, {0, 1});
  }

  lemma AdderRuns(s: State)
    requires Fits(WRITE_BACK, s)
    ensures Run(WRITE_BACK, s, 0, false).w == [s.w[0], s.w[0], s.w[2]]
  {
    WriteBackIsChecked();
    assert Inputs(WRITE_BACK.comps[0], s.w) == [s.w[0]];
    assert Eval(WRITE_BACK, Driver(0, 0), s.w).value == s.w[0];
    RunEffect(WRITE_BACK, s, Driver(0, 0), false);
    RunFrame(WRITE_BACK, s, 0, false);
    var t := Run(WRITE_BACK, s, 0, false);
    assert t.w[0] == Read(t.w, 0) && t.w[1] == Read(t.w, 1) && t.w[2] == Read(t.w, 2);
  }

  lemma RegistersRun(s: State)
    requires Fits(WRITE_BACK, s)
    ensures Run(WRITE_BACK, s, 1, false).w == [5, s.w[1], s.w[2]]
  {
    WriteBackIsChecked();
    assert Eval(WRITE_BACK, Driver(1, 0), s.w).value == 5;
    RunEffect(WRITE_BACK, s, Driver(1, 0), false);
    RunFrame(WRITE_BACK, s, 1, false);
    var t := Run(WRITE_BACK, s, 1, false);
    assert t.w[0] == Read(t.w, 0) && t.w[1] == Read(t.w, 1) && t.w[2] == Read(t.w, 2);
  }

  lemma WriteBackPhase1(s: State)
    requires Fits(WRITE_BACK, s)
    ensures Stage(WRITE_BACK, s, [0, 1], Nodes(2), false, 2).w == [5, s.w[0], s.w[2]]
    ensures Stage(WRITE_BACK, s, [0, 1], Nodes(2), false, 2).conflict == s.conflict
  {
    hide Run;
    var t := Run(WRITE_BACK, s, 0, false);
    AdderRuns(s);
    RegistersRun(t);
    ConflictGrows(WRITE_BACK, s, [0, 1], Nodes(2), false, 2);
    assert Stage(WRITE_BACK, s, [0, 1], Nodes(2), false, 0) == s;
    assert Stage(WRITE_BACK, s, [0, 1], Nodes(2), false, 1) == t;
  }

  /** The tick runs the adder on the word the net held before, and ends without an error. */
  lemma WriteBackTick(s: State)
    requires Fits(WRITE_BACK, s)
    ensures Tick(WRITE_BACK, s, WRITE_BACK_PLAN).1 == Settled
    ensures Tick(WRITE_BACK, s, WRITE_BACK_PLAN).0.w == [5, s.w[0], s.w[2]]
  {
    var s0 := s.(conflict := false);
    WriteBackPhase1(s0);
    hide Stage;
    assert forall net :: !TriNet(WRITE_BACK, net);
  }

  /** Main result: a check that passes does not make the sort complete. Components that report fewer dependencies than
      they have inputs can be left over, and then a tick can end without an error on words that break an equation. */
  lemma PassedCheckWithLeftovers(s: State)
    requires Fits(WRITE_BACK, s) && s.w[0] != 5
    ensures Checked(WRITE_BACK) && DepsInRange(WRITE_BACK) && !exists p :: NetLoop(WRITE_BACK, p)
    ensures NodesOf(WRITE_BACK.comps, [0, 1])
    ensures forall order, leftovers :: Sorted(WRITE_BACK.comps, [0, 1], order, leftovers) ==>
      order + leftovers == WRITE_BACK_PLAN.joint == WRITE_BACK_PLAN.sorted && leftovers != []
    ensures TriAffected.Affected(WRITE_BACK.comps, WRITE_BACK_PLAN.sorted, WRITE_BACK_PLAN.affected)
    ensures var (t, outcome) := Tick(WRITE_BACK, s, WRITE_BACK_PLAN); outcome == Settled && !Stable(WRITE_BACK, t)
  {
    hide Sorted, Tick, Stable, NetLoop, Checked, DepsInRange, TriAffected.Affected, NodesOf;
    WriteBackIsChecked();
    WriteBackFeeds();
    WriteBackAffectsNothing();
    forall p ensures !NetLoop(WRITE_BACK, p) {
      WriteBackHasNoNetLoop(p);
    }
    forall order, leftovers | Sorted(WRITE_BACK.comps, [0, 1], order, leftovers)
      ensures order == [] && leftovers == [0, 1]
    {
      WriteBackIsLeftOver(order, leftovers);
    }
    WriteBackTick(s);
    AdderIsWrong(Tick(WRITE_BACK, s, WRITE_BACK_PLAN).0);
  }

  lemma AdderIsWrong(t: State)
    requires Fits(WRITE_BACK, t) && t.w[1] != t.w[0]
    ensures !Stable(WRITE_BACK, t)
  {
    assert Inputs(WRITE_BACK.comps[0], t.w) == [t.w[0]];
    assert Eval(WRITE_BACK, Driver(0, 0), t.w).value == t.w[0];
    assert WRITE_BACK.comps[0].outputs[0] == OutPin(1, false, false);
    assert !StableComp(WRITE_BACK, t, 0);
  }

  // ---- Where they agree: plain outputs that report every input ----

  /** The components of the list drive plain outputs and report all their inputs; the others report nothing. */
  ghost predicate PlainLogic(k: Circuit, nodes: seq<nat>) {
    && (forall d :: IsOutput(k, d) && d.comp in nodes ==>
          !PinOf(k, d).tri && !PinOf(k, d).sequential && DefaultDeps(k, d.comp))
    && (forall d :: IsOutput(k, d) && d.comp !in nodes ==> k.comps[d.comp].deps(d.out) == [])
  }

  /** Component i of the list reads a net it drives itself, which the sort ignores. */
  ghost predicate SelfFed(k: Circuit, nodes: seq<nat>, i: nat) {
    i in nodes && i < |k.comps| && PlainSelfLoop(k, i)
  }

  /** Main result: on plain logic the check rejects a loop exactly when the sort leaves something over or a component
      reads its own output. */
  lemma VerdictsAgree(k: Circuit, nodes: seq<nat>, order: seq<nat>, leftovers: seq<nat>, adj: seq<seq<nat>>)
    requires PinsInRange(k) && SingleDriver(k) && IsNetGraph(k, adj)
    requires NodesOf(k.comps, nodes) && Sorted(k.comps, nodes, order, leftovers) && PlainLogic(k, nodes)
    ensures (exists p :: NetLoop(k, p)) <==> leftovers != [] || exists i :: SelfFed(k, nodes, i)
  {
    if i :| SelfFed(k, nodes, i) {
      SelfFedIsNetLoop(k, nodes, i);
    } else if leftovers != [] {
      if !exists p :: NetLoop(k, p) {
        CheckedPlainCircuitSortsCompletely(k, nodes, order, leftovers, adj);
        assert false;
      }
    } else {
      CompleteIffNoPinLoop(k.comps, nodes, order, leftovers);
      forall p | NetLoop(k, p) ensures false {
        NetLoopIsPinLoop(k, nodes, p);
      }
    }
  }

  lemma SelfFedIsNetLoop(k: Circuit, nodes: seq<nat>, i: nat)
    requires PinsInRange(k) && PlainLogic(k, nodes) && SelfFed(k, nodes, i)
    ensures exists p :: NetLoop(k, p)
  {
    var d, net :| IsOutput(k, d) && d.comp == i && PinOf(k, d).net == net && !PinOf(k, d).tri && Reads(k.comps[i], net);
    PlainOutputDepends(k, d, net, net);
    assert NetLoop(k, [net, net]);
  }

  ghost predicate Owned(k: Circuit, nodes: seq<nat>, net: nat) {
    exists d :: On(k, d, net) && d.comp in nodes
  }

  /** The component of the list that drives the net. */
  ghost function Owner(k: Circuit, nodes: seq<nat>, net: nat): (i: nat)
    requires Owned(k, nodes, net)
  {
    var d :| On(k, d, net) && d.comp in nodes;
    d.comp
  }

  /** A dependency enters a net that the list drives. */
  lemma TargetIsOwned(k: Circuit, nodes: seq<nat>, a: nat, b: nat)
    requires PlainLogic(k, nodes) && NetDependsOn(k, a, b)
    ensures Owned(k, nodes, b)
  {
    var d, p: nat :| IsOutput(k, d) && PinOf(k, d).net == b && p in k.comps[d.comp].deps(d.out) &&
      p < |k.comps[d.comp].inputs| && k.comps[d.comp].inputs[p] == a;
    assert On(k, d, b) && d.comp in nodes;
  }

  /** A dependency between nets of the list is a connection between their drivers, unless that is one component. */
  lemma DependencyFeeds(k: Circuit, nodes: seq<nat>, a: nat, b: nat)
    requires NodesOf(k.comps, nodes) && SingleDriver(k) && PlainLogic(k, nodes)
    requires NetDependsOn(k, a, b) && Owned(k, nodes, a) && Owned(k, nodes, b)
    requires !exists i :: SelfFed(k, nodes, i)
    ensures Feeds(k.comps, nodes, Owner(k, nodes, a), Owner(k, nodes, b))
  {
    var d, p: nat :| IsOutput(k, d) && PinOf(k, d).net == b && p in k.comps[d.comp].deps(d.out) &&
      p < |k.comps[d.comp].inputs| && k.comps[d.comp].inputs[p] == a;
    assert On(k, d, b);
    var e :| On(k, e, b) && e.comp in nodes && e.comp == Owner(k, nodes, b);
    assert d == e;
    var f :| On(k, f, a) && f.comp in nodes && f.comp == Owner(k, nodes, a);
    assert Reads(k.comps[d.comp], a);
    assert f.comp == d.comp ==> PlainSelfLoop(k, d.comp);
    assert f.comp == d.comp ==> SelfFed(k, nodes, d.comp);
    SoleOwnerFeeds(k, nodes, f, d.comp, a);
  }

  lemma SoleOwnerFeeds(k: Circuit, nodes: seq<nat>, f: Driver, j: nat, net: nat)
    requires NodesOf(k.comps, nodes) && SingleDriver(k) && On(k, f, net) && f.comp in nodes && !PinOf(k, f).tri
    requires j in nodes && j < |k.comps| && j != f.comp && Reads(k.comps[j], net)
    ensures Feeds(k.comps, nodes, f.comp, j)
  {
    var x, y := Position(nodes, f.comp), Position(nodes, j);
    assert k.comps[f.comp].outputs[f.out].net == net;
    forall c | x < c < |nodes| ensures !Drives(k.comps[nodes[c]], net) {
      if Drives(k.comps[nodes[c]], net) {
        var g := OutputOn(k, nodes[c], net);
      }
    }
    assert LastWriter(k.comps, nodes, net, x);
    assert DataEdge(k.comps, nodes, x, y);
  }

  lemma LoopNetsAreOwned(k: Circuit, nodes: seq<nat>, p: seq<nat>)
    requires PlainLogic(k, nodes) && NetLoop(k, p)
    ensures forall i :: 0 <= i < |p| ==> Owned(k, nodes, p[i])
  {
    hide NetDependsOn, PlainLogic, Owned;
    forall i | 0 <= i < |p| ensures Owned(k, nodes, p[i]) {
      var h := if i == 0 then |p| - 2 else i - 1;
      assert NetDependsOn(k, p[h], p[h + 1]);
      TargetIsOwned(k, nodes, p[h], p[h + 1]);
    }
  }

  lemma NetLoopIsPinLoop(k: Circuit, nodes: seq<nat>, p: seq<nat>)
    requires NodesOf(k.comps, nodes) && SingleDriver(k) && PlainLogic(k, nodes) && NetLoop(k, p)
    requires !exists i :: SelfFed(k, nodes, i)
    ensures exists q :: PinLoop(k.comps, nodes, q)
  {
    LoopNetsAreOwned(k, nodes, p);
    hide NetDependsOn, Owned, SingleDriver, PlainLogic;
    var q := seq(|p|, i requires 0 <= i < |p| => Owner(k, nodes, p[i]));
    forall i | 0 <= i < |q| - 1 ensures Feeds(k.comps, nodes, q[i], q[i + 1]) {
      assert NetDependsOn(k, p[i], p[i + 1]);
      DependencyFeeds(k, nodes, p[i], p[i + 1]);
    }
    assert PinLoop(k.comps, nodes, q);
  }
}
