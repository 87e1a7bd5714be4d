/** The generated tick, which overwrites the net words and latched drives phase by phase, and the plan it follows. */
module Simulator {
  import opened Netlist
  import opened Graph
  import opened TopoOrder
  import TriAffected
  import opened TickSpec
  import opened TickTheorems
  import opened Settling
  import opened SortVerdicts

  // ---- The evaluation plan ----

  /** The combinational components, or the clock sources, among the first n, in component order. */
  function Picked(k: Circuit, clocks: bool, n: nat): (s: seq<nat>)
    requires n <= |k.comps|
    ensures NodesOf(k.comps, s)
    ensures forall i: nat :: i in s <==> i < n && (if clocks then k.comps[i].clock else k.comps[i].comb)
    ensures forall a, b :: 0 <= a < b < |s| ==> s[a] < s[b]
  {
    if n == 0 then []
    else
      var s := Picked(k, clocks, n - 1);
      assert forall j :: 0 <= j < |s| ==> s[j] in s;
      if (if clocks then k.comps[n - 1].clock else k.comps[n - 1].comb) then s + [n - 1] else s
  }

  method Select(k: Circuit, clocks: bool) returns (s: seq<nat>)
    ensures s == Picked(k, clocks, |k.comps|)
  {
    s := [];
    for i := 0 to |k.comps|
      invariant s == Picked(k, clocks, i)
    {
      if (if clocks then k.comps[i].clock else k.comps[i].comb) {
        s := s + [i];
      }
    }
  }

  ghost function CombList(k: Circuit): (s: seq<nat>)
    ensures NodesOf(k.comps, s)
  {
    Picked(k, false, |k.comps|)
  }

  /** Combinational components, then clock sources. */
  ghost function JointList(k: Circuit): (s: seq<nat>)
    requires Checked(k)
    ensures NodesOf(k.comps, s)
  {
    CombAndClocks(k);
    Picked(k, false, |k.comps|) + Picked(k, true, |k.comps|)
  }

  ghost predicate HasPinLoop(comps: seq<Component>, nodes: seq<nat>)
    requires NodesOf(comps, nodes)
  {
    exists p :: PinLoop(comps, nodes, p)
  }

  /** Some clock source is on a loop of connections or after one. */
  ghost predicate ClockAfterLoop(k: Circuit)
    requires Checked(k)
  {
    exists i: nat, p :: i < |k.comps| && k.comps[i].clock && LoopInto(k.comps, JointList(k), p, i)
  }

  lemma ClockLeftOver(k: Circuit, order: seq<nat>, left: seq<nat>)
    requires Checked(k) && Sorted(k.comps, JointList(k), order, left)
    ensures ClockAfterLoop(k) <==> exists i :: i in left && i < |k.comps| && k.comps[i].clock
  {
    hide Sorted, LoopInto, Checked;
    forall i: nat ensures i in left <==> exists p :: LoopInto(k.comps, JointList(k), p, i) {
      LeftoverIffAfterLoop(k.comps, JointList(k), order, left, i);
    }
  }

  /** The sort's order with its leftovers appended. */
  ghost predicate SortedThenLeft(comps: seq<Component>, nodes: seq<nat>, all: seq<nat>)
    requires NodesOf(comps, nodes)
  {
    exists order, left :: Sorted(comps, nodes, order, left) && all == order + left
  }

  datatype PlanResult = Planned(plan: Plan) | ClockLoop

  /** Sorts the combinational components, then clock sources and combinational components together. Leftovers are
      appended in list order; a leftover clock source is refused. */
  method MakePlan(k: Circuit) returns (r: PlanResult)
    requires Checked(k)
    ensures r.Planned? ==> PlanFits(k, r.plan) && TriAffected.Affected(k.comps, r.plan.sorted, r.plan.affected)
    ensures r.Planned? ==> SortedThenLeft(k.comps, CombList(k), r.plan.sorted) && SortedThenLeft(k.comps, JointList(k), r.plan.joint)
    ensures r.ClockLoop? <==> ClockAfterLoop(k)
    ensures r.Planned? && !HasPinLoop(k.comps, CombList(k)) && !HasPinLoop(k.comps, JointList(k)) ==> CompletePlan(k, r.plan)
    ensures !HasCycle(FlowGraph(k)) ==>
      !HasPinLoop(k.comps, CombList(k)) && !HasPinLoop(k.comps, JointList(k)) && r.Planned?
  {
    var comb := Select(k, false);
    var clocks := Select(k, true);
    var order, left := Order(k.comps, comb);
    var sorted := order + left;
    assert comb + clocks == JointList(k);
    var order2, left2 := Order(k.comps, comb + clocks);
    NoLoopIsComplete(k, comb, order, left);
    NoLoopIsComplete(k, comb + clocks, order2, left2);
    OrderFits(k, comb, order, left);
    OrderFits(k, comb + clocks, order2, left2);
    ClockLeftOver(k, order2, left2);
    var clockLoop := exists j :: 0 <= j < |left2| && k.comps[left2[j]].clock;
    if clockLoop {
      return ClockLoop;
    }
    var affected := TriAffected.Compute(k.comps, sorted);
    r := Planned(Plan(order2 + left2, sorted, affected));
    if left == [] && left2 == [] {
      assert r.plan.joint == order2 && r.plan.sorted == order;
      assert Complete(k, order, false);
      assert Complete(k, order2, true);
    }
  }

  lemma NoLoopIsComplete(k: Circuit, nodes: seq<nat>, order: seq<nat>, left: seq<nat>)
    requires NodesOf(k.comps, nodes) && (forall i :: i in nodes ==> InPhase1(k, i)) && Sorted(k.comps, nodes, order, left)
    ensures left == [] <==> !HasPinLoop(k.comps, nodes)
    ensures !HasCycle(FlowGraph(k)) ==> left == []
  {
    CompleteIffNoPinLoop(k.comps, nodes, order, left);
    LeftoversOnlyFromCycles(k, nodes, order, left);
  }

  lemma CombAndClocks(k: Circuit)
    requires Checked(k)
    ensures NodesOf(k.comps, Picked(k, false, |k.comps|) + Picked(k, true, |k.comps|))
  {
    var comb, clocks := Picked(k, false, |k.comps|), Picked(k, true, |k.comps|);
    forall a, b | 0 <= a < |comb| && 0 <= b < |clocks| ensures comb[a] != clocks[b] {
      assert comb[a] in comb && clocks[b] in clocks;
    }
  }

  lemma OrderFits(k: Circuit, nodes: seq<nat>, order: seq<nat>, left: seq<nat>)
    requires NodesOf(k.comps, nodes) && Sorted(k.comps, nodes, order, left)
    ensures forall j :: 0 <= j < |order + left| ==> (order + left)[j] < |k.comps|
    ensures forall j :: 0 <= j < |left| ==> left[j] < |k.comps|
  {
    forall j | 0 <= j < |order| ensures order[j] < |k.comps| {
      assert order[j] in nodes;
    }
    forall j | 0 <= j < |left| ensures left[j] < |k.comps| {
      assert left[j] in nodes;
    }
  }

  lemma LeftoversOnlyFromCycles(k: Circuit, nodes: seq<nat>, order: seq<nat>, left: seq<nat>)
    requires NodesOf(k.comps, nodes) && forall i :: i in nodes ==> InPhase1(k, i)
    requires Sorted(k.comps, nodes, order, left)
    ensures !HasCycle(FlowGraph(k)) ==> left == []
  {
    if left != [] {
      LeftoversMeanCycle(k, nodes, order, left);
    }
  }

  // ---- One bus ----

  /** The drivers, each once, are the tri-state outputs on the net. */
  ghost predicate Listed(k: Circuit, net: int, drivers: seq<Driver>) {
    Distinct(drivers) && forall d :: d in drivers <==> TriOn(k, d, net)
  }

  /** With two enabled drivers the net keeps its word, with one it takes that driver's value, and with none it holds zero. */
  ghost predicate BusMeans(k: Circuit, c: seq<seq<Drive>>, net: nat, was: Word, now: Word) {
    && (forall d, e :: d != e && Active(k, c, d, net) && Active(k, c, e, net) ==> now == was)
    && (forall d :: Active(k, c, d, net) && (forall e :: Active(k, c, e, net) ==> e == d) ==> now == c[d.comp][d.out].value)
    && ((forall d :: !Active(k, c, d, net)) ==> now == 0)
  }

  lemma BusTakesDriver(k: Circuit, s: State, net: nat)
    requires Fits(k, s) && Checked(k) && net in k.bus && net < k.nets
    ensures BusMeans(k, s.c, net, s.w[net], NetAfterResolve(k, s, net))
  {
    var d, e :| d != e && TriOn(k, d, net) && TriOn(k, e, net);
    assert TriNet(k, net);
  }

  lemma ActiveIsListed(k: Circuit, c: seq<seq<Drive>>, net: int, drivers: seq<Driver>, d: Driver) returns (j: nat)
    requires Listed(k, net, drivers) && Active(k, c, d, net)
    ensures j < |drivers| && drivers[j] == d
  {
    assert d in drivers;
    j :| j < |drivers| && drivers[j] == d;
  }

  lemma NoneActive(k: Circuit, c: seq<seq<Drive>>, net: int, drivers: seq<Driver>)
    requires Listed(k, net, drivers) && forall j :: 0 <= j < |drivers| ==> !Active(k, c, drivers[j], net)
    ensures !Conflict(k, c, net) && BusValue(k, c, net) == 0
  {
    forall d ensures !Active(k, c, d, net) {
      if Active(k, c, d, net) {
        var j := ActiveIsListed(k, c, net, drivers, d);
      }
    }
  }

  lemma OneActive(k: Circuit, c: seq<seq<Drive>>, net: int, drivers: seq<Driver>, a: nat)
    requires Listed(k, net, drivers) && a < |drivers| && Active(k, c, drivers[a], net)
    requires forall j :: 0 <= j < |drivers| && j != a ==> !Active(k, c, drivers[j], net)
    ensures !Conflict(k, c, net) && BusValue(k, c, net) == c[drivers[a].comp][drivers[a].out].value
  {
    forall d | Active(k, c, d, net) ensures d == drivers[a] {
      var j := ActiveIsListed(k, c, net, drivers, d);
    }
  }

  lemma TwoActive(k: Circuit, c: seq<seq<Drive>>, net: int, drivers: seq<Driver>, a: nat, b: nat)
    requires Listed(k, net, drivers) && a < b < |drivers| && Active(k, c, drivers[a], net) && Active(k, c, drivers[b], net)
    ensures Conflict(k, c, net)
  {
  }

  lemma SameNetAfter(k: Circuit, s: State, t: State, net: nat)
    requires net < |s.w| && net < |t.w| && s.c == t.c && s.w[net] == t.w[net]
    ensures NetAfterResolve(k, s, net) == NetAfterResolve(k, t, net)
  {
  }

  lemma ResolveIs(k: Circuit, s: State, track: bool, w: seq<Word>)
    requires Fits(k, s) && |w| == |s.w| && forall n :: 0 <= n < |w| ==> w[n] == NetAfterResolve(k, s, n)
    ensures Resolve(k, s, track) == State(w, s.c,
      s.changed || (track && exists n :: 0 <= n < |w| && n in k.bus && NetAfterResolve(k, s, n) != s.w[n]),
      s.conflict || exists n :: n in k.bus && Conflict(k, s.c, n))
  {
    hide NetAfterResolve, Conflict;
    assert w == Resolve(k, s, track).w;
  }

  // ---- Sole tri-state drivers ----

  /** Nets show the resolution or, outside the table, what they held; nets of the drivers passed show the resolution. */
  ghost predicate SinglesUpTo(k: Circuit, s: State, w: seq<Word>, i: nat, o: nat)
    requires Fits(k, s)
  {
    && |w| == k.nets
    && (forall n :: 0 <= n < |w| ==> w[n] == NetAfterResolve(k, s, n) || (w[n] == s.w[n] && n !in k.bus))
    && (forall d, n :: TriOn(k, d, n) && 0 <= n < |w| && n !in k.bus && (d.comp < i || (d.comp == i && d.out < o)) ==>
          w[n] == NetAfterResolve(k, s, n))
  }

  lemma SinglesStart(k: Circuit, s: State, w: seq<Word>)
    requires Fits(k, s) && |w| == k.nets
    requires forall n :: 0 <= n < |w| ==> w[n] == if n in k.bus then NetAfterResolve(k, s, n) else s.w[n]
    ensures SinglesUpTo(k, s, w, 0, 0)
  {
    hide NetAfterResolve;
  }

  lemma SinglesStep(k: Circuit, s: State, w: seq<Word>, i: nat, o: nat)
    requires Checked(k) && Fits(k, s) && SinglesUpTo(k, s, w, i, o) && i < |k.comps| && o < |k.comps[i].outputs|
    ensures var pin := k.comps[i].outputs[o];
      pin.net < k.nets &&
      if pin.net >= 0 && pin.net !in k.bus && pin.tri
      then SinglesUpTo(k, s, w[pin.net := if s.c[i][o].oe then s.c[i][o].value else 0], i, o + 1)
      else SinglesUpTo(k, s, w, i, o + 1)
  {
    var pin := k.comps[i].outputs[o];
    if pin.net >= 0 && pin.net !in k.bus && pin.tri {
      SingleResolution(k, s, Driver(i, o), pin.net);
    }
    hide NetAfterResolve;
  }

  lemma SinglesRow(k: Circuit, s: State, w: seq<Word>, i: nat)
    requires Fits(k, s) && i < |k.comps| && SinglesUpTo(k, s, w, i, |k.comps[i].outputs|)
    ensures SinglesUpTo(k, s, w, i + 1, 0)
  {
    hide NetAfterResolve;
  }

  lemma SinglesDone(k: Circuit, s: State, w: seq<Word>)
    requires Fits(k, s) && SinglesUpTo(k, s, w, |k.comps|, 0)
    ensures forall n :: 0 <= n < |w| ==> w[n] == NetAfterResolve(k, s, n)
  {
    forall n | 0 <= n < |w| ensures w[n] == NetAfterResolve(k, s, n) {
      if TriNet(k, n) {
        var d :| TriOn(k, d, n);
      }
    }
  }

  lemma SingleResolution(k: Circuit, s: State, d: Driver, net: nat)
    requires Checked(k) && Fits(k, s) && TriOn(k, d, net) && net !in k.bus && net < k.nets
    ensures NetAfterResolve(k, s, net) == if s.c[d.comp][d.out].oe then s.c[d.comp][d.out].value else 0
  {
    SoleBusValue(k, s.c, d, net);
    if Conflict(k, s.c, net) {
      ConflictIsShared(k, s.c, net);
    }
  }

  // ---- The tick ----

  class Simulator {
    const k: Circuit
    const plan: Plan
    const w: array<Word>
    const c: array<seq<Drive>>
    var changed: bool
    var conflict: bool

    ghost predicate Valid()
      reads this, w, c
    {
      && Checked(k) && PlanFits(k, plan)
      && w.Length == k.nets && c.Length == |k.comps|
      && forall i :: 0 <= i < c.Length ==> |c[i]| == |k.comps[i].outputs|
    }

    ghost function Now(): (s: State)
      requires Valid()
      reads this, w, c
      ensures Fits(k, s)
    {
      State(w[..], c[..], changed, conflict)
    }

    /** The power-on state: words are zero and tri-state outputs are disabled. */
    constructor (k: Circuit, plan: Plan)
      requires Checked(k) && PlanFits(k, plan)
      ensures Valid() && fresh(w) && fresh(c) && this.k == k && this.plan == plan
      ensures forall net :: 0 <= net < k.nets ==> w[net] == 0
      ensures forall i, o :: 0 <= i < |k.comps| && 0 <= o < |k.comps[i].outputs| ==>
        c[i][o] == Drive(0, !k.comps[i].outputs[o].tri)
      ensures !changed && !conflict
    {
      this.k := k;
      this.plan := plan;
      w := new Word[k.nets](_ => 0);
      c := new seq<Drive>[|k.comps|](i requires 0 <= i < |k.comps| =>
        seq(|k.comps[i].outputs|, o requires 0 <= o < |k.comps[i].outputs| => Drive(0, !k.comps[i].outputs[o].tri)));
      changed := false;
      conflict := false;
    }

    /** One component: evaluate from the present words, write plain nets, latch tri-state drives, and for a
        combinational component show sole tri-state drives on their nets at once. */
    method RunComponent(i: nat, track: bool)
      requires Valid() && i < |k.comps|
      modifies this`changed, w, c
      ensures Valid() && Now() == Run(k, old(Now()), i, track)
    {
      ghost var s := Now();
      var outs := k.comps[i].outputs;
      var ins := Inputs(k.comps[i], w[..]);
      var vals := seq(|outs|, o requires 0 <= o < |outs| => k.comps[i].logic(ins, o));
      WriteOutputs(i, vals);
      if k.comps[i].comb {
        ShowSingles(i, vals, s, track);
      } else {
        assert forall net :: 0 <= net < k.nets && TriNet(k, net) ==> w[net] == s.w[net];
      }
      assert w[..] == Run(k, s, i, track).w;
      assert c[i] == DrivesAfterRun(k, i, s);
      assert c[..] == s.c[i := DrivesAfterRun(k, i, s)];
    }

    /** The word of a net after the plain outputs, and the tri-state outputs below the bound, have been shown. */
    ghost function PartlyShown(i: nat, vals: seq<Drive>, w0: seq<Word>, net: int, plain: nat, tri: nat): Word
      requires i < |k.comps| && |vals| == |k.comps[i].outputs|
    {
      if Writes(k, i, net) && OutputOn(k, i, net).out < (if PinOf(k, OutputOn(k, i, net)).tri then tri else plain)
      then Shown(PinOf(k, OutputOn(k, i, net)), vals[OutputOn(k, i, net).out])
      else Read(w0, net)
    }

    lemma WritesOwn(i: nat, o: nat)
      requires Valid() && i < |k.comps| && o < |k.comps[i].outputs|
      requires k.comps[i].outputs[o].net >= 0
      requires !k.comps[i].outputs[o].tri || (k.comps[i].comb && k.comps[i].outputs[o].net !in k.bus)
      ensures Writes(k, i, k.comps[i].outputs[o].net)
      ensures OutputOn(k, i, k.comps[i].outputs[o].net) == Driver(i, o)
    {
      var net := k.comps[i].outputs[o].net;
      assert Drives(k.comps[i], net) && On(k, Driver(i, o), net);
      SoleDriver(k, Driver(i, o), OutputOn(k, i, net), net);
    }

    method WriteOutputs(i: nat, vals: seq<Drive>)
      requires Valid() && i < |k.comps| && |vals| == |k.comps[i].outputs|
      modifies w, c
      ensures Valid()
      ensures forall net :: 0 <= net < w.Length ==> w[net] == PartlyShown(i, vals, old(w[..]), net, |vals|, 0)
      ensures forall j :: 0 <= j < c.Length && j != i ==> c[j] == old(c[j])
      ensures forall o :: 0 <= o < |vals| ==> c[i][o] == if k.comps[i].outputs[o].tri then vals[o] else old(c[i])[o]
    {
      ghost var w0 := w[..];
      for o := 0 to |vals|
        invariant Valid()
        invariant forall net :: 0 <= net < w.Length ==> w[net] == PartlyShown(i, vals, w0, net, o, 0)
        invariant forall j :: 0 <= j < c.Length && j != i ==> c[j] == old(c[j])
        invariant forall p :: 0 <= p < |vals| ==>
          c[i][p] == if p < o && k.comps[i].outputs[p].tri then vals[p] else old(c[i])[p]
      {
        var pin := k.comps[i].outputs[o];
        if pin.tri {
          c[i] := c[i][o := vals[o]];
        } else if pin.net >= 0 {
          WritesOwn(i, o);
          w[pin.net] := vals[o].value;
        }
      }
    }

    method ShowSingles(i: nat, vals: seq<Drive>, ghost s: State, track: bool)
      requires Valid() && i < |k.comps| && |vals| == |k.comps[i].outputs| && k.comps[i].comb && Fits(k, s)
      requires forall net :: 0 <= net < w.Length ==> w[net] == PartlyShown(i, vals, s.w, net, |vals|, 0)
      requires forall o :: 0 <= o < |vals| && k.comps[i].outputs[o].tri ==> c[i][o] == vals[o]
      requires changed == s.changed
      modifies this`changed, w
      ensures Valid()
      ensures forall net :: 0 <= net < w.Length ==> w[net] == PartlyShown(i, vals, s.w, net, |vals|, |vals|)
      ensures changed == (s.changed || (track && Moved(k, s.w, w[..])))
    {
      forall net | 0 <= net < w.Length && TriNet(k, net) ensures w[net] == s.w[net] {
        if Writes(k, i, net) {
          var d :| TriOn(k, d, net);
          SoleOrTri(net, d, OutputOn(k, i, net));
        }
      }
      for o := 0 to |vals|
        invariant Valid()
        invariant forall net :: 0 <= net < w.Length ==> w[net] == PartlyShown(i, vals, s.w, net, |vals|, o)
        invariant changed == (s.changed || (track && Moved(k, s.w, w[..])))
      {
        var pin := k.comps[i].outputs[o];
        if pin.net >= 0 && pin.net !in k.bus && pin.tri {
          WritesOwn(i, o);
          var before := w[pin.net];
          ghost var was := w[..];
          assert before == s.w[pin.net];
          w[pin.net] := if c[i][o].oe then c[i][o].value else 0;
          assert TriOn(k, Driver(i, o), pin.net);
          MovedAfterWrite(s.w, was, w[..], pin.net);
          if track && before != w[pin.net] {
            changed := true;
          }
        }
      }
    }

    lemma SoleOrTri(net: int, d: Driver, e: Driver)
      requires Valid() && net >= 0 && TriOn(k, d, net) && On(k, e, net)
      ensures PinOf(k, e).tri
    {
      if !PinOf(k, e).tri {
        SoleDriver(k, d, e, net);
      }
    }

    lemma MovedAfterWrite(w0: seq<Word>, was: seq<Word>, now: seq<Word>, net: nat)
      requires |w0| == |was| == |now| && net < |w0| && was[net] == w0[net] && TriNet(k, net)
      requires forall n :: 0 <= n < |was| && n != net ==> now[n] == was[n]
      ensures Moved(k, w0, now) <==> Moved(k, w0, was) || now[net] != w0[net]
    {
      if Moved(k, w0, was) {
        var n :| 0 <= n < |w0| && TriNet(k, n) && w0[n] != was[n];
        assert now[n] == was[n];
      }
    }

    /** The combinational stage over a list, restricted to a set. */
    method CombStage(order: seq<nat>, only: set<nat>, track: bool)
      requires Valid() && forall j :: 0 <= j < |order| ==> order[j] < |k.comps|
      modifies this`changed, w, c
      ensures Valid() && Now() == Stage(k, old(Now()), order, only, track, |order|)
    {
      for j := 0 to |order|
        invariant Valid() && Now() == Stage(k, old(Now()), order, only, track, j)
      {
        if order[j] in only {
          RunComponent(order[j], track);
        }
      }
    }

    /** One bus: scan the drivers for enabled ones; a second one raises the conflict and keeps the old word. */
    method ResolveBus(net: nat, track: bool)
      requires Valid() && net in k.bus
      modifies this, w
      ensures Valid() && k.nets > net
      ensures w[net] == NetAfterResolve(k, old(Now()), net)
      ensures BusMeans(k, c[..], net, old(w[net]), w[net])
      ensures forall n :: 0 <= n < w.Length && n != net ==> w[n] == old(w[n])
      ensures conflict == (old(conflict) || Conflict(k, c[..], net))
      ensures changed == (old(changed) || (track && w[net] != old(w[net])))
    {
      hide BusMeans;
      BusIsNet(net);
      BusTakesDriver(k, Now(), net);
      var before := w[net];
      var active, clash := ScanDrivers(net);
      if !clash {
        if active >= 0 {
          var d := k.bus[net][active];
          w[net] := c[d.comp][d.out].value;
        } else {
          w[net] := 0;
        }
      }
      if track && w[net] != before {
        changed := true;
      }
    }

    /** The first enabled driver, and whether there is another one, which raises the conflict. */
    method ScanDrivers(net: nat) returns (active: int, clash: bool)
      requires Valid() && net in k.bus
      modifies this`conflict
      ensures Valid() && conflict == (old(conflict) || clash)
      ensures clash <==> Conflict(k, c[..], net)
      ensures -1 <= active < |k.bus[net]|
      ensures active >= 0 ==> IsOutput(k, k.bus[net][active])
      ensures !clash && active >= 0 ==> BusValue(k, c[..], net) == c[k.bus[net][active].comp][k.bus[net][active].out].value
      ensures !clash && active < 0 ==> BusValue(k, c[..], net) == 0
    {
      var drivers := k.bus[net];
      assert forall d :: d in drivers <==> TriOn(k, d, net);
      active := -1;
      clash := false;
      for di := 0 to |drivers|
        invariant -1 <= active < di
        invariant active == -1 ==> !clash && forall j :: 0 <= j < di ==> !Active(k, c[..], drivers[j], net)
        invariant active >= 0 ==> Active(k, c[..], drivers[active], net)
        invariant active >= 0 ==> forall j :: 0 <= j < active ==> !Active(k, c[..], drivers[j], net)
        invariant clash <==> active >= 0 && exists j :: active < j < di && Active(k, c[..], drivers[j], net)
        invariant conflict == (old(conflict) || clash)
      {
        var d := drivers[di];
        assert d in drivers;
        if c[d.comp][d.out].oe {
          if active >= 0 {
            conflict := true;
            clash := true;
          } else {
            active := di;
          }
        }
      }
      ScanDecides(net, drivers, active, clash);
    }

    lemma BusIsNet(net: int)
      requires Valid() && net in k.bus
      ensures 0 <= net < k.nets && TriNet(k, net)
    {
      assert Shared(k, net);
      var d, e :| d != e && TriOn(k, d, net) && TriOn(k, e, net);
    }

    lemma ScanDecides(net: nat, drivers: seq<Driver>, active: int, clash: bool)
      requires Valid() && net in k.bus && drivers == k.bus[net] && -1 <= active < |drivers|
      requires active == -1 ==> !clash && forall j :: 0 <= j < |drivers| ==> !Active(k, c[..], drivers[j], net)
      requires active >= 0 ==> Active(k, c[..], drivers[active], net)
      requires active >= 0 ==> forall j :: 0 <= j < active ==> !Active(k, c[..], drivers[j], net)
      requires clash <==> active >= 0 && exists j :: active < j < |drivers| && Active(k, c[..], drivers[j], net)
      ensures clash <==> Conflict(k, c[..], net)
      ensures !clash && active >= 0 ==> BusValue(k, c[..], net) == c[drivers[active].comp][drivers[active].out].value
      ensures !clash && active < 0 ==> BusValue(k, c[..], net) == 0
    {
      assert Listed(k, net, drivers);
      hide Checked, Active, Conflict, BusValue, TriOn, Listed;
      if active < 0 {
        NoneActive(k, c[..], net, drivers);
      } else if clash {
        var j :| active < j < |drivers| && Active(k, c[..], drivers[j], net);
        TwoActive(k, c[..], net, drivers, active, j);
      } else {
        OneActive(k, c[..], net, drivers, active);
      }
    }

    /** Phase 2: every registered bus, then every sole tri-state driver. */
    method Propagate(track: bool)
      requires Valid()
      modifies this, w
      ensures Valid() && Now() == Resolve(k, old(Now()), track)
    {
      hide Checked, Resolve, NetAfterResolve, Conflict;
      ghost var s := Now();
      ResolveBuses(track);
      ShowAllSingles(s);
      ResolveIs(k, s, track, w[..]);
    }

    method ResolveBuses(track: bool)
      requires Valid()
      modifies this, w
      ensures Valid() && c[..] == old(c[..])
      ensures forall n :: 0 <= n < w.Length ==> w[n] == if n in k.bus then NetAfterResolve(k, old(Now()), n) else old(w[n])
      ensures conflict == (old(conflict) || exists n :: n in k.bus && Conflict(k, c[..], n))
      ensures changed == (old(changed) || (track && exists n :: 0 <= n < w.Length && n in k.bus && NetAfterResolve(k, old(Now()), n) != old(w[n])))
    {
      hide Checked, Conflict, NetAfterResolve;
      ghost var s := Now();
      for net := 0 to k.nets
        invariant Valid() && c[..] == s.c
        invariant forall n :: 0 <= n < w.Length ==> w[n] == if n < net && n in k.bus then NetAfterResolve(k, s, n) else s.w[n]
        invariant conflict == (s.conflict || exists n :: 0 <= n < net && n in k.bus && Conflict(k, s.c, n))
        invariant changed == (s.changed || (track && exists n :: 0 <= n < net && n in k.bus && NetAfterResolve(k, s, n) != s.w[n]))
      {
        if net in k.bus {
          SameNetAfter(k, s, Now(), net);
          ResolveBus(net, track);
        }
      }
      forall n | n in k.bus ensures 0 <= n < k.nets {
        BusIsNet(n);
      }
    }

    method ShowAllSingles(ghost s: State)
      requires Valid() && Fits(k, s) && c[..] == s.c
      requires forall n :: 0 <= n < w.Length ==> w[n] == if n in k.bus then NetAfterResolve(k, s, n) else s.w[n]
      modifies w
      ensures Valid() && forall n :: 0 <= n < w.Length ==> w[n] == NetAfterResolve(k, s, n)
    {
      hide Checked, NetAfterResolve, SinglesUpTo;
      SinglesStart(k, s, w[..]);
      for i := 0 to |k.comps|
        invariant Valid() && SinglesUpTo(k, s, w[..], i, 0)
      {
        for o := 0 to |k.comps[i].outputs|
          invariant Valid() && SinglesUpTo(k, s, w[..], i, o)
        {
          SinglesStep(k, s, w[..], i, o);
          var pin := k.comps[i].outputs[o];
          if pin.net >= 0 && pin.net !in k.bus && pin.tri {
            ghost var was := w[..];
            var shown: Word := if c[i][o].oe then c[i][o].value else 0;
            w[pin.net] := shown;
            assert w[..] == was[pin.net := shown];
          }
        }
        SinglesRow(k, s, w[..], i);
      }
      SinglesDone(k, s, w[..]);
    }

    /** Phases 1, 2 and 2b of circuit_tick, with what a caller may conclude from the outcome. */
    method Tick() returns (outcome: Outcome)
      requires Valid()
      modifies this, w, c
      ensures Valid() && (Now(), outcome) == TickSpec.Tick(k, old(Now()), plan)
      ensures CompletePlan(k, plan) && AllSettleAlone(k) && outcome == Settled ==> Stable(k, Now())
      ensures CompletePlan(k, plan) && !HasCycle(FlowGraph(k)) ==> outcome != BusOscillation
    {
      ghost var s := Now();
      outcome := RunPhases();
      if CompletePlan(k, plan) && AllSettleAlone(k) && TickSpec.Tick(k, s, plan).1 == Settled {
        TickSolves(k, s, plan);
      }
      if CompletePlan(k, plan) && !HasCycle(FlowGraph(k)) {
        AcyclicNeverOscillates(k, s, plan);
      }
    }

    method RunPhases() returns (outcome: Outcome)
      requires Valid()
      modifies this, w, c
      ensures Valid() && (Now(), outcome) == TickSpec.Tick(k, old(Now()), plan)
    {
      conflict := false;
      CombStage(plan.joint, Nodes(|k.comps|), false);
      Propagate(false);
      if conflict {
        return BusConflict;
      }
      if plan.affected == {} {
        return Settled;
      }
      var settled := SettleRounds(|k.comps| + 1);
      return if conflict then BusConflict else if settled then Settled else BusOscillation;
    }

    method SettleRounds(rounds: nat) returns (settled: bool)
      requires Valid()
      modifies this, w, c
      ensures Valid() && (Now(), settled) == Settle(k, old(Now()), plan.sorted, plan.affected, rounds)
    {
      settled := false;
      ghost var s := Now();
      var left := rounds;
      while left > 0 && !settled
        invariant Valid()
        invariant settled ==> (Now(), true) == Settle(k, s, plan.sorted, plan.affected, rounds)
        invariant !settled ==> Settle(k, Now(), plan.sorted, plan.affected, left) == Settle(k, s, plan.sorted, plan.affected, rounds)
        decreases left
      {
        changed := false;
        CombStage(plan.sorted, plan.affected, true);
        Propagate(true);
        if !changed {
          settled := true;
        }
        left := left - 1;
      }
    }
  }
}
