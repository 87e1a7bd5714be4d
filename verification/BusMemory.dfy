/** A connected clock source that waits for a bus lets some circuit of the same wiring remember the word the bus held. */
module BusMemory {
  import opened Netlist
  import opened Graph
  import opened TopoOrder
  import TriAffected
  import opened TickSpec
  import opened TickTheorems
  import opened Settling
  import opened ClockSources
  import opened Wiring

  // ---- A circuit that passes ones on ----

  /** Drivers alone on their net are enabled; on shared nets only the chosen one. */
  ghost predicate Enabled(k: Circuit, chosen: Driver, d: Driver) {
    d == chosen || (IsOutput(k, d) && PinOf(k, d).net !in k.bus)
  }

  predicate AnyOne(inputs: seq<Word>) {
    exists x :: 0 <= x < |inputs| && inputs[x] != 0
  }

  ghost function Relaying(k: Circuit, chosen: Driver, i: nat): (seq<Word>, nat) -> Drive {
    (w: seq<Word>, o: nat) => Drive(if AnyOne(w) then 1 else 0, Enabled(k, chosen, Driver(i, o)))
  }

  /** The same wiring, every output showing whether some input is not zero. */
  ghost function Relay(k: Circuit, chosen: Driver): (j: Circuit)
    ensures SameWiring(k, j)
  {
    k.(comps := seq(|k.comps|, i requires 0 <= i < |k.comps| => k.comps[i].(logic := Relaying(k, chosen, i))))
  }

  /** All drivers disabled, all words zero except, when hot, the late nets. */
  ghost function Start(k: Circuit, hot: bool): (s: State)
    ensures Fits(k, s)
  {
    var c := seq(|k.comps|, i requires 0 <= i < |k.comps| => seq(|k.comps[i].outputs|, _ => Drive(0, false)));
    State(seq(k.nets, net => if hot && Late(k, net) then 1 else 0), c, false, false)
  }

  lemma StartsAlike(k: Circuit, chosen: Driver)
    ensures var j := Relay(k, chosen);
      && Fits(j, Start(k, false)) && Fits(j, Start(k, true))
      && SameSurroundings(j, Phase1Set(j), Start(k, false), Start(k, true))
  {
    SameOutputs(k, Relay(k, chosen));
  }

  lemma RelayEval(k: Circuit, chosen: Driver, d: Driver, w: seq<Word>)
    requires IsOutput(k, d)
    ensures var j := Relay(k, chosen);
      && IsOutput(j, d)
      && Eval(j, d, w).oe == Enabled(k, chosen, d)
      && Eval(j, d, w).value == if AnyOne(Inputs(j.comps[d.comp], w)) then 1 else 0
  {
    SameOutputs(k, Relay(k, chosen));
  }

  // ---- No conflicts ----

  /** No conflict was seen, and on shared nets only the chosen driver is enabled. */
  ghost predicate Calm(k: Circuit, chosen: Driver, s: State)
    requires Fits(k, s)
  {
    !s.conflict && forall d :: IsOutput(k, d) && PinOf(k, d).tri && PinOf(k, d).net in k.bus && s.c[d.comp][d.out].oe ==> d == chosen
  }

  lemma RunKeepsCalm(k: Circuit, chosen: Driver, s: State, m: nat, track: bool)
    requires var j := Relay(k, chosen); Fits(j, s) && m < |j.comps| && Calm(j, chosen, s)
    ensures var j := Relay(k, chosen); Calm(j, chosen, Run(j, s, m, track))
  {
    var j := Relay(k, chosen);
    var t := Run(j, s, m, track);
    SameOutputs(k, j);
    forall d | IsOutput(j, d) && PinOf(j, d).tri && PinOf(j, d).net in j.bus && t.c[d.comp][d.out].oe ensures d == chosen {
      if d.comp == m {
        RelayEval(k, chosen, d, s.w);
        assert d == Driver(m, d.out) && j.comps[m].outputs[d.out].tri;
        assert t.c[m][d.out] == Eval(j, d, s.w);
      }
    }
  }

  lemma CalmHasNoConflict(k: Circuit, chosen: Driver, s: State, net: int)
    requires Fits(k, s) && Checked(k) && Calm(k, chosen, s) && net >= 0
    ensures !Conflict(k, s.c, net)
  {
    if Conflict(k, s.c, net) {
      ConflictIsShared(k, s.c, net);
    }
  }

  lemma ResolveKeepsCalm(k: Circuit, chosen: Driver, s: State, track: bool)
    requires Fits(k, s) && Checked(k) && Calm(k, chosen, s)
    ensures Calm(k, chosen, Resolve(k, s, track))
  {
    forall net | net in k.bus ensures !Conflict(k, s.c, net) {
      CalmHasNoConflict(k, chosen, s, net);
    }
  }

  // ---- From zeros only zeros ----

  ghost predicate Cold(k: Circuit, s: State)
    requires Fits(k, s)
  {
    && (forall net :: 0 <= net < |s.w| ==> s.w[net] == 0)
    && (forall i, o :: 0 <= i < |s.c| && 0 <= o < |s.c[i]| ==> s.c[i][o].value == 0)
  }

  lemma RunKeepsCold(k: Circuit, chosen: Driver, s: State, m: nat, track: bool)
    requires var j := Relay(k, chosen); Fits(j, s) && m < |j.comps| && Cold(j, s)
    ensures var j := Relay(k, chosen); Cold(j, Run(j, s, m, track))
  {
    var j := Relay(k, chosen);
    var t := Run(j, s, m, track);
    assert !AnyOne(Inputs(j.comps[m], s.w));
    forall d | IsOutput(k, d) && d.comp == m ensures Eval(j, d, s.w).value == 0 {
      RelayEval(k, chosen, d, s.w);
    }
    SameOutputs(k, j);
    forall net | 0 <= net < |t.w| ensures t.w[net] == 0 {
      if Writes(j, m, net) {
        assert IsOutput(k, OutputOn(j, m, net));
      }
    }
    forall i, o | 0 <= i < |t.c| && 0 <= o < |t.c[i]| ensures t.c[i][o].value == 0 {
      if i == m {
        assert IsOutput(k, Driver(m, o)) && Eval(j, Driver(m, o), s.w).value == 0;
      }
    }
  }

  lemma ResolveKeepsCold(k: Circuit, s: State, track: bool)
    requires Fits(k, s) && Cold(k, s)
    ensures Cold(k, Resolve(k, s, track))
  {
  }

  ghost predicate ColdCalm(k: Circuit, chosen: Driver, s: State) {
    Fits(k, s) && Cold(k, s) && Calm(k, chosen, s)
  }

  /** From the cold start a tick ends with zeros, and no conflict. */
  lemma ColdTick(k: Circuit, chosen: Driver, p: Plan)
    requires Checked(k) && PlanFits(k, p)
    ensures PlanFits(Relay(k, chosen), p)
    ensures ColdCalm(Relay(k, chosen), chosen, Tick(Relay(k, chosen), Start(k, false), p).0)
  {
    var j := Relay(k, chosen);
    WiringKeepsChecked(k, j);
    var inv := (s: State) => ColdCalm(j, chosen, s);
    ColdStart(k, chosen);
    hide Checked, Relay, Cold, Calm, Run, Resolve, Start, Tick;
    forall s: State, b: bool | ColdCalm(j, chosen, s) ensures ColdCalm(j, chosen, State(s.w, s.c, b, s.conflict)) {
      MarkIsApart(j, chosen, s, b);
    }
    forall s: State, m: nat, track: bool | ColdCalm(j, chosen, s) && m < |j.comps| ensures ColdCalm(j, chosen, Run(j, s, m, track)) {
      RunKeepsCold(k, chosen, s, m, track);
      RunKeepsCalm(k, chosen, s, m, track);
    }
    forall s: State, track: bool | ColdCalm(j, chosen, s) ensures ColdCalm(j, chosen, Resolve(j, s, track)) {
      ResolveKeepsCold(j, s, track);
      ResolveKeepsCalm(j, chosen, s, track);
    }
    TickInvariant(j, Start(k, false), p, inv);
  }

  lemma ColdStart(k: Circuit, chosen: Driver)
    ensures ColdCalm(Relay(k, chosen), chosen, Start(k, false)) && Start(k, false).(conflict := false) == Start(k, false)
  {
    StartFits(k, chosen, false);
  }

  lemma StartFits(k: Circuit, chosen: Driver, hot: bool)
    ensures Fits(Relay(k, chosen), Start(k, hot))
    ensures Calm(Relay(k, chosen), chosen, Start(k, hot)) && Start(k, hot).(conflict := false) == Start(k, hot)
  {
  }

  lemma MarkIsApart(k: Circuit, chosen: Driver, s: State, b: bool)
    requires ColdCalm(k, chosen, s)
    ensures ColdCalm(k, chosen, State(s.w, s.c, b, s.conflict))
  {
  }

  // ---- In phase 1 the ones on the late nets reach every waiting component ----

  /** Every net component i writes as it runs holds one, and so does its drive at the chosen output. */
  ghost predicate Passed(k: Circuit, chosen: Driver, s: State, i: nat)
    requires Fits(k, s) && i < |k.comps|
  {
    && (forall net :: Writes(k, i, net) ==> Read(s.w, net) == 1)
    && (chosen.comp == i && IsOutput(k, chosen) && PinOf(k, chosen).tri ==> s.c[i][chosen.out] == Drive(1, true))
  }

  ghost predicate HotUpTo(k: Circuit, chosen: Driver, p: Plan, s: State, n: nat)
    requires Fits(k, s)
  {
    && (forall net :: 0 <= net < k.nets && Late(k, net) ==> Read(s.w, net) == 1)
    && (forall h :: 0 <= h < n && h < |p.joint| && p.joint[h] < |k.comps| && Waits(k, p.joint[h]) ==>
          Passed(k, chosen, s, p.joint[h]))
  }

  /** What runs in phase 1 leaves late nets alone. */
  lemma LateNetsStand(k: Circuit, m: nat, net: int)
    requires Checked(k) && m < |k.comps| && Late(k, net) && net >= 0
    ensures !Writes(k, m, net)
  {
    var d :| TriOn(k, d, net);
    if Drives(k.comps[m], net) {
      var e := OutputOn(k, m, net);
      if !PinOf(k, e).tri {
        SoleDriver(k, d, e, net);
      }
    }
  }

  /** What a component wrote is not written by another. */
  lemma WrittenStands(k: Circuit, q: nat, m: nat, net: int)
    requires Checked(k) && q < |k.comps| && m < |k.comps| && q != m && Writes(k, q, net)
    ensures !Drives(k.comps[m], net)
  {
    if Drives(k.comps[m], net) {
      SoleDriver(k, OutputOn(k, q, net), OutputOn(k, m, net), net);
    }
  }

  /** When a waiting component runs in phase 1, one of its inputs holds one. */
  lemma SeesOne(k: Circuit, chosen: Driver, p: Plan, s: State, n: nat)
    requires Fits(k, s) && Checked(k) && CompletePlan(k, p) && !HasCycle(FlowGraph(k))
    requires n < |p.joint| && HotUpTo(k, chosen, p, s, n) && Waits(k, p.joint[n])
    ensures AnyOne(Inputs(k.comps[p.joint[n]], s.w))
  {
    var i := p.joint[n];
    WaitingReason(k, i);
    if ReadsLate(k, i) {
      var net :| Reads(k.comps[i], net) && Late(k, net);
      ReadsOne(k, i, net, s);
    } else {
      var m: nat :| Waits(k, m) && Edge(FlowGraph(k), m, i);
      FlowEdge(k, m, i);
      var net :| Reads(k.comps[i], net) && Drives(k.comps[m], net);
      PassedOn(k, chosen, p, s, n, m, net);
      ReadsOne(k, i, net, s);
    }
  }

  lemma ReadsOne(k: Circuit, i: nat, net: int, s: State)
    requires Fits(k, s) && Checked(k) && i < |k.comps| && Reads(k.comps[i], net)
    requires 0 <= net < k.nets ==> Read(s.w, net) == 1
    ensures AnyOne(Inputs(k.comps[i], s.w))
  {
    var x :| 0 <= x < |k.comps[i].inputs| && k.comps[i].inputs[x] == net;
    assert Inputs(k.comps[i], s.w)[x] == 1;
  }

  lemma PassedOn(k: Circuit, chosen: Driver, p: Plan, s: State, n: nat, m: nat, net: int)
    requires Fits(k, s) && Checked(k) && CompletePlan(k, p) && !HasCycle(FlowGraph(k))
    requires n < |p.joint| && HotUpTo(k, chosen, p, s, n) && p.joint[n] < |k.comps|
    requires Waits(k, m) && InPhase1(k, m) && Edge(FlowGraph(k), m, p.joint[n])
    requires Reads(k.comps[p.joint[n]], net) && Drives(k.comps[m], net) && !Late(k, net)
    ensures Read(s.w, net) == 1
  {
    RanBefore(k, p, n, m, net);
    UnsharedIsWritten(k, m, net);
    hide Checked, CompletePlan, Waits, Late, Writes;
    var h :| 0 <= h < n && h < |p.joint| && p.joint[h] == m;
    assert Passed(k, chosen, s, p.joint[h]);
  }

  lemma RanBefore(k: Circuit, p: Plan, n: nat, m: nat, net: int)
    requires Checked(k) && CompletePlan(k, p) && !HasCycle(FlowGraph(k)) && n < |p.joint| && p.joint[n] < |k.comps|
    requires InPhase1(k, m) && Edge(FlowGraph(k), m, p.joint[n])
    requires Reads(k.comps[p.joint[n]], net) && Drives(k.comps[m], net) && !Late(k, net)
    ensures Before(p.joint, m, n)
  {
    var i := p.joint[n];
    NotLateIsUnshared(k, net);
    NoSelfEdge(FlowGraph(k), i);
    CompleteCovers(k, p.joint, true);
    hide Checked, Late;
    WriterRunsFirst(k, p.joint, true, m, i, net, n);
  }

  lemma UnsharedIsWritten(k: Circuit, m: nat, net: int)
    requires Checked(k) && m < |k.comps| && net >= 0 && Drives(k.comps[m], net) && !Late(k, net)
    ensures Writes(k, m, net)
  {
    NotLateIsUnshared(k, net);
    var d := OutputOn(k, m, net);
    if PinOf(k, d).tri {
      assert TriOn(k, d, net);
      var a: nat :| a < |k.comps| && k.comps[a].comb && Drives(k.comps[a], net);
      SoleDriver(k, d, OutputOn(k, a, net), net);
    }
  }

  /** One run of phase 1: a waiting component passes the one on, and what was passed on before stays. */
  lemma HotStep(k: Circuit, chosen: Driver, p: Plan, s: State, n: nat)
    requires var j := Relay(k, chosen); Fits(j, s) && Checked(j) && CompletePlan(j, p) && !HasCycle(FlowGraph(j))
    requires n < |p.joint| && HotUpTo(Relay(k, chosen), chosen, p, s, n)
    ensures var j := Relay(k, chosen); HotUpTo(j, chosen, p, Run(j, s, p.joint[n], false), n + 1)
  {
    var j := Relay(k, chosen);
    var m := p.joint[n];
    var t := Run(j, s, m, false);
    forall net | 0 <= net < j.nets && Late(j, net) ensures Read(t.w, net) == 1 {
      LateNetsStand(j, m, net);
    }
    forall h | 0 <= h < n + 1 && p.joint[h] < |j.comps| && Waits(j, p.joint[h]) ensures Passed(j, chosen, t, p.joint[h]) {
      if h == n {
        SeesOne(j, chosen, p, s, n);
        RunPasses(k, chosen, s, m);
      } else {
        CompleteCovers(j, p.joint, true);
        StaysPassed(j, chosen, s, p.joint[h], m);
      }
    }
  }

  lemma RunPasses(k: Circuit, chosen: Driver, s: State, m: nat)
    requires var j := Relay(k, chosen); Fits(j, s) && Checked(j) && m < |j.comps| && AnyOne(Inputs(j.comps[m], s.w))
    ensures var j := Relay(k, chosen); Passed(j, chosen, Run(j, s, m, false), m)
  {
    var j := Relay(k, chosen);
    var t := Run(j, s, m, false);
    SameOutputs(k, j);
    forall net | Writes(j, m, net) ensures Read(t.w, net) == 1 {
      var d := OutputOn(j, m, net);
      RelayEval(k, chosen, d, s.w);
      assert net < j.nets;
    }
    if chosen.comp == m && IsOutput(j, chosen) && PinOf(j, chosen).tri {
      RelayEval(k, chosen, chosen, s.w);
      assert chosen == Driver(m, chosen.out) && j.comps[m].outputs[chosen.out] == PinOf(j, chosen);
    }
  }

  lemma StaysPassed(k: Circuit, chosen: Driver, s: State, q: nat, m: nat)
    requires Fits(k, s) && Checked(k) && q < |k.comps| && m < |k.comps| && q != m && Passed(k, chosen, s, q)
    ensures Passed(k, chosen, Run(k, s, m, false), q)
  {
    RunFrame(k, s, m, false);
    forall net | Writes(k, q, net) ensures Read(Run(k, s, m, false).w, net) == 1 {
      WrittenStands(k, q, m, net);
    }
  }

  ghost predicate HotCalm(k: Circuit, chosen: Driver, p: Plan, s: State, n: nat) {
    Fits(k, s) && HotUpTo(k, chosen, p, s, n) && Calm(k, chosen, s)
  }

  lemma HotStage(k: Circuit, chosen: Driver, p: Plan, s: State)
    requires var j := Relay(k, chosen); Checked(j) && CompletePlan(j, p) && !HasCycle(FlowGraph(j))
    requires HotCalm(Relay(k, chosen), chosen, p, s, 0)
    ensures var j := Relay(k, chosen);
      HotCalm(j, chosen, p, Stage(j, s, p.joint, Nodes(|j.comps|), false, |p.joint|), |p.joint|)
  {
    var j := Relay(k, chosen);
    var all := Nodes(|j.comps|);
    assert PlanFits(j, p);
    hide Checked, CompletePlan, Relay, Calm, Run, HotUpTo, Waits, FlowGraph, HasCycle;
    var inv := (s: State, n: nat) => HotCalm(j, chosen, p, s, n);
    forall s: State, n: nat | Fits(j, s) && n < |p.joint| && inv(s, n) ensures inv(Step(j, s, p.joint, all, false, n), n + 1) {
      HotStep(k, chosen, p, s, n);
      RunKeepsCalm(k, chosen, s, p.joint[n], false);
    }
    StageInvariant(j, s, p.joint, all, false, |p.joint|, inv);
  }

  lemma HotStart(k: Circuit, chosen: Driver, p: Plan)
    ensures Fits(Relay(k, chosen), Start(k, true)) && HotUpTo(Relay(k, chosen), chosen, p, Start(k, true), 0)
  {
    var j := Relay(k, chosen);
    forall net | 0 <= net < j.nets && Late(j, net) ensures Read(Start(k, true).w, net) == 1 {
      WiringKeepsLate(k, j, net);
    }
  }

  lemma PassedAtLast(k: Circuit, chosen: Driver, p: Plan, t: State)
    requires Fits(k, t) && CompletePlan(k, p) && HotUpTo(k, chosen, p, t, |p.joint|)
    requires InPhase1(k, chosen.comp) && Waits(k, chosen.comp)
    ensures Passed(k, chosen, t, chosen.comp)
  {
    CompleteCovers(k, p.joint, true);
    assert chosen.comp in p.joint;
    var h :| 0 <= h < |p.joint| && p.joint[h] == chosen.comp;
  }

  // ---- From phase 2 on the chosen output shows its one ----

  /** The chosen net holds one, and a tri-state drive on it is an enabled one. */
  ghost predicate Shows(k: Circuit, chosen: Driver, s: State)
    requires Fits(k, s) && IsOutput(k, chosen)
  {
    && Read(s.w, PinOf(k, chosen).net) == 1
    && (PinOf(k, chosen).tri ==> s.c[chosen.comp][chosen.out] == Drive(1, true))
  }

  lemma ResolveShows(k: Circuit, chosen: Driver, s: State, track: bool)
    requires Fits(k, s) && Checked(k) && IsOutput(k, chosen) && PinOf(k, chosen).net >= 0 && Calm(k, chosen, s)
    requires if PinOf(k, chosen).tri then s.c[chosen.comp][chosen.out] == Drive(1, true) else Read(s.w, PinOf(k, chosen).net) == 1
    ensures Shows(k, chosen, Resolve(k, s, track))
  {
    var net := PinOf(k, chosen).net;
    assert k.comps[chosen.comp].outputs[chosen.out].net == net && net < k.nets;
    if PinOf(k, chosen).tri {
      assert TriOn(k, chosen, net) && Active(k, s.c, chosen, net);
      CalmHasNoConflict(k, chosen, s, net);
    } else {
      forall e | TriOn(k, e, net) ensures false {
        SoleDriver(k, chosen, e, net);
      }
    }
  }

  lemma RunKeepsShown(k: Circuit, chosen: Driver, s: State, m: nat, track: bool)
    requires Fits(k, s) && Checked(k) && IsOutput(k, chosen) && PinOf(k, chosen).net >= 0 && Shows(k, chosen, s)
    requires m < |k.comps| && m != chosen.comp
    ensures Shows(k, chosen, Run(k, s, m, track))
  {
    var net := PinOf(k, chosen).net;
    RunFrame(k, s, m, track);
    if Writes(k, m, net) {
      var e := OutputOn(k, m, net);
      assert On(k, chosen, net) && On(k, e, net);
      SoleDriver(k, chosen, e, net);
    }
  }

  /** From the hot start the chosen output of a waiting clock source shows a one when the tick ends, without conflict. */
  lemma HotTick(k: Circuit, chosen: Driver, p: Plan)
    requires var j := Relay(k, chosen); Checked(j) && CompletePlan(j, p) && !HasCycle(FlowGraph(j))
    requires WaitingClock(Relay(k, chosen), chosen)
    ensures ShowsCalm(Relay(k, chosen), chosen, Tick(Relay(k, chosen), Start(k, true), p).0)
  {
    var j := Relay(k, chosen);
    hide Relay, Phases12, Settle, Tick, ShowsCalm, Start, Fits, CompletePlan, Checked, FlowGraph, HasCycle, WaitingClock;
    StartFits(k, chosen, true);
    PlanIsFit(j, p);
    HotPhases12(k, chosen, p);
    ShownSettle(k, chosen, p, Phases12(j, Start(k, true), p), |j.comps| + 1);
    TickEnds(j, Start(k, true), p);
  }

  /** The chosen output is a connected one of a clock source that waits. */
  ghost predicate WaitingClock(k: Circuit, chosen: Driver) {
    IsOutput(k, chosen) && PinOf(k, chosen).net >= 0 && k.comps[chosen.comp].clock && Waits(k, chosen.comp)
  }

  ghost predicate ShowsCalm(k: Circuit, chosen: Driver, s: State) {
    IsOutput(k, chosen) && Fits(k, s) && Shows(k, chosen, s) && Calm(k, chosen, s)
  }

  lemma HotPhases12(k: Circuit, chosen: Driver, p: Plan)
    requires var j := Relay(k, chosen); Checked(j) && CompletePlan(j, p) && !HasCycle(FlowGraph(j))
    requires WaitingClock(Relay(k, chosen), chosen)
    ensures var j := Relay(k, chosen); Fits(j, Start(k, true)) && ShowsCalm(j, chosen, Phases12(j, Start(k, true), p))
  {
    var j := Relay(k, chosen);
    StartFits(k, chosen, true);
    HotStart(k, chosen, p);
    HotStage(k, chosen, p, Start(k, true));
    var t := Stage(j, Start(k, true), p.joint, Nodes(|j.comps|), false, |p.joint|);
    PassedAtLast(j, chosen, p, t);
    PlainIsWritten(j, chosen);
    hide Checked, CompletePlan, Relay, Calm, Stage, Resolve, Waits, HotUpTo, FlowGraph, HasCycle;
    ResolveShows(j, chosen, t, false);
    ResolveKeepsCalm(j, chosen, t, false);
  }

  lemma PlainIsWritten(k: Circuit, d: Driver)
    requires Checked(k) && IsOutput(k, d) && PinOf(k, d).net >= 0
    ensures !PinOf(k, d).tri ==> Writes(k, d.comp, PinOf(k, d).net)
  {
    var net := PinOf(k, d).net;
    assert k.comps[d.comp].outputs[d.out].net == net && Drives(k.comps[d.comp], net);
    if !PinOf(k, d).tri {
      SoleDriver(k, d, OutputOn(k, d.comp, net), net);
    }
  }

  lemma ShownSettle(k: Circuit, chosen: Driver, p: Plan, s: State, fuel: nat)
    requires var j := Relay(k, chosen); Checked(j) && CompletePlan(j, p) && WaitingClock(j, chosen) && ShowsCalm(j, chosen, s)
    ensures var j := Relay(k, chosen); ShowsCalm(j, chosen, Settle(j, s, p.sorted, p.affected, fuel).0)
  {
    var j := Relay(k, chosen);
    CompleteCovers(j, p.sorted, false);
    var inv := (s: State) => ShowsCalm(j, chosen, s);
    assert PlanFits(j, p) && forall m: nat :: m in p.sorted ==> m != chosen.comp;
    hide CompletePlan, Relay, Calm, Shows, Run, Resolve, Waits, Settle;
    forall s: State, b: bool | ShowsCalm(j, chosen, s) ensures ShowsCalm(j, chosen, State(s.w, s.c, b, s.conflict)) {
      ShownApart(j, chosen, s, b);
    }
    forall s: State, m: nat | ShowsCalm(j, chosen, s) && m in p.sorted && m < |j.comps| ensures ShowsCalm(j, chosen, Run(j, s, m, true)) {
      RunKeepsShown(j, chosen, s, m, true);
      RunKeepsCalm(k, chosen, s, m, true);
    }
    forall s: State | ShowsCalm(j, chosen, s) ensures ShowsCalm(j, chosen, Resolve(j, s, true)) {
      ShownResolves(j, chosen, s);
    }
    SettleInvariant(j, s, p, fuel, inv);
  }

  lemma ShownResolves(k: Circuit, chosen: Driver, s: State)
    requires Checked(k) && ShowsCalm(k, chosen, s) && PinOf(k, chosen).net >= 0
    ensures ShowsCalm(k, chosen, Resolve(k, s, true))
  {
    ResolveShows(k, chosen, s, true);
    ResolveKeepsCalm(k, chosen, s, true);
  }

  lemma ShownApart(k: Circuit, chosen: Driver, s: State, b: bool)
    requires ShowsCalm(k, chosen, s)
    ensures ShowsCalm(k, chosen, State(s.w, s.c, b, s.conflict))
  {
  }

  // ---- Forgetting is a matter of wiring ----

  /** Settled ticks from the same surroundings end with the same words, whatever words and drives they started from. */
  ghost predicate Forgets(k: Circuit, p: Plan) {
    PlanFits(k, p) && forall s: State, t: State ::
      (&& Fits(k, s) && Fits(k, t) && SameSurroundings(k, Phase1Set(k), s, t)
       && Tick(k, s, p).1 == Settled && Tick(k, t, p).1 == Settled) ==> Tick(k, s, p).0.w == Tick(k, t, p).0.w
  }

  lemma NoConflictSettles(k: Circuit, s: State, p: Plan)
    requires Fits(k, s) && Checked(k) && CompletePlan(k, p) && !HasCycle(FlowGraph(k)) && !Tick(k, s, p).0.conflict
    ensures Tick(k, s, p).1 == Settled
  {
    AcyclicNeverOscillates(k, s, p);
    hide Phases12, Settle;
  }

  /** Main result: when a connected clock source waits for a bus, some circuit of the same wiring ends its settled ticks
      with words that depend on what the nets held before. */
  lemma WaitingClockRemembers(k: Circuit, chosen: Driver, p: Plan)
    requires Checked(k) && CompletePlan(k, p) && !HasCycle(FlowGraph(k)) && WaitingClock(k, chosen)
    ensures !Forgets(Relay(k, chosen), p)
  {
    var j := Relay(k, chosen);
    WiringKeepsChecked(k, j);
    WiringKeepsPlan(k, j, p);
    WiringKeepsFlow(k, j);
    WiringKeepsWaitingClock(k, j, chosen);
    hide Relay, Checked, CompletePlan, FlowGraph, HasCycle, Start, Tick, SameSurroundings;
    PlanIsFit(j, p);
    PlanIsFit(k, p);
    StartsAlike(k, chosen);
    ColdTick(k, chosen, p);
    HotTick(k, chosen, p);
    NoConflictSettles(j, Start(k, false), p);
    NoConflictSettles(j, Start(k, true), p);
    ShownDiffers(j, chosen, Tick(j, Start(k, false), p).0, Tick(j, Start(k, true), p).0);
  }

  lemma ShownDiffers(k: Circuit, chosen: Driver, s: State, t: State)
    requires ColdCalm(k, chosen, s) && ShowsCalm(k, chosen, t)
    ensures s.w != t.w
  {
  }

  lemma WiringKeepsWaitingClock(k: Circuit, j: Circuit, chosen: Driver)
    requires SameWiring(k, j) && WaitingClock(k, chosen)
    ensures WaitingClock(j, chosen)
  {
    SameOutputs(k, j);
    assert SamePins(k.comps[chosen.comp], j.comps[chosen.comp]);
    WiringKeepsWaits(k, j, chosen.comp);
  }

  /** Settled ticks leave the equations of the connected clock sources holding. */
  ghost predicate KeepsClocks(k: Circuit, p: Plan) {
    PlanFits(k, p) && forall s: State :: Fits(k, s) && Tick(k, s, p).1 == Settled ==> ClocksHold(k, Tick(k, s, p).0)
  }

  lemma KeepingClocksForgets(k: Circuit, p: Plan)
    requires Checked(k) && CompletePlan(k, p) && !HasCycle(FlowGraph(k)) && KeepsClocks(k, p)
    ensures Forgets(k, p)
  {
    hide Checked, CompletePlan, FlowGraph, HasCycle, Tick, ClocksHold, SameSurroundings, Fits, PlanFits;
    PlanIsFit(k, p);
    forall s: State, t: State |
      && Fits(k, s) && Fits(k, t) && SameSurroundings(k, Phase1Set(k), s, t)
      && Tick(k, s, p).1 == Settled && Tick(k, t, p).1 == Settled
      ensures Tick(k, s, p).0.w == Tick(k, t, p).0.w
    {
      HeldClocksForget(k, s, t, p);
    }
  }

  /** Main result: with an acyclic data flow, every circuit of a given wiring forgets what its nets held before the tick
      exactly when no connected clock source waits for a bus, and exactly then settled ticks solve the equations of all
      connected clock sources. */
  lemma ForgettingIffClocksPrompt(k: Circuit, p: Plan)
    requires Checked(k) && CompletePlan(k, p) && !HasCycle(FlowGraph(k))
    ensures (forall j :: SameWiring(k, j) ==> Forgets(j, p)) <==> ClocksPrompt(k)
    ensures (forall j :: SameWiring(k, j) ==> KeepsClocks(j, p)) <==> ClocksPrompt(k)
  {
    hide Checked, CompletePlan, FlowGraph, HasCycle, Forgets, KeepsClocks, Relay, Waits;
    if ClocksPrompt(k) {
      forall j | SameWiring(k, j) ensures KeepsClocks(j, p) && Forgets(j, p) {
        WiringKeepsClocks(k, j, p);
        WiringForgets(k, j, p);
      }
    } else {
      var i: nat :| i < |k.comps| && k.comps[i].clock && Connected(k, i) && Waits(k, i);
      var d :| IsOutput(k, d) && d.comp == i && PinOf(k, d).net >= 0;
      WaitingClockRemembers(k, d, p);
      assert SameWiring(k, Relay(k, d));
      if KeepsClocks(Relay(k, d), p) {
        WiringForgets(k, Relay(k, d), p);
      }
    }
  }

  lemma WiringKeepsClocks(k: Circuit, j: Circuit, p: Plan)
    requires Checked(k) && CompletePlan(k, p) && !HasCycle(FlowGraph(k)) && ClocksPrompt(k) && SameWiring(k, j)
    ensures KeepsClocks(j, p)
  {
    WiringKeepsChecked(k, j);
    WiringKeepsPlan(k, j, p);
    WiringKeepsFlow(k, j);
    WiringKeepsClocksPrompt(k, j);
    hide Checked, CompletePlan, FlowGraph, HasCycle, ClocksPrompt, Tick, SameWiring, ClocksHold;
    PlanIsFit(j, p);
    forall s: State | Fits(j, s) && Tick(j, s, p).1 == Settled ensures ClocksHold(j, Tick(j, s, p).0) {
      PromptClocksHold(j, s, p);
    }
  }

  lemma WiringForgets(k: Circuit, j: Circuit, p: Plan)
    requires Checked(k) && CompletePlan(k, p) && !HasCycle(FlowGraph(k)) && SameWiring(k, j) && KeepsClocks(j, p)
    ensures Forgets(j, p)
  {
    WiringKeepsChecked(k, j);
    WiringKeepsPlan(k, j, p);
    WiringKeepsFlow(k, j);
    hide Checked, CompletePlan, FlowGraph, HasCycle, SameWiring, KeepsClocks;
    KeepingClocksForgets(j, p);
  }

  // ---- The smallest circuit that remembers ----

  /** Two tri-state drivers share net 0; a clock source reads it and drives net 1. */
  const DRIVING := Component([], [OutPin(0, true, false)], true, false, (w: seq<Word>, o: nat) => Drive(5, true), (o: nat) => [])

  const IDLE := Component([], [OutPin(0, true, false)], true, false, (w: seq<Word>, o: nat) => Drive(0, false), (o: nat) => [])

  const WATCHING := Component([0], [OutPin(1, false, true)], false, true,
    (w: seq<Word>, o: nat) => Drive(if |w| == 1 then w[0] else 0, true), (o: nat) => [])

  const WATCHED_BUS := Circuit([DRIVING, IDLE, WATCHING], 2, map[0 := [Driver(0, 0), Driver(1, 0)]])

  const WATCHED_PLAN := Plan([0, 1, 2], [0, 1], {})

  lemma WatchedPins()
    ensures forall d, net :: On(WATCHED_BUS, d, net) <==>
      (d == Driver(0, 0) && net == 0) || (d == Driver(1, 0) && net == 0) || (d == Driver(2, 0) && net == 1)
    ensures forall d, net :: TriOn(WATCHED_BUS, d, net) <==> (d == Driver(0, 0) || d == Driver(1, 0)) && net == 0
    ensures forall net :: TriNet(WATCHED_BUS, net) <==> net == 0
  {
    assert TriOn(WATCHED_BUS, Driver(0, 0), 0);
  }

  lemma WatchedIsChecked()
    ensures Checked(WATCHED_BUS)
  {
    WatchedPins();
    assert TriOn(WATCHED_BUS, Driver(0, 0), 0) && TriOn(WATCHED_BUS, Driver(1, 0), 0);
  }

  lemma WatchedFlow(i: nat, j: nat)
    requires i < 3 && j < 3
    ensures TriAffected.Flows(WATCHED_BUS.comps[i], WATCHED_BUS.comps[j]) ==> i < 2 && j == 2
  {
  }

  lemma WatchedIsAcyclic()
    ensures !HasCycle(FlowGraph(WATCHED_BUS))
  {
    var rank := [0, 0, 1];
    forall u: nat, v: nat | v < 3 && Edge(FlowGraph(WATCHED_BUS), u, v) ensures rank[u] < rank[v] {
      FlowEdge(WATCHED_BUS, u, v);
      WatchedFlow(u, v);
    }
    RankingExcludesCycles(FlowGraph(WATCHED_BUS), rank);
  }

  lemma WatchedSorts(nodes: seq<nat>)
    requires nodes == [0, 1] || nodes == [0, 1, 2]
    ensures NodesOf(WATCHED_BUS.comps, nodes) && Sorted(WATCHED_BUS.comps, nodes, nodes, [])
  {
    assert nodes + [] == nodes;
    forall i: nat, n: nat | n < |nodes| && Feeds(WATCHED_BUS.comps, nodes, i, nodes[n]) ensures Before(nodes, i, n) {
      var a, b :| 0 <= a < |nodes| && 0 <= b < |nodes| && nodes[a] == i && nodes[b] == nodes[n] && DataEdge(WATCHED_BUS.comps, nodes, a, b);
      WatchedFlow(i, nodes[n]);
      assert nodes[i] == i;
    }
  }

  lemma WatchedReruns()
    ensures PlanFits(WATCHED_BUS, WATCHED_PLAN) && TriAffected.Reruns(WATCHED_BUS.comps, [0, 1], {})
  {
  }

  lemma WatchedIsPlanned()
    ensures CompletePlan(WATCHED_BUS, WATCHED_PLAN)
  {
    hide Sorted;
    WatchedSorts([0, 1]);
    WatchedSorts([0, 1, 2]);
    WatchedReruns();
    assert Complete(WATCHED_BUS, [0, 1], false);
    assert Complete(WATCHED_BUS, [0, 1, 2], true);
  }

  lemma DriverRuns(s: State, i: nat)
    requires Fits(WATCHED_BUS, s) && i < 2
    ensures var t := Run(WATCHED_BUS, s, i, false);
      t.w == s.w && t.c == s.c[i := [if i == 0 then Drive(5, true) else Drive(0, false)]] && t.conflict == s.conflict
  {
    var t := Run(WATCHED_BUS, s, i, false);
    WatchedPins();
    assert WATCHED_BUS.comps[i].outputs == [OutPin(0, true, false)];
    RunFrame(WATCHED_BUS, s, i, false);
    assert t.w[0] == Read(t.w, 0) && t.w[1] == Read(t.w, 1);
    assert t.c[i] == [Eval(WATCHED_BUS, Driver(i, 0), s.w)];
  }

  lemma WatcherRuns(s: State)
    requires Fits(WATCHED_BUS, s)
    ensures var t := Run(WATCHED_BUS, s, 2, false);
      t.w == [s.w[0], s.w[0]] && t.c[0] == s.c[0] && t.c[1] == s.c[1] && t.conflict == s.conflict
  {
    var t := Run(WATCHED_BUS, s, 2, false);
    WatchedIsChecked();
    assert Inputs(WATCHED_BUS.comps[2], s.w) == [s.w[0]];
    assert Eval(WATCHED_BUS, Driver(2, 0), s.w).value == s.w[0];
    RunEffect(WATCHED_BUS, s, Driver(2, 0), false);
    RunFrame(WATCHED_BUS, s, 2, false);
    assert t.w[0] == Read(t.w, 0) && t.w[1] == Read(t.w, 1);
  }

  lemma WatchedResolves(s: State)
    requires Fits(WATCHED_BUS, s) && s.c[0] == [Drive(5, true)] && s.c[1] == [Drive(0, false)]
    ensures var t := Resolve(WATCHED_BUS, s, false); t.w == [5, s.w[1]] && t.conflict == s.conflict
  {
    WatchedPins();
    assert Active(WATCHED_BUS, s.c, Driver(0, 0), 0);
  }

  lemma StageOfThree(k: Circuit, s: State)
    requires Fits(k, s) && |k.comps| == 3
    ensures Stage(k, s, [0, 1, 2], Nodes(3), false, 3) == Run(k, Run(k, Run(k, s, 0, false), 1, false), 2, false)
  {
    hide Run;
    assert Stage(k, s, [0, 1, 2], Nodes(3), false, 0) == s;
    assert Stage(k, s, [0, 1, 2], Nodes(3), false, 1) == Run(k, s, 0, false);
    assert Stage(k, s, [0, 1, 2], Nodes(3), false, 2) == Run(k, Run(k, s, 0, false), 1, false);
  }

  lemma WatchedPhase1(s: State)
    requires Fits(WATCHED_BUS, s)
    ensures var t := Stage(WATCHED_BUS, s, [0, 1, 2], Nodes(3), false, 3);
      t.w == [s.w[0], s.w[0]] && t.c[0] == [Drive(5, true)] && t.c[1] == [Drive(0, false)] && t.conflict == s.conflict
  {
    hide Run, Stage;
    var t := Run(WATCHED_BUS, s, 0, false);
    DriverRuns(s, 0);
    DriverRuns(t, 1);
    WatcherRuns(Run(WATCHED_BUS, t, 1, false));
    StageOfThree(WATCHED_BUS, s);
  }

  /** The clock source keeps showing the word the bus held before the tick. */
  lemma WatchedBusRemembers(s: State)
    requires Fits(WATCHED_BUS, s)
    ensures Checked(WATCHED_BUS) && CompletePlan(WATCHED_BUS, WATCHED_PLAN) && !HasCycle(FlowGraph(WATCHED_BUS))
    ensures Tick(WATCHED_BUS, s, WATCHED_PLAN).1 == Settled && Tick(WATCHED_BUS, s, WATCHED_PLAN).0.w == [5, s.w[0]]
  {
    hide Checked, CompletePlan, HasCycle, Stage, Resolve, Settle;
    WatchedIsChecked();
    WatchedIsPlanned();
    WatchedIsAcyclic();
    var s0 := s.(conflict := false);
    WatchedPhase1(s0);
    WatchedResolves(Stage(WATCHED_BUS, s0, [0, 1, 2], Nodes(3), false, 3));
  }
}
