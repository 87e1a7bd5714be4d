/** Clock sources run once, in phase 1: which of them end the tick with their equation holding, and when a tick forgets
    what the nets held before it. */
module ClockSources {
  import opened Netlist
  import opened Graph
  import opened TopoOrder
  import TriAffected
  import opened TickSpec
  import opened TickTheorems
  import opened Settling

  // ---- Waiting for a bus ----

  /** A tri-state net that is shared, or whose driver is not combinational: phase 2 shows it, so phase 1 reads what it
      held before. */
  ghost predicate Late(k: Circuit, net: int) {
    TriNet(k, net) && (net in k.bus || forall m: nat :: m < |k.comps| && k.comps[m].comb ==> !Drives(k.comps[m], net))
  }

  ghost predicate ReadsLate(k: Circuit, i: nat) {
    i < |k.comps| && exists net :: Reads(k.comps[i], net) && Late(k, net)
  }

  /** A chain of connections of phase 1 that starts at a component reading a late net. */
  ghost predicate LateChain(k: Circuit, p: seq<nat>) {
    Walk(FlowGraph(k), p) && InPhase1(k, p[0]) && ReadsLate(k, p[0])
  }

  /** Component i reads a late net, directly or through other components of phase 1. */
  ghost predicate Waits(k: Circuit, i: nat) {
    exists p :: LateChain(k, p) && p[|p| - 1] == i
  }

  /** The components of phase 1 that wait for no bus. */
  ghost predicate Prompt(k: Circuit, i: nat) {
    InPhase1(k, i) && !Waits(k, i)
  }

  lemma WaitingStarts(k: Circuit, i: nat)
    requires InPhase1(k, i) && ReadsLate(k, i)
    ensures Waits(k, i)
  {
    assert LateChain(k, [i]);
  }

  lemma WaitingSpreads(k: Circuit, m: nat, i: nat)
    requires Waits(k, m) && Edge(FlowGraph(k), m, i) && i < |k.comps|
    ensures Waits(k, i)
  {
    var p :| LateChain(k, p) && p[|p| - 1] == m;
    var q := p + [i];
    forall h | 0 <= h < |q| - 1 ensures Edge(FlowGraph(k), q[h], q[h + 1]) {
      if h < |p| - 1 {
        assert Edge(FlowGraph(k), p[h], p[h + 1]);
      }
    }
    assert LateChain(k, q);
  }

  /** A waiting component reads a late net itself or an output of a waiting component. */
  lemma WaitingReason(k: Circuit, i: nat)
    requires Waits(k, i)
    ensures InPhase1(k, i)
    ensures ReadsLate(k, i) || exists m: nat :: Waits(k, m) && Edge(FlowGraph(k), m, i)
  {
    hide FlowGraph, ReadsLate, InPhase1;
    var p :| LateChain(k, p) && p[|p| - 1] == i;
    if |p| > 1 {
      var q := p[..|p| - 1];
      var m := q[|q| - 1];
      assert Edge(FlowGraph(k), m, i);
      FlowEdge(k, m, i);
      PrefixIsWalk(FlowGraph(k), p, |p| - 1);
      assert LateChain(k, q);
    }
  }

  /** What a prompt component reads is not late, and its drivers in phase 1 are prompt. */
  lemma PromptReads(k: Circuit, i: nat, net: int)
    requires Prompt(k, i) && Reads(k.comps[i], net)
    ensures !Late(k, net)
    ensures forall m: nat :: InPhase1(k, m) && Drives(k.comps[m], net) ==> Prompt(k, m)
  {
    if Late(k, net) {
      WaitingStarts(k, i);
    }
    forall m: nat | InPhase1(k, m) && Drives(k.comps[m], net) ensures Prompt(k, m) {
      assert TriAffected.Flows(k.comps[m], k.comps[i]);
      FlowEdge(k, m, i);
      if Waits(k, m) {
        WaitingSpreads(k, m, i);
      }
    }
  }

  lemma NotLateIsUnshared(k: Circuit, net: int)
    requires Checked(k) && net >= 0 && !Late(k, net)
    ensures net !in k.bus
  {
    if !TriNet(k, net) {
      UnsharedNet(k, net);
    }
  }

  // ---- Prompt components hold from their run in phase 1 to the end of the tick ----

  /** A connected tri-state output of component i that is alone on its net. */
  ghost predicate UnsharedTri(k: Circuit, d: Driver, i: nat) {
    IsOutput(k, d) && d.comp == i && PinOf(k, d).tri && PinOf(k, d).net >= 0 && PinOf(k, d).net !in k.bus
  }

  /** The component is stable, and its unshared tri-state nets show its drives. */
  ghost predicate Holds(k: Circuit, s: State, i: nat)
    requires Fits(k, s) && i < |k.comps|
  {
    && StableComp(k, s, i)
    && (k.comps[i].comb ==> forall d :: UnsharedTri(k, d, i) ==>
          Read(s.w, PinOf(k, d).net) == Shown(PinOf(k, d), s.c[i][d.out]))
  }

  /** No component that waits for no bus reads its own unshared tri-state net, and each settles alone. */
  ghost predicate PromptSettleAlone(k: Circuit) {
    forall i: nat :: Prompt(k, i) ==> SettlesAlone(k, i) && !ReadsOwnTri(k, i)
  }

  ghost predicate ReadsOwnTri(k: Circuit, i: nat) {
    i < |k.comps| && exists d :: UnsharedTri(k, d, i) && Reads(k.comps[i], PinOf(k, d).net)
  }

  lemma AcyclicPromptSettle(k: Circuit)
    requires !HasCycle(FlowGraph(k))
    ensures PromptSettleAlone(k)
  {
    forall i: nat | Prompt(k, i) ensures SettlesAlone(k, i) && !ReadsOwnTri(k, i) {
      if PlainSelfLoop(k, i) {
        AcyclicHasNoSelfLoop(k, i);
      }
      NoSelfLoopSettlesAlone(k, i);
      if ReadsOwnTri(k, i) {
        OwnTriIsCycle(k, i);
      }
    }
  }

  lemma OwnTriIsCycle(k: Circuit, i: nat)
    requires InPhase1(k, i) && ReadsOwnTri(k, i)
    ensures HasCycle(FlowGraph(k))
  {
    var d :| UnsharedTri(k, d, i) && Reads(k.comps[i], PinOf(k, d).net);
    assert k.comps[i].outputs[d.out].net == PinOf(k, d).net && Drives(k.comps[i], PinOf(k, d).net);
    FlowEdge(k, i, i);
    assert Cycle(FlowGraph(k), [i, i]);
  }

  /** Running m leaves component i holding, or makes it so, when what i reads does not move, its own plain nets apart. */
  lemma RunHolds(k: Circuit, s: State, m: nat, i: nat, track: bool)
    requires Fits(k, s) && Checked(k) && m < |k.comps| && i < |k.comps| && (if m == i then SettlesAlone(k, i) else Holds(k, s, i))
    requires forall net :: Reads(k.comps[i], net) && !(m == i && OwnPlain(k, i, net)) ==>
      Read(Run(k, s, m, track).w, net) == Read(s.w, net)
    ensures Holds(k, Run(k, s, m, track), i)
  {
    var t := Run(k, s, m, track);
    RunStepSettles(k, s, m, i, track);
    RunFrame(k, s, m, track);
    forall d | UnsharedTri(k, d, i) && k.comps[i].comb
      ensures Read(t.w, PinOf(k, d).net) == Shown(PinOf(k, d), t.c[i][d.out])
    {
      if m == i {
        RunEffect(k, s, d, track);
      } else if Drives(k.comps[m], PinOf(k, d).net) {
        SoleDriver(k, d, OutputOn(k, m, PinOf(k, d).net), PinOf(k, d).net);
      }
    }
  }

  /** Running a combinational component that holds changes neither words nor drives. */
  lemma RerunHeld(k: Circuit, s: State, m: nat, track: bool)
    requires Fits(k, s) && Checked(k) && m < |k.comps| && k.comps[m].comb && Holds(k, s, m)
    ensures Run(k, s, m, track).w == s.w && Run(k, s, m, track).c == s.c
  {
    var t := Run(k, s, m, track);
    forall o | 0 <= o < |s.c[m]| ensures t.c[m][o] == s.c[m][o] {
      assert IsOutput(k, Driver(m, o)) && PinOf(k, Driver(m, o)) == k.comps[m].outputs[o];
    }
    assert t.c[m] == s.c[m];
    forall net | 0 <= net < |s.w| ensures t.w[net] == s.w[net] {
      if Writes(k, m, net) {
        var d := OutputOn(k, m, net);
        assert k.comps[m].outputs[d.out] == PinOf(k, d) && d == Driver(m, d.out);
      }
    }
  }

  ghost predicate PromptUpTo(k: Circuit, s: State, p: Plan, n: nat)
    requires Fits(k, s)
  {
    forall j :: 0 <= j < n && j < |p.joint| && Prompt(k, p.joint[j]) ==> Holds(k, s, p.joint[j])
  }

  /** In phase 1 nothing that runs later drives what a prompt component reads, nor does the component itself, its own
      plain nets apart. */
  lemma PromptInputsStand(k: Circuit, p: Plan, j: nat, n: nat, net: int)
    requires Checked(k) && CompletePlan(k, p) && j <= n < |p.joint|
    requires Prompt(k, p.joint[j]) && !ReadsOwnTri(k, p.joint[j]) && Reads(k.comps[p.joint[j]], net)
    ensures Drives(k.comps[p.joint[n]], net) ==> j == n && OwnPlain(k, p.joint[j], net)
  {
    var i, m := p.joint[j], p.joint[n];
    CompleteCovers(k, p.joint, true);
    if Drives(k.comps[m], net) {
      PromptReads(k, i, net);
      NotLateIsUnshared(k, net);
      if j == n {
        var d := OutputOn(k, i, net);
        assert PinOf(k, d).tri ==> UnsharedTri(k, d, i);
      } else {
        assert p.joint[n] in p.joint;
        WriterRunsFirst(k, p.joint, true, m, i, net, j);
      }
    }
  }

  lemma PromptStepOne(k: Circuit, s: State, p: Plan, n: nat, j: nat)
    requires Fits(k, s) && Checked(k) && CompletePlan(k, p) && PromptSettleAlone(k)
    requires j <= n < |p.joint| && Prompt(k, p.joint[j]) && (j < n ==> Holds(k, s, p.joint[j]))
    ensures Holds(k, Run(k, s, p.joint[n], false), p.joint[j])
  {
    var i, m := p.joint[j], p.joint[n];
    var t := Run(k, s, m, false);
    CompleteCovers(k, p.joint, true);
    forall net | Reads(k.comps[i], net) && !(m == i && OwnPlain(k, i, net)) ensures Read(t.w, net) == Read(s.w, net) {
      PromptInputsStand(k, p, j, n, net);
      RunFrame(k, s, m, false);
    }
    hide CompletePlan, Run, Prompt, Holds, SettlesAlone;
    RunHolds(k, s, m, i, false);
  }

  lemma PromptStep(k: Circuit, s: State, p: Plan, n: nat)
    requires Fits(k, s) && Checked(k) && CompletePlan(k, p) && PromptSettleAlone(k)
    requires n < |p.joint| && PromptUpTo(k, s, p, n)
    ensures PromptUpTo(k, Run(k, s, p.joint[n], false), p, n + 1)
  {
    hide Checked, Prompt, Holds, Run;
    forall j | 0 <= j < n + 1 && Prompt(k, p.joint[j]) ensures Holds(k, Run(k, s, p.joint[n], false), p.joint[j]) {
      PromptStepOne(k, s, p, n, j);
    }
  }

  ghost predicate PromptHold(k: Circuit, s: State)
    requires Fits(k, s)
  {
    forall i: nat :: Prompt(k, i) ==> Holds(k, s, i)
  }

  lemma PromptPhase1(k: Circuit, s: State, p: Plan)
    requires Fits(k, s) && Checked(k) && CompletePlan(k, p) && PromptSettleAlone(k)
    ensures PromptHold(k, Stage(k, s, p.joint, Nodes(|k.comps|), false, |p.joint|))
  {
    CompleteCovers(k, p.joint, true);
    hide CompletePlan, Prompt, Holds, Run, Checked;
    var all := Nodes(|k.comps|);
    var inv := (t: State, n: nat) => Fits(k, t) && PromptUpTo(k, t, p, n);
    forall t: State, n: nat | Fits(k, t) && n < |p.joint| && inv(t, n) ensures inv(Step(k, t, p.joint, all, false, n), n + 1) {
      PromptStep(k, t, p, n);
    }
    StageInvariant(k, s, p.joint, all, false, |p.joint|, inv);
    PromptInOrder(k, p, Stage(k, s, p.joint, all, false, |p.joint|));
  }

  lemma PromptInOrder(k: Circuit, p: Plan, t: State)
    requires Fits(k, t) && CompletePlan(k, p) && PromptUpTo(k, t, p, |p.joint|)
    ensures PromptHold(k, t)
  {
    CompleteCovers(k, p.joint, true);
    forall i: nat | Prompt(k, i) ensures Holds(k, t, i) {
      assert i in p.joint;
      var j :| 0 <= j < |p.joint| && p.joint[j] == i;
    }
  }

  /** A resolution does not move what a prompt component reads, nor its unshared nets. */
  lemma ResolveHolds(k: Circuit, s: State, i: nat, track: bool)
    requires Fits(k, s) && Checked(k) && PromptHold(k, s) && Prompt(k, i)
    ensures Holds(k, Resolve(k, s, track), i)
  {
    var t := Resolve(k, s, track);
    ResolveFrame(k, s, track);
    forall net | Reads(k.comps[i], net) ensures Read(t.w, net) == Read(s.w, net) {
      PromptReads(k, i, net);
      if TriNet(k, net) {
        var m: nat :| m < |k.comps| && k.comps[m].comb && Drives(k.comps[m], net);
        ResolveKeepsShown(k, s, m, net, track);
      }
    }
    ResolveKeepsStable(k, s, i, track);
    if k.comps[i].comb {
      forall d | UnsharedTri(k, d, i) ensures Read(t.w, PinOf(k, d).net) == Shown(PinOf(k, d), t.c[i][d.out]) {
        assert TriOn(k, d, PinOf(k, d).net);
        SoleBusValue(k, s.c, d, PinOf(k, d).net);
      }
    }
  }

  lemma ResolveKeepsShown(k: Circuit, s: State, m: nat, net: int, track: bool)
    requires Fits(k, s) && Checked(k) && m < |k.comps| && k.comps[m].comb && Holds(k, s, m)
    requires net >= 0 && Drives(k.comps[m], net) && net !in k.bus && TriNet(k, net)
    ensures Read(Resolve(k, s, track).w, net) == Read(s.w, net)
  {
    var d := OutputOn(k, m, net);
    var e :| TriOn(k, e, net);
    if d != e {
      assert On(k, e, net) && On(k, d, net) && PinOf(k, d).tri;
      SoleDriver(k, d, e, net);
    }
    SoleBusValue(k, s.c, d, net);
    assert UnsharedTri(k, d, m);
  }

  lemma RunKeepsPrompt(k: Circuit, s: State, m: nat)
    requires Fits(k, s) && Checked(k) && PromptHold(k, s) && m < |k.comps| && k.comps[m].comb
    ensures PromptHold(k, Run(k, s, m, true))
  {
    var t := Run(k, s, m, true);
    RunFrame(k, s, m, true);
    if Prompt(k, m) {
      RerunHeld(k, s, m, true);
    }
    forall i: nat | Prompt(k, i) ensures Holds(k, t, i) {
      if !Prompt(k, m) {
        forall net | Reads(k.comps[i], net) ensures Read(t.w, net) == Read(s.w, net) {
          PromptReads(k, i, net);
        }
        RunHolds(k, s, m, i, true);
      } else {
        assert Holds(k, s, i);
      }
    }
  }

  lemma SameWordsHold(k: Circuit, s: State, t: State)
    requires Fits(k, s) && Fits(k, t) && s.w == t.w && s.c == t.c && PromptHold(k, s)
    ensures PromptHold(k, t)
  {
    forall i: nat | Prompt(k, i) ensures Holds(k, t, i) {
      assert Holds(k, s, i);
    }
  }

  lemma PromptSettle(k: Circuit, s: State, p: Plan, fuel: nat)
    requires Fits(k, s) && Checked(k) && CompletePlan(k, p) && PromptHold(k, s)
    ensures PromptHold(k, Settle(k, s, p.sorted, p.affected, fuel).0)
  {
    CompleteCovers(k, p.sorted, false);
    hide CompletePlan, PromptHold, Settle, Run, Resolve, Checked;
    var inv := (u: State) => Fits(k, u) && PromptHold(k, u);
    forall u: State, b: bool | Fits(k, u) && inv(u) ensures inv(State(u.w, u.c, b, u.conflict)) {
      SameWordsHold(k, u, State(u.w, u.c, b, u.conflict));
    }
    forall u: State, m: nat | Fits(k, u) && inv(u) && m in p.sorted && m in p.affected && m < |k.comps|
      ensures inv(Run(k, u, m, true))
    {
      RunKeepsPrompt(k, u, m);
    }
    forall u: State | Fits(k, u) && inv(u) ensures inv(Resolve(k, u, true)) {
      ResolveKeepsPrompt(k, u, true);
    }
    SettleInvariant(k, s, p, fuel, inv);
  }

  lemma ResolveKeepsPrompt(k: Circuit, s: State, track: bool)
    requires Fits(k, s) && Checked(k) && PromptHold(k, s)
    ensures PromptHold(k, Resolve(k, s, track))
  {
    forall i: nat | Prompt(k, i) ensures Holds(k, Resolve(k, s, track), i) {
      ResolveHolds(k, s, i, track);
    }
  }

  lemma PromptPhases12(k: Circuit, s: State, p: Plan)
    requires Fits(k, s) && Checked(k) && CompletePlan(k, p) && PromptSettleAlone(k)
    ensures PromptHold(k, Phases12(k, s, p))
  {
    hide Checked, CompletePlan, Stage, Resolve, PromptHold, PromptSettleAlone, Fits;
    PlanIsFit(k, p);
    PromptPhase1(k, s, p);
    ResolveKeepsPrompt(k, Stage(k, s, p.joint, Nodes(|k.comps|), false, |p.joint|), false);
  }

  lemma PromptTick(k: Circuit, s: State, p: Plan)
    requires Fits(k, s) && Checked(k) && CompletePlan(k, p) && PromptSettleAlone(k)
    ensures PromptHold(k, Tick(k, s, p).0)
  {
    var s0 := s.(conflict := false);
    assert Fits(k, s0);
    hide Checked, CompletePlan, Phases12, Settle, Tick, PromptHold, PromptSettleAlone, Fits, PlanFits;
    PlanIsFit(k, p);
    PromptPhases12(k, s0, p);
    PromptSettle(k, Phases12(k, s0, p), p, |k.comps| + 1);
    TickEnds(k, s, p);
  }

  /** Main result: every clock source that waits for no bus ends the tick with its equation holding on the words at the
      end, whatever the outcome of the tick and whatever feedback there is elsewhere; so does all logic that waits for
      none. */
  lemma PromptEquationsHold(k: Circuit, s: State, p: Plan, i: nat)
    requires Fits(k, s) && Checked(k) && CompletePlan(k, p) && PromptSettleAlone(k)
    requires InPhase1(k, i) && !Waits(k, i)
    ensures StableComp(k, Tick(k, s, p).0, i)
  {
    PromptTick(k, s, p);
    hide Checked, CompletePlan, Tick, Waits, PromptSettleAlone, StableComp;
    assert Prompt(k, i) && Holds(k, Tick(k, s, p).0, i);
  }

  // ---- What the nets held before does not matter ----

  ghost predicate Connected(k: Circuit, i: nat) {
    exists d :: IsOutput(k, d) && d.comp == i && PinOf(k, d).net >= 0
  }

  /** No clock source that drives a net waits for a bus. */
  ghost predicate ClocksPrompt(k: Circuit) {
    forall i: nat :: i < |k.comps| && k.comps[i].clock && Connected(k, i) ==> !Waits(k, i)
  }

  /** The equations of all connected clock sources hold. */
  ghost predicate ClocksHold(k: Circuit, s: State)
    requires Fits(k, s)
  {
    forall i: nat :: i < |k.comps| && k.comps[i].clock && Connected(k, i) ==> StableComp(k, s, i)
  }

  /** Combinational components and connected clock sources: what decides the nets that phase 1 drives. */
  ghost function Decided(k: Circuit): (only: set<nat>)
    ensures only <= Phase1Set(k)
    ensures forall i: nat :: i in only <==> InPhase1(k, i) && (k.comps[i].comb || Connected(k, i))
  {
    set i | i in Phase1Set(k) && (k.comps[i].comb || Connected(k, i))
  }

  lemma SettledSolves(k: Circuit, s: State, p: Plan)
    requires Fits(k, s) && Checked(k) && CompletePlan(k, p) && !HasCycle(FlowGraph(k))
    requires Tick(k, s, p).1 == Settled && ClocksHold(k, Tick(k, s, p).0)
    ensures Solves(k, Decided(k), Tick(k, s, p).0)
  {
    AcyclicNeverOscillates(k, s, p);
    hide Checked, CompletePlan, Tick, HasCycle, StableComp, AllResolved;
  }

  lemma SurroundingsCompose(k: Circuit, s: State, t: State, u: State, v: State)
    requires Fits(k, s) && Fits(k, t) && Fits(k, u) && Fits(k, v)
    requires SameSurroundings(k, Phase1Set(k), s, t)
    requires SameSurroundings(k, Phase1Set(k), s, u) && SameSurroundings(k, Phase1Set(k), t, v)
    ensures SameSurroundings(k, Phase1Set(k), u, v)
  {
  }

  /** Clock sources without a connected output decide no net. */
  lemma OnlyDecidedMatter(k: Circuit, u: State, v: State)
    requires Fits(k, u) && Fits(k, v) && SameSurroundings(k, Phase1Set(k), u, v)
    ensures SameSurroundings(k, Decided(k), u, v)
  {
    forall d | IsOutput(k, d) && d.comp !in Decided(k) && PinOf(k, d).tri && PinOf(k, d).net >= 0
      ensures u.c[d.comp][d.out] == v.c[d.comp][d.out]
    {
      assert Connected(k, d.comp);
    }
    forall net | FreeNet(k, Decided(k), net) ensures Read(u.w, net) == Read(v.w, net) {
      if net >= 0 {
        DecidedDrivers(k, net);
      }
    }
  }

  lemma DriverIsConnected(k: Circuit, i: nat, net: int)
    requires i < |k.comps| && net >= 0
    ensures Drives(k.comps[i], net) ==> Connected(k, i)
  {
    if Drives(k.comps[i], net) {
      assert PinOf(k, OutputOn(k, i, net)).net == net;
    }
  }

  lemma DecidedDrivers(k: Circuit, net: int)
    requires net >= 0 && FreeNet(k, Decided(k), net)
    ensures FreeNet(k, Phase1Set(k), net)
  {
    forall i: nat | i in Phase1Set(k) ensures !Drives(k.comps[i], net) {
      DriverIsConnected(k, i, net);
    }
  }

  /** Settled ticks that leave the connected clock sources' equations holding end with the same words. */
  lemma HeldClocksForget(k: Circuit, s: State, t: State, p: Plan)
    requires Fits(k, s) && Fits(k, t) && Checked(k) && CompletePlan(k, p) && !HasCycle(FlowGraph(k))
    requires SameSurroundings(k, Phase1Set(k), s, t)
    requires Tick(k, s, p).1 == Settled && ClocksHold(k, Tick(k, s, p).0)
    requires Tick(k, t, p).1 == Settled && ClocksHold(k, Tick(k, t, p).0)
    ensures Tick(k, s, p).0.w == Tick(k, t, p).0.w
  {
    var u, v := Tick(k, s, p).0, Tick(k, t, p).0;
    hide Checked, CompletePlan, Tick, HasCycle, Solves, SameSurroundings, ClocksHold;
    PlanIsFit(k, p);
    SettledSolves(k, s, p);
    SettledSolves(k, t, p);
    TickKeepsSurroundings(k, s, p);
    TickKeepsSurroundings(k, t, p);
    SurroundingsCompose(k, s, t, u, v);
    OnlyDecidedMatter(k, u, v);
    SolutionIsUnique(k, Decided(k), u, v);
  }

  lemma PromptClocksHold(k: Circuit, s: State, p: Plan)
    requires Fits(k, s) && Checked(k) && CompletePlan(k, p) && !HasCycle(FlowGraph(k)) && ClocksPrompt(k)
    ensures ClocksHold(k, Tick(k, s, p).0)
  {
    PlanIsFit(k, p);
    AcyclicPromptSettle(k);
    hide Checked, CompletePlan, Tick, HasCycle, StableComp, Waits, PromptSettleAlone;
    forall i: nat | i < |k.comps| && k.comps[i].clock && Connected(k, i) ensures StableComp(k, Tick(k, s, p).0, i) {
      PromptEquationsHold(k, s, p, i);
    }
  }

  /** Main result: when no connected clock source waits for a bus, two ticks from arbitrary earlier words and drives, in
      the same surroundings, end with the same words. */
  lemma TickForgetsThePast(k: Circuit, s: State, t: State, p: Plan)
    requires Fits(k, s) && Fits(k, t) && Checked(k) && CompletePlan(k, p) && !HasCycle(FlowGraph(k))
    requires ClocksPrompt(k) && SameSurroundings(k, Phase1Set(k), s, t)
    requires Tick(k, s, p).1 == Settled && Tick(k, t, p).1 == Settled
    ensures Tick(k, s, p).0.w == Tick(k, t, p).0.w
  {
    PromptClocksHold(k, s, p);
    PromptClocksHold(k, t, p);
    hide Checked, CompletePlan, Tick, HasCycle, SameSurroundings, ClocksPrompt, ClocksHold;
    HeldClocksForget(k, s, t, p);
  }
}
