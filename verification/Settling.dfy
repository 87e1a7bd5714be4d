/** On an acyclic data flow the tick settles within the round limit, at the one solution of the equations. */
module Settling {
  import opened Netlist
  import opened Graph
  import opened TopoOrder
  import TriAffected
  import opened TickSpec
  import opened TickTheorems

  // ---- The data-flow graph: every driver of every net counts ----

  ghost predicate InPhase1(k: Circuit, i: nat) {
    i < |k.comps| && (k.comps[i].comb || k.comps[i].clock)
  }

  ghost function Successors(k: Circuit, i: nat, n: nat): (s: seq<nat>)
    requires i < |k.comps| && n <= |k.comps|
    ensures forall p :: 0 <= p < |s| ==> s[p] < n
    ensures forall j: nat :: j in s <==> j < n && InPhase1(k, j) && TriAffected.Flows(k.comps[i], k.comps[j])
  {
    if n == 0 then []
    else
      var s := Successors(k, i, n - 1);
      if InPhase1(k, n - 1) && TriAffected.Flows(k.comps[i], k.comps[n - 1]) then s + [n - 1] else s
  }

  ghost function SuccessorsInPhase1(k: Circuit, i: nat): (s: seq<nat>)
    requires i < |k.comps|
    ensures forall p :: 0 <= p < |s| ==> s[p] < |k.comps|
  {
    if InPhase1(k, i) then Successors(k, i, |k.comps|) else []
  }

  ghost function FlowGraph(k: Circuit): (adj: seq<seq<nat>>)
    ensures WellFormed(adj) && |adj| == |k.comps|
  {
    seq(|k.comps|, i requires 0 <= i < |k.comps| => SuccessorsInPhase1(k, i))
  }

  lemma FlowEdge(k: Circuit, i: nat, j: nat)
    requires i < |k.comps| && j < |k.comps|
    ensures Edge(FlowGraph(k), i, j) <==> InPhase1(k, i) && InPhase1(k, j) && TriAffected.Flows(k.comps[i], k.comps[j])
  {
  }

  /** Whatever nodes are sorted, leftovers prove a data-flow cycle. */
  lemma LeftoversMeanCycle(k: Circuit, nodes: seq<nat>, order: seq<nat>, leftovers: seq<nat>)
    requires NodesOf(k.comps, nodes) && forall i :: i in nodes ==> InPhase1(k, i)
    requires Sorted(k.comps, nodes, order, leftovers) && leftovers != []
    ensures HasCycle(FlowGraph(k))
  {
    var stuck := set i | i in leftovers;
    forall j | j in stuck ensures HasPredecessorIn(FlowGraph(k), stuck, j) {
      assert FedFrom(k.comps, nodes, leftovers, j);
      var i: nat :| i in leftovers && Feeds(k.comps, nodes, i, j);
      var a, b :| 0 <= a < |nodes| && 0 <= b < |nodes| && nodes[a] == i && nodes[b] == j && DataEdge(k.comps, nodes, a, b);
      assert TriAffected.Flows(k.comps[i], k.comps[j]);
      FlowEdge(k, i, j);
      assert i in stuck;
    }
    assert leftovers[0] in stuck;
    PredecessorClosedHasCycle(FlowGraph(k), stuck);
  }

  /** A feedback through a component's own plain output is a cycle too. */
  lemma AcyclicHasNoSelfLoop(k: Circuit, i: nat)
    requires i < |k.comps| && InPhase1(k, i) && PlainSelfLoop(k, i)
    ensures HasCycle(FlowGraph(k))
  {
    var d, net :| IsOutput(k, d) && d.comp == i && PinOf(k, d).net == net && !PinOf(k, d).tri && Reads(k.comps[i], net);
    assert k.comps[i].outputs[d.out].net == net && Drives(k.comps[i], net);
    FlowEdge(k, i, i);
    assert Cycle(FlowGraph(k), [i, i]);
  }

  lemma AcyclicHasNoFeedback(k: Circuit)
    requires !HasCycle(FlowGraph(k))
    ensures NoPlainFeedback(k) && AllSettleAlone(k)
  {
    forall i: nat | i < |k.comps| && k.comps[i].comb ensures !PlainSelfLoop(k, i) {
      if PlainSelfLoop(k, i) {
        AcyclicHasNoSelfLoop(k, i);
      }
    }
    NoFeedbackSettlesAlone(k);
  }

  // ---- Rounds make progress by rank ----

  ghost predicate Below(k: Circuit, rank: seq<nat>, level: nat, i: nat)
    requires |rank| == |k.comps|
  {
    i < |k.comps| && rank[i] < level
  }

  /** No re-run component of rank level or more drives the net. */
  ghost predicate Low(k: Circuit, p: Plan, rank: seq<nat>, level: nat, net: int)
    requires |rank| == |k.comps|
  {
    forall i: nat :: i in p.affected && i < |k.comps| && Drives(k.comps[i], net) ==> rank[i] < level
  }

  /** Every re-run component of rank below the level is stable. */
  ghost predicate Fixed(k: Circuit, s: State, p: Plan, rank: seq<nat>, level: nat)
    requires Fits(k, s) && |rank| == |k.comps|
  {
    forall i: nat :: i in p.affected && Below(k, rank, level, i) ==> StableComp(k, s, i)
  }

  lemma InputsAreLow(k: Circuit, p: Plan, rank: seq<nat>, level: nat, i: nat, net: int)
    requires CompletePlan(k, p) && Ranking(FlowGraph(k), rank)
    requires i in p.affected && i < |k.comps| && rank[i] <= level && Reads(k.comps[i], net)
    ensures Low(k, p, rank, level, net)
  {
    CompleteCovers(k, p.sorted, false);
    forall m: nat | m in p.affected && m < |k.comps| && Drives(k.comps[m], net) ensures rank[m] < level {
      assert TriAffected.Flows(k.comps[m], k.comps[i]);
      FlowEdge(k, m, i);
    }
  }

  /** What holds after the first n entries of a round's stage. */
  ghost predicate MidRound(k: Circuit, s: State, t: State, p: Plan, rank: seq<nat>, level: nat)
    requires Fits(k, s) && Fits(k, t) && |rank| == |k.comps|
  {
    && (forall net: int :: Low(k, p, rank, level, net) ==> Read(t.w, net) == Read(s.w, net))
    && (forall i: nat :: i < |k.comps| && (i in p.affected ==> rank[i] < level) ==> t.c[i] == s.c[i])
  }

  /** Re-running a component that was stable, reading the words it was stable with, changes nothing. */
  lemma RerunIsIdle(k: Circuit, s: State, t: State, m: nat)
    requires Fits(k, s) && Fits(k, t) && Checked(k) && m < |k.comps| && k.comps[m].comb
    requires StableComp(k, s, m) && AllResolved(k, s) && t.c[m] == s.c[m]
    requires forall net :: Reads(k.comps[m], net) || Writes(k, m, net) ==> Read(t.w, net) == Read(s.w, net)
    ensures Run(k, t, m, true) == t
  {
    var u := Run(k, t, m, true);
    SameInputs(k, m, t.w, s.w);
    forall o | 0 <= o < |t.c[m]| ensures u.c[m][o] == t.c[m][o] {
      assert Eval(k, Driver(m, o), t.w) == Eval(k, Driver(m, o), s.w);
    }
    assert u.c[m] == t.c[m];
    assert u.c == t.c;
    forall net | 0 <= net < |t.w| ensures u.w[net] == t.w[net] {
      if Writes(k, m, net) {
        var d := OutputOn(k, m, net);
        assert Eval(k, d, t.w) == Eval(k, d, s.w);
        if PinOf(k, d).tri {
          assert TriOn(k, d, net) && Resolved(k, s, net);
          SoleBusValue(k, s.c, d, net);
        }
      }
    }
    assert u.w == t.w;
    assert !Moved(k, t.w, u.w);
  }

  lemma WrittenIsPrivate(k: Circuit, p: Plan, rank: seq<nat>, level: nat, m: nat, net: int)
    requires Checked(k) && |rank| == |k.comps| && m < |k.comps| && Writes(k, m, net) && rank[m] < level
    ensures Low(k, p, rank, level, net)
  {
    forall i: nat | i in p.affected && i < |k.comps| && Drives(k.comps[i], net) ensures rank[i] < level {
      SoleDriver(k, OutputOn(k, i, net), OutputOn(k, m, net), net);
    }
  }

  lemma RoundStep(k: Circuit, s: State, t: State, p: Plan, rank: seq<nat>, level: nat, m: nat)
    requires Fits(k, s) && Fits(k, t) && Checked(k) && CompletePlan(k, p) && Ranking(FlowGraph(k), rank)
    requires AllResolved(k, s) && Fixed(k, s, p, rank, level) && MidRound(k, s, t, p, rank, level)
    requires m in p.affected && m < |k.comps|
    ensures MidRound(k, s, Run(k, t, m, true), p, rank, level)
    ensures rank[m] < level ==> Run(k, t, m, true) == t
  {
    CompleteCovers(k, p.sorted, false);
    RunFrame(k, t, m, true);
    if rank[m] < level {
      forall net | Reads(k.comps[m], net) || Writes(k, m, net) ensures Read(t.w, net) == Read(s.w, net) {
        if Reads(k.comps[m], net) {
          InputsAreLow(k, p, rank, level, m, net);
        } else {
          WrittenIsPrivate(k, p, rank, level, m, net);
        }
      }
      RerunIsIdle(k, s, t, m);
    }
  }

  lemma RoundStage(k: Circuit, s: State, p: Plan, rank: seq<nat>, level: nat, n: nat)
    requires Fits(k, s) && Checked(k) && CompletePlan(k, p) && Ranking(FlowGraph(k), rank)
    requires AllResolved(k, s) && Fixed(k, s, p, rank, level) && n <= |p.sorted|
    ensures MidRound(k, s, Stage(k, s, p.sorted, p.affected, true, n), p, rank, level)
    ensures StableUpTo(k, Stage(k, s, p.sorted, p.affected, true, n), p, rank, level, n)
    ensures level >= |k.comps| && !s.changed ==> !Stage(k, s, p.sorted, p.affected, true, n).changed
  {
    var inv := (t: State, m: nat) => Fits(k, t) && MidRound(k, s, t, p, rank, level) &&
      StableUpTo(k, t, p, rank, level, m) && (level >= |k.comps| && !s.changed ==> !t.changed);
    forall t: State, m: nat | Fits(k, t) && m < |p.sorted| && inv(t, m)
      ensures inv(Step(k, t, p.sorted, p.affected, true, m), m + 1)
    {
      if p.sorted[m] in p.affected {
        RoundStageStep(k, s, t, p, rank, level, m);
      }
    }
    assert MidRound(k, s, s, p, rank, level) && StableUpTo(k, s, p, rank, level, 0);
    StageInvariant(k, s, p.sorted, p.affected, true, n, inv);
  }

  /** The re-run components among the first n entries of rank at most the level are stable. */
  ghost predicate StableUpTo(k: Circuit, t: State, p: Plan, rank: seq<nat>, level: nat, n: nat)
    requires Fits(k, t) && |rank| == |k.comps|
  {
    forall j :: 0 <= j < n && j < |p.sorted| && p.sorted[j] in p.affected && Below(k, rank, level + 1, p.sorted[j]) ==>
      StableComp(k, t, p.sorted[j])
  }

  lemma RankIsBelow(k: Circuit, rank: seq<nat>, m: nat)
    requires Ranking(FlowGraph(k), rank) && m < |k.comps|
    ensures |rank| == |k.comps| && rank[m] < |k.comps|
  {
  }

  lemma RoundStageStep(k: Circuit, s: State, t: State, p: Plan, rank: seq<nat>, level: nat, n: nat)
    requires Fits(k, s) && Fits(k, t) && Checked(k) && CompletePlan(k, p) && Ranking(FlowGraph(k), rank)
    requires AllResolved(k, s) && Fixed(k, s, p, rank, level) && MidRound(k, s, t, p, rank, level)
    requires n < |p.sorted| && p.sorted[n] in p.affected && StableUpTo(k, t, p, rank, level, n)
    ensures MidRound(k, s, Run(k, t, p.sorted[n], true), p, rank, level)
    ensures StableUpTo(k, Run(k, t, p.sorted[n], true), p, rank, level, n + 1)
    ensures level >= |k.comps| ==> Run(k, t, p.sorted[n], true) == t
  {
    hide Checked, CompletePlan, Ranking, MidRound, Fixed, AllResolved, Run, StableComp, FlowGraph, Fits;
    PlanIsSound(k, p);
    var m := p.sorted[n];
    RoundStep(k, s, t, p, rank, level, m);
    RankIsBelow(k, rank, m);
    forall j | 0 <= j < n + 1 && p.sorted[j] in p.affected && Below(k, rank, level + 1, p.sorted[j])
      ensures StableComp(k, Run(k, t, m, true), p.sorted[j])
    {
      RoundStepStable(k, s, t, p, rank, level, m, p.sorted[j]);
    }
  }

  lemma RoundStepStable(k: Circuit, s: State, t: State, p: Plan, rank: seq<nat>, level: nat, m: nat, i: nat)
    requires Fits(k, s) && Fits(k, t) && Checked(k) && CompletePlan(k, p) && Ranking(FlowGraph(k), rank)
    requires m in p.affected && m < |k.comps| && i in p.affected && i < |k.comps| && rank[i] <= level
    requires MidRound(k, s, t, p, rank, level) && MidRound(k, s, Run(k, t, m, true), p, rank, level)
    requires i != m ==> StableComp(k, t, i)
    ensures StableComp(k, Run(k, t, m, true), i)
  {
    forall net | Reads(k.comps[i], net) ensures Read(Run(k, t, m, true).w, net) == Read(t.w, net) {
      InputsAreLow(k, p, rank, level, i, net);
    }
    RunStepStable(k, t, m, i, true);
  }

  /** A resolution after the stage leaves the low nets alone. */
  lemma ResolveKeepsLow(k: Circuit, s: State, t: State, p: Plan, rank: seq<nat>, level: nat, net: int)
    requires Fits(k, s) && Fits(k, t) && CompletePlan(k, p) && AllResolved(k, s) && |rank| == |k.comps|
    requires MidRound(k, s, t, p, rank, level) && Low(k, p, rank, level, net)
    ensures Read(Resolve(k, t, true).w, net) == Read(s.w, net)
  {
    if 0 <= net < k.nets && TriNet(k, net) {
      assert Resolved(k, s, net);
      forall d | TriOn(k, d, net) && d.comp < |s.c| ensures s.c[d.comp] == t.c[d.comp] {
        assert Drives(k.comps[d.comp], net);
      }
      BusValueSame(k, s.c, t.c, net);
    }
  }

  /** Each round fixes one more rank. */
  lemma RoundFixesNext(k: Circuit, s: State, p: Plan, rank: seq<nat>, level: nat)
    requires Fits(k, s) && Checked(k) && CompletePlan(k, p) && Ranking(FlowGraph(k), rank)
    requires RoundReady(k, s, p) && Fixed(k, s, p, rank, level)
    requires !Round(k, s, p.sorted, p.affected).conflict
    ensures Fixed(k, Round(k, s, p.sorted, p.affected), p, rank, level + 1)
    ensures level >= |k.comps| ==> !Round(k, s, p.sorted, p.affected).changed
  {
    var s0 := s.(changed := false);
    RoundStart(k, s, p);
    assert Fixed(k, s0, p, rank, level) by {
      forall i: nat | i in p.affected && Below(k, rank, level, i) ensures StableComp(k, s0, i) {
        assert StableComp(k, s, i);
      }
    }
    RoundStage(k, s0, p, rank, level, |p.sorted|);
    var t := Stage(k, s0, p.sorted, p.affected, true, |p.sorted|);
    var u := Resolve(k, t, true);
    forall i: nat | i in p.affected && Below(k, rank, level + 1, i) ensures StableComp(k, u, i) {
      FixedAfterResolve(k, s0, t, p, rank, level, i);
    }
    if level >= |k.comps| {
      forall net | 0 <= net < |t.w| ensures u.w[net] == t.w[net] {
        assert Low(k, p, rank, level, net);
        ResolveKeepsLow(k, s0, t, p, rank, level, net);
      }
    }
  }

  lemma FixedAfterResolve(k: Circuit, s: State, t: State, p: Plan, rank: seq<nat>, level: nat, i: nat)
    requires Fits(k, s) && Checked(k) && CompletePlan(k, p) && Ranking(FlowGraph(k), rank) && AllResolved(k, s)
    requires t == Stage(k, s, p.sorted, p.affected, true, |p.sorted|) && MidRound(k, s, t, p, rank, level)
    requires StableUpTo(k, t, p, rank, level, |p.sorted|)
    requires i in p.affected && Below(k, rank, level + 1, i)
    ensures StableComp(k, Resolve(k, t, true), i)
  {
    CompleteCovers(k, p.sorted, false);
    assert i in p.sorted;
    var j :| 0 <= j < |p.sorted| && p.sorted[j] == i;
    forall net | Reads(k.comps[i], net) ensures Read(Resolve(k, t, true).w, net) == Read(t.w, net) {
      InputsAreLow(k, p, rank, level, i, net);
      ResolveKeepsLow(k, s, t, p, rank, level, net);
    }
    ResolveKeepsStable(k, t, i, true);
  }

  lemma {:induction false} RoundsSuffice(k: Circuit, s: State, p: Plan, rank: seq<nat>, level: nat, fuel: nat)
    requires Fits(k, s) && Checked(k) && CompletePlan(k, p) && Ranking(FlowGraph(k), rank)
    requires RoundReady(k, s, p) && Fixed(k, s, p, rank, level) && level + fuel > |k.comps|
    requires level <= |k.comps|
    ensures ConflictOrSettled(Settle(k, s, p.sorted, p.affected, fuel))
    decreases fuel
  {
    hide Checked, Ranking, RoundReady, Fixed, Round;
    var t := Round(k, s, p.sorted, p.affected);
    if t.conflict {
      SettleKeepsConflict(k, t, p, fuel - 1);
    } else {
      RoundProgress(k, s, p, rank, level);
      if t.changed {
        RoundsSuffice(k, t, p, rank, level + 1, fuel - 1);
      }
    }
  }

  lemma RoundProgress(k: Circuit, s: State, p: Plan, rank: seq<nat>, level: nat)
    requires Fits(k, s) && Checked(k) && CompletePlan(k, p) && Ranking(FlowGraph(k), rank)
    requires RoundReady(k, s, p) && Fixed(k, s, p, rank, level)
    requires !Round(k, s, p.sorted, p.affected).conflict
    ensures RoundReady(k, Round(k, s, p.sorted, p.affected), p)
    ensures Fixed(k, Round(k, s, p.sorted, p.affected), p, rank, level + 1)
    ensures level >= |k.comps| ==> !Round(k, s, p.sorted, p.affected).changed
  {
    RoundFixesNext(k, s, p, rank, level);
    RoundKeepsReady(k, s, p);
  }

  ghost predicate ConflictOrSettled(r: (State, bool)) {
    r.0.conflict || r.1
  }

  lemma SettlesInTime(k: Circuit, t: State, p: Plan)
    requires Fits(k, t) && Checked(k) && CompletePlan(k, p) && !HasCycle(FlowGraph(k)) && RoundReady(k, t, p)
    ensures ConflictOrSettled(Settle(k, t, p.sorted, p.affected, |k.comps| + 1))
  {
    var rank := AcyclicHasRanking(FlowGraph(k));
    RoundsSuffice(k, t, p, rank, 0, |k.comps| + 1);
  }

  /** Main result: on an acyclic data flow the round limit of phase 2b is never the reason a tick fails. A tick
      either reports a bus conflict or ends with every equation and every bus resolution holding. */
  lemma AcyclicNeverOscillates(k: Circuit, s: State, p: Plan)
    requires Fits(k, s) && Checked(k) && CompletePlan(k, p) && !HasCycle(FlowGraph(k))
    ensures Tick(k, s, p).1 != BusOscillation
    ensures Tick(k, s, p).1 == Settled ==> Stable(k, Tick(k, s, p).0)
  {
    AcyclicHasNoFeedback(k);
    var t := Phases12(k, s.(conflict := false), p);
    if !t.conflict {
      Phases12Quiet(k, s.(conflict := false), p);
      SettlesInTime(k, t, p);
    }
    if Tick(k, s, p).1 == Settled {
      TickSolves(k, s, p);
    }
  }

  // ---- The solution is unique ----

  /** The components of phase 1: combinational logic and clock sources. */
  ghost function Phase1Set(k: Circuit): (only: set<nat>)
    ensures forall i: nat :: i in only <==> InPhase1(k, i)
  {
    set i | i in Nodes(|k.comps|) && InPhase1(k, i)
  }

  /** The net's word is not decided by the given components: none of them drives it, nor any tri-state driver. */
  ghost predicate FreeNet(k: Circuit, only: set<nat>, net: int) {
    !TriNet(k, net) && forall i: nat :: i < |k.comps| && i in only ==> !Drives(k.comps[i], net)
  }

  /** Both states see the same world outside the given components. */
  ghost predicate SameSurroundings(k: Circuit, only: set<nat>, s: State, t: State)
    requires Fits(k, s) && Fits(k, t)
  {
    && (forall net :: FreeNet(k, only, net) ==> Read(s.w, net) == Read(t.w, net))
    && (forall d :: IsOutput(k, d) && d.comp !in only && PinOf(k, d).tri && PinOf(k, d).net >= 0 ==>
          s.c[d.comp][d.out] == t.c[d.comp][d.out])
  }

  /** The equations of the given components and all bus resolutions hold. */
  ghost predicate Solves(k: Circuit, only: set<nat>, s: State)
    requires Fits(k, s)
  {
    AllResolved(k, s) && forall i: nat :: i < |k.comps| && i in only ==> StableComp(k, s, i)
  }

  ghost predicate AgreeBelow(k: Circuit, only: set<nat>, s: State, t: State, rank: seq<nat>, level: nat)
    requires Fits(k, s) && Fits(k, t) && |rank| == |k.comps|
  {
    forall d :: IsOutput(k, d) && d.comp in only && rank[d.comp] < level ==>
      if PinOf(k, d).tri then s.c[d.comp][d.out] == t.c[d.comp][d.out]
      else PinOf(k, d).net >= 0 ==> Read(s.w, PinOf(k, d).net) == Read(t.w, PinOf(k, d).net)
  }

  /** Nets all of whose decided drivers agree hold the same word in both states. */
  lemma NetAgrees(k: Circuit, only: set<nat>, s: State, t: State, rank: seq<nat>, level: nat, net: int)
    requires Fits(k, s) && Fits(k, t) && Checked(k) && |rank| == |k.comps| && AgreeBelow(k, only, s, t, rank, level)
    requires SameSurroundings(k, only, s, t) && AllResolved(k, s) && AllResolved(k, t) && 0 <= net < k.nets
    requires forall i: nat :: i < |k.comps| && i in only && Drives(k.comps[i], net) ==> rank[i] < level
    ensures Read(s.w, net) == Read(t.w, net)
  {
    if TriNet(k, net) {
      assert Resolved(k, s, net) && Resolved(k, t, net);
      forall d | TriOn(k, d, net) ensures s.c[d.comp][d.out] == t.c[d.comp][d.out] {
        assert Drives(k.comps[d.comp], net);
      }
      SameResolution(k, s.c, t.c, net);
    } else if !FreeNet(k, only, net) {
      var i: nat :| i < |k.comps| && i in only && Drives(k.comps[i], net);
      TriPinMakesTriNet(k, OutputOn(k, i, net), net);
    }
  }

  lemma SameResolution(k: Circuit, c: seq<seq<Drive>>, e: seq<seq<Drive>>, net: int)
    requires |c| == |e| == |k.comps|
    requires forall i :: 0 <= i < |c| ==> |c[i]| == |e[i]| == |k.comps[i].outputs|
    requires forall d :: TriOn(k, d, net) ==> c[d.comp][d.out] == e[d.comp][d.out]
    requires !Conflict(k, c, net)
    ensures BusValue(k, c, net) == BusValue(k, e, net)
  {
    assert forall d :: Active(k, c, d, net) <==> Active(k, e, d, net);
  }

  lemma {:induction false} SolutionsAgree(k: Circuit, only: set<nat>, s: State, t: State, rank: seq<nat>, level: nat)
    requires Fits(k, s) && Fits(k, t) && Checked(k) && Ranking(FlowGraph(k), rank) && only <= Phase1Set(k)
    requires Solves(k, only, s) && Solves(k, only, t) && SameSurroundings(k, only, s, t)
    ensures AgreeBelow(k, only, s, t, rank, level)
  {
    if level > 0 {
      SolutionsAgree(k, only, s, t, rank, level - 1);
      forall d | IsOutput(k, d) && d.comp in only && rank[d.comp] < level
        ensures if PinOf(k, d).tri then s.c[d.comp][d.out] == t.c[d.comp][d.out]
                else PinOf(k, d).net >= 0 ==> Read(s.w, PinOf(k, d).net) == Read(t.w, PinOf(k, d).net)
      {
        OutputAgrees(k, only, s, t, rank, level, d);
      }
    }
  }

  lemma OutputAgrees(k: Circuit, only: set<nat>, s: State, t: State, rank: seq<nat>, level: nat, d: Driver)
    requires Fits(k, s) && Fits(k, t) && Checked(k) && Ranking(FlowGraph(k), rank) && level > 0 && only <= Phase1Set(k)
    requires Solves(k, only, s) && Solves(k, only, t) && SameSurroundings(k, only, s, t)
    requires AgreeBelow(k, only, s, t, rank, level - 1) && IsOutput(k, d) && d.comp in only && rank[d.comp] < level
    ensures if PinOf(k, d).tri then s.c[d.comp][d.out] == t.c[d.comp][d.out]
            else PinOf(k, d).net >= 0 ==> Read(s.w, PinOf(k, d).net) == Read(t.w, PinOf(k, d).net)
  {
    var i := d.comp;
    forall net | Reads(k.comps[i], net) ensures Read(s.w, net) == Read(t.w, net) {
      InputAgrees(k, only, s, t, rank, level, i, net);
    }
    SameInputs(k, i, s.w, t.w);
    assert StableComp(k, s, i) && StableComp(k, t, i);
    assert Eval(k, Driver(i, d.out), s.w) == Eval(k, Driver(i, d.out), t.w);
  }

  lemma InputAgrees(k: Circuit, only: set<nat>, s: State, t: State, rank: seq<nat>, level: nat, i: nat, net: int)
    requires Fits(k, s) && Fits(k, t) && Checked(k) && Ranking(FlowGraph(k), rank) && level > 0 && only <= Phase1Set(k)
    requires AllResolved(k, s) && AllResolved(k, t) && SameSurroundings(k, only, s, t)
    requires AgreeBelow(k, only, s, t, rank, level - 1)
    requires i < |k.comps| && i in only && rank[i] < level && Reads(k.comps[i], net)
    ensures Read(s.w, net) == Read(t.w, net)
  {
    forall m: nat | m < |k.comps| && m in only && Drives(k.comps[m], net) ensures rank[m] < level - 1 {
      assert TriAffected.Flows(k.comps[m], k.comps[i]);
      FlowEdge(k, m, i);
    }
    if net < k.nets {
      NetAgrees(k, only, s, t, rank, level - 1, net);
    }
  }

  /** Main result: with an acyclic data flow at most one valuation of the nets satisfies the equations of a set of
      components and the bus resolutions, given what those components do not decide. */
  lemma SolutionIsUnique(k: Circuit, only: set<nat>, s: State, t: State)
    requires Fits(k, s) && Fits(k, t) && Checked(k) && !HasCycle(FlowGraph(k)) && only <= Phase1Set(k)
    requires Solves(k, only, s) && Solves(k, only, t) && SameSurroundings(k, only, s, t)
    ensures s.w == t.w
  {
    var rank := AcyclicHasRanking(FlowGraph(k));
    SolutionsAgree(k, only, s, t, rank, |k.comps|);
    forall net | 0 <= net < k.nets ensures s.w[net] == t.w[net] {
      NetAgrees(k, only, s, t, rank, |k.comps|, net);
    }
  }

  // ---- What a tick leaves alone ----

  /** The property does not depend on the change mark. */
  ghost predicate IgnoresMark(k: Circuit, inv: State -> bool) {
    forall t: State {:trigger inv(t)} :: Fits(k, t) && inv(t) ==> forall b: bool :: inv(State(t.w, t.c, b, t.conflict))
  }

  /** What re-runs and resolutions keep holds after phase 2b. */
  lemma {:induction false} SettleInvariant(k: Circuit, s: State, p: Plan, fuel: nat, inv: State -> bool)
    requires Fits(k, s) && PlanFits(k, p) && inv(s)
    requires IgnoresMark(k, inv)
    requires forall t: State, m: nat {:trigger Run(k, t, m, true)} ::
      Fits(k, t) && inv(t) && m in p.sorted && m in p.affected && m < |k.comps| ==> inv(Run(k, t, m, true))
    requires forall t: State {:trigger Resolve(k, t, true)} :: Fits(k, t) && inv(t) ==> inv(Resolve(k, t, true))
    ensures inv(Settle(k, s, p.sorted, p.affected, fuel).0)
    decreases fuel
  {
    if fuel > 0 {
      var s0 := s.(changed := false);
      assert s0 == State(s.w, s.c, false, s.conflict) && inv(s0);
      hide IgnoresMark;
      var step := (t: State, m: nat) => inv(t);
      forall t: State, m: nat | Fits(k, t) && m < |p.sorted| && step(t, m)
        ensures step(Step(k, t, p.sorted, p.affected, true, m), m + 1)
      {
        assert p.sorted[m] in p.sorted;
      }
      StageInvariant(k, s0, p.sorted, p.affected, true, |p.sorted|, step);
      var t := Stage(k, s0, p.sorted, p.affected, true, |p.sorted|);
      assert inv(Resolve(k, t, true));
      SettleInvariant(k, Round(k, s, p.sorted, p.affected), p, fuel - 1, inv);
    }
  }

  /** A tick ends after phase 2 or after phase 2b. */
  lemma TickEnds(k: Circuit, s: State, p: Plan)
    requires Fits(k, s) && PlanFits(k, p)
    ensures var t := Phases12(k, s.(conflict := false), p);
      Tick(k, s, p).0 == t || Tick(k, s, p).0 == Settle(k, t, p.sorted, p.affected, |k.comps| + 1).0
  {
    hide Phases12, Settle, PlanFits;
  }

  lemma Phases12Is(k: Circuit, s: State, p: Plan)
    requires Fits(k, s) && PlanFits(k, p)
    ensures forall j :: 0 <= j < |p.joint| ==> p.joint[j] < |k.comps|
    ensures Phases12(k, s, p) == Resolve(k, Stage(k, s, p.joint, Nodes(|k.comps|), false, |p.joint|), false)
  {
    hide Resolve, Stage;
  }

  /** Every run and every resolution keeps the property. */
  ghost predicate KeptByAll(k: Circuit, inv: State -> bool) {
    && (forall t: State, m: nat, track: bool {:trigger Run(k, t, m, track)} ::
          Fits(k, t) && inv(t) && m < |k.comps| ==> inv(Run(k, t, m, track)))
    && (forall t: State, track: bool {:trigger Resolve(k, t, track)} :: Fits(k, t) && inv(t) ==> inv(Resolve(k, t, track)))
  }

  lemma Phases12Invariant(k: Circuit, s: State, p: Plan, inv: State -> bool)
    requires Fits(k, s) && PlanFits(k, p) && inv(s) && KeptByAll(k, inv)
    ensures inv(Phases12(k, s, p))
  {
    hide Run, Resolve, Phases12, Fits;
    Phases12Is(k, s, p);
    var step := (t: State, m: nat) => inv(t);
    StageInvariant(k, s, p.joint, Nodes(|k.comps|), false, |p.joint|, step);
  }

  /** What every run and every resolution keeps holds after a tick. */
  lemma TickInvariant(k: Circuit, s: State, p: Plan, inv: State -> bool)
    requires Fits(k, s) && PlanFits(k, p) && inv(s.(conflict := false)) && IgnoresMark(k, inv) && KeptByAll(k, inv)
    ensures inv(Tick(k, s, p).0)
  {
    var s0 := s.(conflict := false);
    assert Fits(k, s0);
    hide IgnoresMark, Tick, Settle, Run, Resolve, Phases12, Fits, PlanFits;
    Phases12Invariant(k, s0, p, inv);
    SettleInvariant(k, Phases12(k, s0, p), p, |k.comps| + 1, inv);
    TickEnds(k, s, p);
  }

  lemma RunKeepsSurroundings(k: Circuit, only: set<nat>, s: State, t: State, m: nat, track: bool)
    requires Fits(k, s) && Fits(k, t) && m < |k.comps| && m in only && SameSurroundings(k, only, s, t)
    ensures SameSurroundings(k, only, s, Run(k, t, m, track))
  {
    RunFrame(k, t, m, track);
  }

  lemma ResolveKeepsSurroundings(k: Circuit, only: set<nat>, s: State, t: State, track: bool)
    requires Fits(k, s) && Fits(k, t) && SameSurroundings(k, only, s, t)
    ensures SameSurroundings(k, only, s, Resolve(k, t, track))
  {
    ResolveFrame(k, t, track);
  }

  lemma Phases12KeepSurroundings(k: Circuit, s: State, t: State, p: Plan)
    requires Fits(k, s) && Fits(k, t) && CompletePlan(k, p) && SameSurroundings(k, Phase1Set(k), s, t)
    ensures SameSurroundings(k, Phase1Set(k), s, Phases12(k, t, p))
  {
    var only := Phase1Set(k);
    CompleteCovers(k, p.joint, true);
    var inv := (u: State, m: nat) => Fits(k, u) && SameSurroundings(k, only, s, u);
    forall u: State, m: nat | Fits(k, u) && m < |p.joint| && inv(u, m)
      ensures inv(Step(k, u, p.joint, Nodes(|k.comps|), false, m), m + 1)
    {
      assert p.joint[m] in p.joint;
      RunKeepsSurroundings(k, only, s, u, p.joint[m], false);
    }
    StageInvariant(k, t, p.joint, Nodes(|k.comps|), false, |p.joint|, inv);
    ResolveKeepsSurroundings(k, only, s, Stage(k, t, p.joint, Nodes(|k.comps|), false, |p.joint|), false);
  }

  lemma SettleKeepsSurroundings(k: Circuit, only: set<nat>, s: State, t: State, p: Plan, fuel: nat)
    requires Fits(k, s) && Fits(k, t) && PlanFits(k, p) && SameSurroundings(k, only, s, t) && p.affected <= only
    ensures SameSurroundings(k, only, s, Settle(k, t, p.sorted, p.affected, fuel).0)
  {
    hide PlanFits, SameSurroundings, Settle;
    var inv := (u: State) => Fits(k, u) && SameSurroundings(k, only, s, u);
    forall u: State, b: bool | Fits(k, u) && inv(u) ensures inv(State(u.w, u.c, b, u.conflict)) {
      SameWords(k, only, s, u, State(u.w, u.c, b, u.conflict));
    }
    forall u: State, m: nat | Fits(k, u) && inv(u) && m in p.sorted && m in p.affected && m < |k.comps|
      ensures inv(Run(k, u, m, true))
    {
      RunKeepsSurroundings(k, only, s, u, m, true);
    }
    forall u: State | Fits(k, u) && inv(u) ensures inv(Resolve(k, u, true)) {
      ResolveKeepsSurroundings(k, only, s, u, true);
    }
    SettleInvariant(k, t, p, fuel, inv);
  }

  lemma SameWords(k: Circuit, only: set<nat>, s: State, t: State, u: State)
    requires Fits(k, s) && Fits(k, t) && Fits(k, u) && u.w == t.w && u.c == t.c
    requires s == t || SameSurroundings(k, only, s, t)
    ensures SameSurroundings(k, only, s, u)
  {
  }

  lemma PlanIsFit(k: Circuit, p: Plan)
    requires CompletePlan(k, p)
    ensures PlanFits(k, p)
    ensures p.affected <= CombSet(k) <= Phase1Set(k)
  {
    CompleteCovers(k, p.sorted, false);
  }

  ghost function CombSet(k: Circuit): (only: set<nat>)
    ensures forall i: nat :: i in only <==> i < |k.comps| && k.comps[i].comb
  {
    set i | i in Nodes(|k.comps|) && k.comps[i].comb
  }

  /** A tick changes nothing outside the components of phase 1 and the tri-state nets. */
  lemma TickKeepsSurroundings(k: Circuit, s: State, p: Plan)
    requires Fits(k, s) && CompletePlan(k, p)
    ensures SameSurroundings(k, Phase1Set(k), s, Tick(k, s, p).0)
  {
    var s0 := s.(conflict := false);
    hide SameSurroundings, CompletePlan, Phases12, Settle, Tick;
    PlanIsFit(k, p);
    SameWords(k, Phase1Set(k), s, s, s0);
    Phases12KeepSurroundings(k, s, s0, p);
    SettleKeepsSurroundings(k, Phase1Set(k), s, Phases12(k, s0, p), p, |k.comps| + 1);
    TickEnds(k, s, p);
  }
}
