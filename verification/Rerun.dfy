/** Phase 2b re-runs only the tri-state closure: re-running every combinational component would give the same tick, with
    the same words, drives and outcome. */
module Rerun {
  import opened Netlist
  import opened Graph
  import opened TopoOrder
  import TriAffected
  import opened TickSpec
  import opened TickTheorems
  import opened TickOutcome
  import opened Settling
  import opened ClockSources

  // ---- Running a component outside the re-run set again changes nothing ----

  /** What makes a further run of the components outside the re-run set idle. */
  ghost predicate Held(k: Circuit, s: State, p: Plan)
    requires Fits(k, s)
  {
    QuietStable(k, s, p) && SinglesShown(k, s)
  }

  lemma QuietHolds(k: Circuit, s: State, p: Plan, i: nat)
    requires Fits(k, s) && Checked(k) && Held(k, s, p) && Quiet(k, p, i)
    ensures Holds(k, s, i)
  {
    assert StableComp(k, s, i);
    forall d | UnsharedTri(k, d, i) ensures Read(s.w, PinOf(k, d).net) == Shown(PinOf(k, d), s.c[i][d.out]) {
      assert TriOn(k, d, PinOf(k, d).net);
      SoleBusValue(k, s.c, d, PinOf(k, d).net);
    }
  }

  lemma QuietRunIsIdle(k: Circuit, s: State, p: Plan, m: nat)
    requires Fits(k, s) && Checked(k) && Held(k, s, p) && Quiet(k, p, m)
    ensures Run(k, s, m, true) == s
  {
    QuietHolds(k, s, p, m);
    RerunHeld(k, s, m, true);
  }

  // ---- A round over all components is a round over the re-run set ----

  lemma RunKeepsHeld(k: Circuit, s: State, p: Plan, m: nat)
    requires Fits(k, s) && Checked(k) && CompletePlan(k, p) && Held(k, s, p)
    requires m in p.affected && m < |k.comps| && k.comps[m].comb
    ensures Held(k, Run(k, s, m, true), p)
  {
    RunKeepsQuiet(k, s, p, m, true);
    RunKeepsSingles(k, s, m, true);
  }

  lemma StepOfAll(k: Circuit, t: State, p: Plan, n: nat)
    requires Fits(k, t) && Checked(k) && CompletePlan(k, p) && Held(k, t, p) && n < |p.sorted|
    ensures p.sorted[n] < |k.comps| && k.comps[p.sorted[n]].comb
    ensures if p.sorted[n] in p.affected then Held(k, Run(k, t, p.sorted[n], true), p) else Run(k, t, p.sorted[n], true) == t
  {
    var m := p.sorted[n];
    CompleteCovers(k, p.sorted, false);
    assert m in p.sorted;
    hide Checked, CompletePlan, Held, Run;
    if m in p.affected {
      RunKeepsHeld(k, t, p, m);
    } else {
      QuietRunIsIdle(k, t, p, m);
    }
  }

  /** The steps of the two stages agree from a held state, and keep it held. */
  lemma SameStep(k: Circuit, t: State, p: Plan, n: nat)
    requires Fits(k, t) && Checked(k) && CompletePlan(k, p) && Held(k, t, p) && n < |p.sorted|
    ensures p.sorted[n] < |k.comps|
    ensures Step(k, t, p.sorted, CombSet(k), true, n) == Step(k, t, p.sorted, p.affected, true, n)
    ensures Held(k, Step(k, t, p.sorted, p.affected, true, n), p)
  {
    hide Checked, CompletePlan, Held, Run;
    StepOfAll(k, t, p, n);
  }

  /** Stages over two sets agree when their steps do, from every state of the invariant. */
  lemma {:induction false} StagesAgree(k: Circuit, s: State, order: seq<nat>, all: set<nat>, some: set<nat>, n: nat,
                                       inv: State -> bool)
    requires Fits(k, s) && n <= |order| && forall j :: 0 <= j < |order| ==> order[j] < |k.comps|
    requires inv(s)
    requires forall t: State, m: nat {:trigger Step(k, t, order, some, true, m)} :: Fits(k, t) && m < |order| && inv(t) ==>
      Step(k, t, order, all, true, m) == Step(k, t, order, some, true, m) && inv(Step(k, t, order, some, true, m))
    ensures Stage(k, s, order, all, true, n) == Stage(k, s, order, some, true, n)
    ensures inv(Stage(k, s, order, some, true, n))
  {
    hide Run;
    if n > 0 {
      StagesAgree(k, s, order, all, some, n - 1, inv);
      var t := Stage(k, s, order, some, true, n - 1);
      assert Step(k, t, order, all, true, n - 1) == Step(k, t, order, some, true, n - 1);
    }
  }

  lemma StageOfAll(k: Circuit, s: State, p: Plan)
    requires Fits(k, s) && Checked(k) && CompletePlan(k, p) && Held(k, s, p)
    ensures forall j :: 0 <= j < |p.sorted| ==> p.sorted[j] < |k.comps|
    ensures Stage(k, s, p.sorted, CombSet(k), true, |p.sorted|) == Stage(k, s, p.sorted, p.affected, true, |p.sorted|)
    ensures Held(k, Stage(k, s, p.sorted, p.affected, true, |p.sorted|), p)
  {
    PlanIsFit(k, p);
    hide Checked, CompletePlan, Held, Step;
    var inv := (t: State) => Fits(k, t) && Held(k, t, p);
    forall t: State, m: nat | Fits(k, t) && m < |p.sorted| && inv(t)
      ensures Step(k, t, p.sorted, CombSet(k), true, m) == Step(k, t, p.sorted, p.affected, true, m)
      ensures inv(Step(k, t, p.sorted, p.affected, true, m))
    {
      SameStep(k, t, p, m);
    }
    StagesAgree(k, s, p.sorted, CombSet(k), p.affected, |p.sorted|, inv);
  }

  lemma ResolveShowsSingles(k: Circuit, s: State, track: bool)
    requires Fits(k, s) && Checked(k)
    ensures SinglesShown(k, Resolve(k, s, track))
  {
    var t := Resolve(k, s, track);
    forall net | 0 <= net < k.nets && TriNet(k, net) && net !in k.bus ensures Read(t.w, net) == BusValue(k, t.c, net) {
      if Conflict(k, s.c, net) {
        ConflictIsShared(k, s.c, net);
        assert false;
      }
    }
  }

  lemma ResolveKeepsHeld(k: Circuit, s: State, p: Plan, track: bool)
    requires Fits(k, s) && Checked(k) && CompletePlan(k, p) && QuietStable(k, s, p)
    ensures Held(k, Resolve(k, s, track), p)
  {
    ResolveKeepsQuiet(k, s, p, track);
    ResolveShowsSingles(k, s, track);
  }

  lemma MarkKeepsHeld(k: Circuit, s: State, p: Plan)
    requires Fits(k, s) && Held(k, s, p)
    ensures Held(k, s.(changed := false), p)
  {
    forall i: nat | Quiet(k, p, i) ensures StableComp(k, s.(changed := false), i) {
      assert StableComp(k, s, i);
    }
  }

  lemma RoundOfAll(k: Circuit, s: State, p: Plan)
    requires Fits(k, s) && Checked(k) && CompletePlan(k, p) && Held(k, s, p)
    ensures PlanFits(k, p)
    ensures Round(k, s, p.sorted, CombSet(k)) == Round(k, s, p.sorted, p.affected)
    ensures Held(k, Round(k, s, p.sorted, p.affected), p)
  {
    PlanIsFit(k, p);
    hide Checked, CompletePlan, QuietStable, SinglesShown, Stage, Resolve;
    MarkKeepsHeld(k, s, p);
    StageOfAll(k, s.(changed := false), p);
    ResolveKeepsHeld(k, Stage(k, s.(changed := false), p.sorted, p.affected, true, |p.sorted|), p, true);
  }

  /** All combinational components are a set that may be re-run. */
  lemma RerunEverything(k: Circuit, p: Plan)
    requires CompletePlan(k, p)
    ensures CompletePlan(k, p.(affected := CombSet(k)))
  {
    CompleteCovers(k, p.sorted, false);
  }

  lemma {:induction false} SettleOfAll(k: Circuit, s: State, p: Plan, fuel: nat)
    requires Fits(k, s) && Checked(k) && CompletePlan(k, p) && Held(k, s, p)
    ensures PlanFits(k, p)
    ensures Settle(k, s, p.sorted, CombSet(k), fuel) == Settle(k, s, p.sorted, p.affected, fuel)
    decreases fuel
  {
    hide Checked, CompletePlan, Held, Round, PlanFits;
    PlanIsFit(k, p);
    var q := p.(affected := CombSet(k));
    RerunEverything(k, p);
    PlanIsFit(k, q);
    SettleUnfolds(k, s, p, fuel);
    SettleUnfolds(k, s, q, fuel);
    hide Settle;
    if fuel > 0 {
      RoundOfAll(k, s, p);
      SettleOfAll(k, Round(k, s, p.sorted, p.affected), p, fuel - 1);
    }
  }

  // ---- When nothing is re-run ----

  lemma {:induction false} StageOfNone(k: Circuit, s: State, order: seq<nat>, n: nat)
    requires Fits(k, s) && n <= |order| && forall j :: 0 <= j < |order| ==> order[j] < |k.comps|
    ensures Stage(k, s, order, {}, true, n) == s
  {
    if n > 0 {
      StageOfNone(k, s, order, n - 1);
    }
  }

  lemma ResolveIsIdle(k: Circuit, s: State)
    requires Fits(k, s) && Checked(k) && AllResolved(k, s)
    ensures Resolve(k, s, true) == s
  {
    forall net | net in k.bus ensures !Conflict(k, s.c, net) {
      var d, e :| d != e && TriOn(k, d, net) && TriOn(k, e, net);
      assert TriNet(k, net) && 0 <= net < k.nets;
      assert Resolved(k, s, net);
    }
    forall net: nat | net < |s.w| ensures NetAfterResolve(k, s, net) == s.w[net] {
      if TriNet(k, net) {
        assert Resolved(k, s, net);
      }
    }
    assert Resolve(k, s, true).w == s.w;
  }

  /** With an empty re-run set the rounds end at once and leave everything as it was. */
  lemma SettleOfNone(k: Circuit, s: State, p: Plan, fuel: nat)
    requires Fits(k, s) && Checked(k) && PlanFits(k, p) && AllResolved(k, s) && p.affected == {} && fuel > 0
    ensures Settle(k, s, p.sorted, p.affected, fuel) == (s.(changed := false), true)
  {
    var s0 := s.(changed := false);
    forall net | 0 <= net < k.nets && TriNet(k, net) ensures Resolved(k, s0, net) {
      assert Resolved(k, s, net);
    }
    StageOfNone(k, s0, p.sorted, |p.sorted|);
    ResolveIsIdle(k, s0);
    hide Stage, Resolve;
    SettleUnfolds(k, s, p, fuel);
  }

  // ---- Whole ticks ----

  /** The ticks agree in everything but the change mark that phase 2b uses for itself. */
  ghost predicate SameTick(k: Circuit, s: State, p: Plan, q: Plan)
    requires Fits(k, s) && PlanFits(k, p) && PlanFits(k, q)
  {
    var (t, outcome) := Tick(k, s, p);
    var (u, other) := Tick(k, s, q);
    outcome == other && t.w == u.w && t.c == u.c && t.conflict == u.conflict
  }

  lemma Phases12Held(k: Circuit, s: State, p: Plan)
    requires Fits(k, s) && Checked(k) && CompletePlan(k, p) && QuietSettleAlone(k, p)
    ensures Held(k, Phases12(k, s, p), p)
    ensures !Phases12(k, s, p).conflict ==> AllResolved(k, Phases12(k, s, p))
  {
    var t := Stage(k, s, p.joint, Nodes(|k.comps|), false, |p.joint|);
    Phases12KeepQuiet(k, s, p);
    ResolveShowsSingles(k, t, false);
    if !Phases12(k, s, p).conflict {
      ResolveResolves(k, t, false);
    }
  }

  lemma SettlesAlike(k: Circuit, t: State, p: Plan, fuel: nat)
    requires Fits(k, t) && Checked(k) && CompletePlan(k, p) && Held(k, t, p) && AllResolved(k, t) && fuel > 0
    ensures PlanFits(k, p)
    ensures Settle(k, t, p.sorted, CombSet(k), fuel) == Settle(k, t, p.sorted, p.affected, fuel)
    ensures p.affected == {} ==> Settle(k, t, p.sorted, p.affected, fuel) == (t.(changed := false), true)
  {
    hide Checked, CompletePlan, Held, AllResolved, Settle;
    PlanIsFit(k, p);
    SettleOfAll(k, t, p, fuel);
    if p.affected == {} {
      SettleOfNone(k, t, p, fuel);
    }
  }

  lemma TicksAlike(k: Circuit, s: State, p: Plan, q: Plan)
    requires Fits(k, s) && PlanFits(k, p) && PlanFits(k, q) && p.joint == q.joint && p.sorted == q.sorted
    requires var t := Phases12(k, s.(conflict := false), p);
      !t.conflict ==>
        && Settle(k, t, p.sorted, q.affected, |k.comps| + 1) == Settle(k, t, p.sorted, p.affected, |k.comps| + 1)
        && (p.affected == {} || q.affected == {} ==>
              Settle(k, t, p.sorted, p.affected, |k.comps| + 1) == (t.(changed := false), true))
    ensures SameTick(k, s, p, q)
  {
    var s0 := s.(conflict := false);
    assert Phases12(k, s0, q) == Phases12(k, s0, p);
    hide Phases12, Settle, PlanFits, Tick;
    TickUnfolds(k, s, p);
    TickUnfolds(k, s, q);
  }

  /** Main result: re-running the closure only, the tick has the outcome, the words and the drives it would have had,
      had every combinational component been re-run in every round, be it settled, in conflict or oscillating. Feedback
      through buses is allowed; only components outside the re-run set have to settle alone. */
  lemma RerunIsEverything(k: Circuit, s: State, p: Plan)
    requires Fits(k, s) && Checked(k) && CompletePlan(k, p) && QuietSettleAlone(k, p)
    ensures CompletePlan(k, p.(affected := CombSet(k)))
    ensures SameTick(k, s, p, p.(affected := CombSet(k)))
  {
    var q := p.(affected := CombSet(k));
    var s0 := s.(conflict := false);
    RerunEverything(k, p);
    PlanIsFit(k, p);
    PlanIsFit(k, q);
    Phases12Held(k, s0, p);
    var t := Phases12(k, s0, p);
    hide Checked, CompletePlan, Held, AllResolved, Settle, Phases12, QuietSettleAlone, PlanFits, SameTick;
    if !t.conflict {
      SettlesAlike(k, t, p, |k.comps| + 1);
    }
    TicksAlike(k, s, p, q);
  }

  /** Any two closed sets re-run in the same orders give the same tick. */
  lemma RerunSetDoesNotMatter(k: Circuit, s: State, p: Plan, q: Plan)
    requires Fits(k, s) && Checked(k) && CompletePlan(k, p) && CompletePlan(k, q)
    requires p.joint == q.joint && p.sorted == q.sorted && QuietSettleAlone(k, p) && QuietSettleAlone(k, q)
    ensures SameTick(k, s, p, q)
  {
    PlanIsFit(k, p);
    PlanIsFit(k, q);
    hide Checked, CompletePlan, QuietSettleAlone, Tick, PlanFits;
    RerunIsEverything(k, s, p);
    RerunIsEverything(k, s, q);
    assert p.(affected := CombSet(k)) == q.(affected := CombSet(k));
  }
}
