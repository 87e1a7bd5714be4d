/** Components that read a plain net of their own, which the sort ignores: for which wirings the circuit equations and the
    restriction of phase 2b to the closure depend on what such components compute. */
module SelfReading {
  import opened Netlist
  import opened Graph
  import opened TopoOrder
  import TriAffected
  import opened TickSpec
  import opened TickTheorems
  import opened TickOutcome
  import opened Settling
  import opened Wiring
  import opened Rerun

  // ---- A circuit in which one such component always answers something else ----

  /** Input x of the output's component is on the output's plain net. */
  ghost predicate SelfPin(k: Circuit, d: Driver, x: nat) {
    && IsOutput(k, d) && !PinOf(k, d).tri && PinOf(k, d).net >= 0
    && x < |k.comps[d.comp].inputs| && k.comps[d.comp].inputs[x] == PinOf(k, d).net
  }

  lemma SelfLoopHasPin(k: Circuit, i: nat) returns (d: Driver, x: nat)
    requires PlainSelfLoop(k, i)
    ensures SelfPin(k, d, x) && d.comp == i
  {
    var e, net :| IsOutput(k, e) && e.comp == i && PinOf(k, e).net == net && !PinOf(k, e).tri && Reads(k.comps[i], net);
    d := e;
    x :| x < |k.comps[i].inputs| && k.comps[i].inputs[x] == net;
  }

  function Flip(w: Word): Word {
    if w == 0 then 1 else 0
  }

  ghost function Flipping(x: nat, flips: bool): (seq<Word>, nat) -> Drive {
    (w: seq<Word>, o: nat) => Drive(if flips && x < |w| then Flip(w[x]) else 0, false)
  }

  /** The same wiring with every driver disabled; component i answers the opposite of what its input x holds. */
  ghost function Flipper(k: Circuit, i: nat, x: nat): (j: Circuit)
    ensures SameWiring(k, j)
  {
    k.(comps := seq(|k.comps|, h requires 0 <= h < |k.comps| => k.comps[h].(logic := Flipping(x, h == i))))
  }

  lemma FlipperEval(k: Circuit, d: Driver, x: nat, e: Driver, w: seq<Word>)
    requires SelfPin(k, d, x) && IsOutput(k, e)
    ensures var j := Flipper(k, d.comp, x);
      && IsOutput(j, e) && PinOf(j, e) == PinOf(k, e) && !Eval(j, e, w).oe
      && (e.comp == d.comp ==> Eval(j, e, w).value == Flip(Read(w, PinOf(k, d).net)))
  {
    SameOutputs(k, Flipper(k, d.comp, x));
  }

  lemma FlipperIsUnstable(k: Circuit, d: Driver, x: nat, s: State)
    requires SelfPin(k, d, x) && Fits(Flipper(k, d.comp, x), s)
    ensures !StableComp(Flipper(k, d.comp, x), s, d.comp)
  {
    var j := Flipper(k, d.comp, x);
    FlipperEval(k, d, x, d, s.w);
    assert j.comps[d.comp].outputs[d.out] == PinOf(k, d) && d == Driver(d.comp, d.out);
  }

  // ---- Nothing on the buses ----

  /** No driver is enabled, tri-state nets hold zero, and no mark is set. */
  ghost predicate Dead(k: Circuit, s: State) {
    && Fits(k, s) && !s.conflict && !s.changed
    && (forall d :: IsOutput(k, d) && PinOf(k, d).tri ==> !s.c[d.comp][d.out].oe)
    && (forall net :: 0 <= net < k.nets && TriNet(k, net) ==> s.w[net] == 0)
  }

  ghost function Zeros(k: Circuit): (s: State)
    ensures Fits(k, s) && s.(conflict := false) == s
  {
    State(seq(k.nets, _ => 0), seq(|k.comps|, i requires 0 <= i < |k.comps| => seq(|k.comps[i].outputs|, _ => Drive(0, false))),
          false, false)
  }

  lemma RunKeepsDead(k: Circuit, d: Driver, x: nat, s: State, m: nat, track: bool)
    requires Checked(k) && SelfPin(k, d, x) && m < |k.comps| && Dead(Flipper(k, d.comp, x), s)
    ensures Dead(Flipper(k, d.comp, x), Run(Flipper(k, d.comp, x), s, m, track))
  {
    var j := Flipper(k, d.comp, x);
    var t := Run(j, s, m, track);
    SameOutputs(k, j);
    WiringKeepsChecked(k, j);
    forall e | IsOutput(j, e) && PinOf(j, e).tri ensures !t.c[e.comp][e.out].oe {
      FlipperEval(k, d, x, e, s.w);
      assert PinOf(j, e) == j.comps[e.comp].outputs[e.out] && e == Driver(e.comp, e.out);
    }
    forall net | 0 <= net < j.nets && TriNet(j, net) ensures t.w[net] == 0 {
      if Writes(j, m, net) {
        var e, f :| e == OutputOn(j, m, net) && TriOn(j, f, net);
        if !PinOf(j, e).tri {
          SoleDriver(j, e, f, net);
        }
        FlipperEval(k, d, x, e, s.w);
      }
    }
  }

  lemma ResolveIsIdleWhenDead(k: Circuit, s: State, track: bool)
    requires Dead(k, s)
    ensures Resolve(k, s, track) == s
  {
    forall net, d ensures !Active(k, s.c, d, net) {}
    assert Resolve(k, s, track).w == s.w;
  }

  ghost predicate StaysDead(k: Circuit) {
    forall s: State, m: nat, track: bool {:trigger Run(k, s, m, track)} ::
      Fits(k, s) && Dead(k, s) && m < |k.comps| ==> Dead(k, Run(k, s, m, track))
  }

  lemma FlipperStaysDead(k: Circuit, d: Driver, x: nat)
    requires Checked(k) && SelfPin(k, d, x)
    ensures StaysDead(Flipper(k, d.comp, x))
  {
    var j := Flipper(k, d.comp, x);
    hide Dead, Run, Checked, SelfPin;
    forall s: State, m: nat, track: bool | Fits(j, s) && Dead(j, s) && m < |j.comps| ensures Dead(j, Run(j, s, m, track)) {
      RunKeepsDead(k, d, x, s, m, track);
    }
  }

  lemma StageKeepsDead(k: Circuit, s: State, order: seq<nat>, only: set<nat>, track: bool)
    requires Dead(k, s) && StaysDead(k) && forall h :: 0 <= h < |order| ==> order[h] < |k.comps|
    ensures Dead(k, Stage(k, s, order, only, track, |order|))
  {
    assert Fits(k, s);
    hide Dead, Run, Fits;
    var inv := (t: State, n: nat) => Dead(k, t);
    StageInvariant(k, s, order, only, track, |order|, inv);
  }

  /** Phase 2b is one round without effect on the buses. */
  lemma DeadSettles(k: Circuit, s: State, p: Plan, fuel: nat)
    requires Dead(k, s) && StaysDead(k) && PlanFits(k, p) && fuel > 0
    ensures var t := Stage(k, s, p.sorted, p.affected, true, |p.sorted|);
      Settle(k, s, p.sorted, p.affected, fuel) == (t, true) && !t.conflict
  {
    StageKeepsDead(k, s, p.sorted, p.affected, true);
    var t := Stage(k, s, p.sorted, p.affected, true, |p.sorted|);
    ResolveIsIdleWhenDead(k, t, true);
    assert !t.changed && !t.conflict && s.(changed := false) == s;
    hide Stage, Resolve, Dead, StaysDead;
    SettleUnfolds(k, s, p, fuel);
  }

  lemma DeadPhases12(k: Circuit, s: State, p: Plan)
    requires Dead(k, s) && StaysDead(k) && PlanFits(k, p)
    ensures Dead(k, Phases12(k, s, p)) && !Phases12(k, s, p).conflict && s.(conflict := false) == s
  {
    StageKeepsDead(k, s, p.joint, Nodes(|k.comps|), false);
    ResolveIsIdleWhenDead(k, Stage(k, s, p.joint, Nodes(|k.comps|), false, |p.joint|), false);
  }

  /** The tick settles, on what one round leaves, if there is one. */
  lemma DeadTick(k: Circuit, s: State, p: Plan)
    requires Dead(k, s) && StaysDead(k) && PlanFits(k, p)
    ensures var t := Phases12(k, s, p);
      Tick(k, s, p) == (if p.affected == {} then t else Stage(k, t, p.sorted, p.affected, true, |p.sorted|), Settled)
  {
    DeadPhases12(k, s, p);
    hide Dead, StaysDead, Phases12, Stage, Settle, Tick;
    DeadSettles(k, Phases12(k, s, p), p, |k.comps| + 1);
    TickUnfolds(k, s, p);
  }

  // ---- Every run of the component flips its net ----

  lemma FlipStep(k: Circuit, d: Driver, x: nat, t: State, m: nat, track: bool)
    requires Checked(k) && SelfPin(k, d, x) && m < |k.comps| && Fits(Flipper(k, d.comp, x), t)
    ensures var net := PinOf(k, d).net;
      Read(Run(Flipper(k, d.comp, x), t, m, track).w, net) ==
        if m == d.comp then Flip(Read(t.w, net)) else Read(t.w, net)
  {
    var j := Flipper(k, d.comp, x);
    WiringKeepsChecked(k, j);
    FlipperEval(k, d, x, d, t.w);
    if m == d.comp {
      RunEffect(j, t, d, track);
    } else {
      PlainNetIsPrivate(j, d, m);
      RunFrame(j, t, m, track);
    }
  }

  /** A stage flips the net once if it runs the component, else not at all. */
  lemma FlipStage(k: Circuit, d: Driver, x: nat, s: State, order: seq<nat>, only: set<nat>, track: bool)
    requires Checked(k) && SelfPin(k, d, x) && Fits(Flipper(k, d.comp, x), s)
    requires Distinct(order) && d.comp in order && forall h :: 0 <= h < |order| ==> order[h] < |k.comps|
    ensures var net := PinOf(k, d).net;
      Read(Stage(Flipper(k, d.comp, x), s, order, only, track, |order|).w, net) ==
        if d.comp in only then Flip(Read(s.w, net)) else Read(s.w, net)
  {
    var j := Flipper(k, d.comp, x);
    var net := PinOf(k, d).net;
    var v := Read(s.w, net);
    assert order[..0] == [] && order[..|order|] == order;
    hide Flipper, Run, Checked, SelfPin, Fits, Flip, Distinct, Read;
    var inv := (t: State, n: nat) =>
      n <= |order| && Read(t.w, net) == if d.comp in only && d.comp in order[..n] then Flip(v) else v;
    forall t: State, n: nat | Fits(j, t) && n < |order| && inv(t, n) ensures inv(Step(j, t, order, only, track, n), n + 1) {
      NextInPrefix(order, n, d.comp);
      if order[n] in only {
        FlipStep(k, d, x, t, order[n], track);
      }
    }
    StageInvariant(j, s, order, only, track, |order|, inv);
  }

  lemma NextInPrefix(order: seq<nat>, n: nat, i: nat)
    requires Distinct(order) && n < |order|
    ensures i in order[..n + 1] <==> i in order[..n] || order[n] == i
    ensures order[n] !in order[..n]
  {
  }

  // ---- What depends on the logic, for a given wiring ----

  /** Settled ticks solve the circuit equations. */
  ghost predicate SolvesTicks(k: Circuit, p: Plan) {
    PlanFits(k, p) && forall s: State :: Fits(k, s) && Tick(k, s, p).1 == Settled ==> Stable(k, Tick(k, s, p).0)
  }

  /** Re-running the closure gives the ticks that re-running everything would. */
  ghost predicate RerunsAlike(k: Circuit, p: Plan) {
    PlanFits(k, p) && forall s: State :: Fits(k, s) ==> SameTick(k, s, p, p.(affected := CombSet(k)))
  }

  lemma WiringKeepsSelfLoops(k: Circuit, j: Circuit, i: nat)
    requires SameWiring(k, j) && i < |k.comps| && PlainSelfLoop(j, i)
    ensures PlainSelfLoop(k, i)
  {
    SameOutputs(k, j);
    var d, net :| IsOutput(j, d) && d.comp == i && PinOf(j, d).net == net && !PinOf(j, d).tri && Reads(j.comps[i], net);
    SameConnections(k, j, i, net);
  }

  lemma ZerosAreDead(k: Circuit, d: Driver, x: nat)
    requires SelfPin(k, d, x)
    ensures Dead(Flipper(k, d.comp, x), Zeros(Flipper(k, d.comp, x)))
  {
  }

  lemma SelfReaderStaysUnsolved(k: Circuit, p: Plan, i: nat)
    requires Checked(k) && CompletePlan(k, p) && i < |k.comps| && k.comps[i].comb && PlainSelfLoop(k, i)
    ensures exists j :: SameWiring(k, j) && !SolvesTicks(j, p)
  {
    var d, x := SelfLoopHasPin(k, i);
    var j := Flipper(k, i, x);
    ZerosAreDead(k, d, x);
    FlipperStaysDead(k, d, x);
    WiringKeepsPlan(k, j, p);
    PlanIsFit(j, p);
    hide Dead, StaysDead, CompletePlan, Checked, SelfPin, PlainSelfLoop;
    DeadTick(j, Zeros(j), p);
    var t := Tick(j, Zeros(j), p).0;
    FlipperIsUnstable(k, d, x, t);
    assert j.comps[i].comb && !Stable(j, t);
  }

  /** Main result: every circuit of a wiring ends its settled ticks with all equations solved, feedback through buses
      included, exactly when no combinational component reads a plain net of its own. */
  lemma SolvingIffNoSelfReading(k: Circuit, p: Plan)
    requires Checked(k) && CompletePlan(k, p)
    ensures (forall j :: SameWiring(k, j) ==> SolvesTicks(j, p)) <==> NoPlainFeedback(k)
  {
    if i: nat :| i < |k.comps| && k.comps[i].comb && PlainSelfLoop(k, i) {
      SelfReaderStaysUnsolved(k, p, i);
    } else {
      forall j | SameWiring(k, j) ensures SolvesTicks(j, p) {
        WiringSolves(k, j, p);
      }
    }
  }

  lemma WiringSolves(k: Circuit, j: Circuit, p: Plan)
    requires Checked(k) && CompletePlan(k, p) && NoPlainFeedback(k) && SameWiring(k, j)
    ensures SolvesTicks(j, p)
  {
    WiringKeepsChecked(k, j);
    WiringKeepsPlan(k, j, p);
    forall i: nat | i < |j.comps| && j.comps[i].comb ensures SettlesAlone(j, i) {
      assert SamePins(k.comps[i], j.comps[i]);
      if PlainSelfLoop(j, i) {
        WiringKeepsSelfLoops(k, j, i);
      }
      NoSelfLoopSettlesAlone(j, i);
    }
    hide Checked, CompletePlan, Tick, Stable, SettlesAlone;
    PlanIsFit(j, p);
    forall s: State | Fits(j, s) && Tick(j, s, p).1 == Settled ensures Stable(j, Tick(j, s, p).0) {
      TickSolves(j, s, p);
    }
  }

  /** No component outside the re-run set reads a plain net of its own. */
  ghost predicate QuietDoNotSelfRead(k: Circuit, p: Plan) {
    forall i: nat :: Quiet(k, p, i) ==> !PlainSelfLoop(k, i)
  }

  /** At the end the net is flipped once more if the component is re-run. */
  lemma FlipperShows(k: Circuit, d: Driver, x: nat, p: Plan)
    requires Checked(k) && SelfPin(k, d, x) && CompletePlan(k, p) && k.comps[d.comp].comb
    ensures PlanFits(Flipper(k, d.comp, x), p)
    ensures var j, net := Flipper(k, d.comp, x), PinOf(k, d).net;
      var v := Read(Phases12(j, Zeros(j), p).w, net);
      Read(Tick(j, Zeros(j), p).0.w, net) == if d.comp in p.affected then Flip(v) else v
  {
    var j := Flipper(k, d.comp, x);
    ZerosAreDead(k, d, x);
    FlipperStaysDead(k, d, x);
    WiringKeepsPlan(k, j, p);
    PlanIsFit(k, p);
    PlanIsFit(j, p);
    CompleteCovers(k, p.sorted, false);
    hide Checked, CompletePlan, Dead, StaysDead, Flipper, Stage, Tick, Zeros, Phases12, Flip, Read;
    DeadTick(j, Zeros(j), p);
    FlipStage(k, d, x, Phases12(j, Zeros(j), p), p.sorted, p.affected, true);
  }

  lemma SamePhases12(k: Circuit, s: State, p: Plan, q: Plan)
    requires Fits(k, s) && PlanFits(k, p) && PlanFits(k, q) && p.joint == q.joint
    ensures Phases12(k, s, p) == Phases12(k, s, q)
  {
    hide Stage, Resolve;
  }

  lemma SameCombSet(k: Circuit, j: Circuit)
    requires SameWiring(k, j)
    ensures CombSet(k) == CombSet(j)
  {
    forall i | 0 <= i < |k.comps| ensures SamePins(k.comps[i], j.comps[i]) {}
  }

  lemma SelfReaderIsRerunUnlike(k: Circuit, p: Plan, i: nat)
    requires Checked(k) && CompletePlan(k, p) && Quiet(k, p, i) && PlainSelfLoop(k, i)
    ensures exists j :: SameWiring(k, j) && !RerunsAlike(j, p)
  {
    var d, x := SelfLoopHasPin(k, i);
    var j := Flipper(k, i, x);
    var q := p.(affected := CombSet(k));
    SameCombSet(k, j);
    RerunEverything(k, p);
    hide Checked, CompletePlan, Flipper, Tick, Zeros, SelfPin, PlainSelfLoop, PlanFits, Read, Phases12;
    FlipperShows(k, d, x, p);
    FlipperShows(k, d, x, q);
    SamePhases12(j, Zeros(j), p, q);
    assert !SameTick(j, Zeros(j), p, q);
    assert !RerunsAlike(j, p);
  }

  /** Main result: in every circuit of a wiring re-running the closure gives the ticks that re-running everything would,
      exactly when no component outside the closure reads a plain net of its own. */
  lemma RerunIffQuietDoNotSelfRead(k: Circuit, p: Plan)
    requires Checked(k) && CompletePlan(k, p)
    ensures (forall j :: SameWiring(k, j) ==> RerunsAlike(j, p)) <==> QuietDoNotSelfRead(k, p)
  {
    if i: nat :| Quiet(k, p, i) && PlainSelfLoop(k, i) {
      SelfReaderIsRerunUnlike(k, p, i);
    } else {
      forall j | SameWiring(k, j) ensures RerunsAlike(j, p) {
        WiringRerunsAlike(k, j, p);
      }
    }
  }

  lemma WiringRerunsAlike(k: Circuit, j: Circuit, p: Plan)
    requires Checked(k) && CompletePlan(k, p) && QuietDoNotSelfRead(k, p) && SameWiring(k, j)
    ensures RerunsAlike(j, p)
  {
    WiringKeepsChecked(k, j);
    WiringKeepsPlan(k, j, p);
    forall i: nat | Quiet(j, p, i) ensures SettlesAlone(j, i) {
      assert SamePins(k.comps[i], j.comps[i]) && Quiet(k, p, i);
      if PlainSelfLoop(j, i) {
        WiringKeepsSelfLoops(k, j, i);
      }
      NoSelfLoopSettlesAlone(j, i);
    }
    hide Checked, CompletePlan, SameTick, SettlesAlone;
    PlanIsFit(j, p);
    forall s: State | Fits(j, s) ensures SameTick(j, s, p, p.(affected := CombSet(j))) {
      RerunIsEverything(j, s, p);
    }
  }
}
