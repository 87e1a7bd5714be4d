/** The evaluation plan computes a solution of the circuit equations. */
module TickTheorems {
  import opened Netlist
  import opened Graph
  import opened TopoOrder
  import TriAffected
  import opened TickSpec

  // ---- Frame and effect of one component run ----

  lemma SoleDriver(k: Circuit, d: Driver, e: Driver, net: int)
    requires Checked(k) && net >= 0 && On(k, d, net) && On(k, e, net)
    requires net !in k.bus || !PinOf(k, d).tri || !PinOf(k, e).tri
    ensures d == e
  {
    if d != e {
      assert PinOf(k, d).tri && PinOf(k, e).tri;
      assert TriOn(k, d, net) && TriOn(k, e, net);
    }
  }

  lemma RunFrame(k: Circuit, s: State, i: nat, track: bool)
    requires Fits(k, s) && i < |k.comps|
    ensures forall net :: !(net >= 0 && Drives(k.comps[i], net)) ==> Read(Run(k, s, i, track).w, net) == Read(s.w, net)
    ensures forall j :: 0 <= j < |s.c| && j != i ==> Run(k, s, i, track).c[j] == s.c[j]
  {
  }

  /** After its run a component's plain and sole tri-state nets show what its logic said. */
  lemma RunEffect(k: Circuit, s: State, d: Driver, track: bool)
    requires Fits(k, s) && Checked(k) && IsOutput(k, d)
    ensures PinOf(k, d).tri ==> Run(k, s, d.comp, track).c[d.comp][d.out] == Eval(k, d, s.w)
    ensures PinOf(k, d).net >= 0 && !PinOf(k, d).tri ==>
      Read(Run(k, s, d.comp, track).w, PinOf(k, d).net) == Eval(k, d, s.w).value
    ensures PinOf(k, d).net >= 0 && PinOf(k, d).tri && PinOf(k, d).net !in k.bus && k.comps[d.comp].comb ==>
      Read(Run(k, s, d.comp, track).w, PinOf(k, d).net) == Shown(PinOf(k, d), Eval(k, d, s.w))
  {
    var net := PinOf(k, d).net;
    if net >= 0 && (!PinOf(k, d).tri || net !in k.bus) {
      assert On(k, d, net) && Drives(k.comps[d.comp], net);
      var e := OutputOn(k, d.comp, net);
      assert On(k, e, net);
      SoleDriver(k, d, e, net);
      assert net < k.nets;
    }
  }

  lemma SameInputs(k: Circuit, i: nat, w: seq<Word>, v: seq<Word>)
    requires i < |k.comps| && forall net :: Reads(k.comps[i], net) ==> Read(w, net) == Read(v, net)
    ensures Inputs(k.comps[i], w) == Inputs(k.comps[i], v)
  {
    forall p | 0 <= p < |k.comps[i].inputs| ensures Read(w, k.comps[i].inputs[p]) == Read(v, k.comps[i].inputs[p]) {
      if k.comps[i].inputs[p] >= 0 {
        assert Reads(k.comps[i], k.comps[i].inputs[p]);
      }
    }
  }

  /** A component stays stable when its inputs, its latched drives and its plain nets keep their values. */
  lemma StaysStable(k: Circuit, s: State, t: State, i: nat)
    requires Fits(k, s) && Fits(k, t) && i < |k.comps| && StableComp(k, s, i)
    requires forall net :: Reads(k.comps[i], net) ==> Read(t.w, net) == Read(s.w, net)
    requires t.c[i] == s.c[i]
    requires forall d :: IsOutput(k, d) && d.comp == i && !PinOf(k, d).tri && PinOf(k, d).net >= 0
                     ==> Read(t.w, PinOf(k, d).net) == Read(s.w, PinOf(k, d).net)
    ensures StableComp(k, t, i)
  {
    SameInputs(k, i, t.w, s.w);
    forall o | 0 <= o < |k.comps[i].outputs|
      ensures var d := Eval(k, Driver(i, o), t.w); var p := k.comps[i].outputs[o];
              if p.tri then t.c[i][o] == d else p.net >= 0 ==> Read(t.w, p.net) == d.value
    {
      assert IsOutput(k, Driver(i, o)) && PinOf(k, Driver(i, o)) == k.comps[i].outputs[o];
      assert Eval(k, Driver(i, o), t.w) == Eval(k, Driver(i, o), s.w);
    }
  }

  /** Once run, a component that does not disturb its own inputs is stable. */
  lemma RunMakesStable(k: Circuit, s: State, i: nat, track: bool)
    requires Fits(k, s) && Checked(k) && i < |k.comps|
    requires forall net :: Reads(k.comps[i], net) ==> Read(Run(k, s, i, track).w, net) == Read(s.w, net)
    ensures StableComp(k, Run(k, s, i, track), i)
  {
    var t := Run(k, s, i, track);
    SameInputs(k, i, t.w, s.w);
    forall o | 0 <= o < |k.comps[i].outputs|
      ensures var d := Eval(k, Driver(i, o), t.w); var p := k.comps[i].outputs[o];
              if p.tri then t.c[i][o] == d else p.net >= 0 ==> Read(t.w, p.net) == d.value
    {
      RunEffect(k, s, Driver(i, o), track);
      assert Eval(k, Driver(i, o), t.w) == Eval(k, Driver(i, o), s.w);
    }
  }

  // ---- Components that read their own plain outputs ----

  ghost predicate OwnPlain(k: Circuit, i: nat, net: int) {
    exists d :: On(k, d, net) && d.comp == i && !PinOf(k, d).tri
  }

  /** The same words except on component i's own plain nets. */
  ghost predicate AgreeOutside(k: Circuit, i: nat, w: seq<Word>, v: seq<Word>) {
    |w| == |v| == k.nets && forall net :: 0 <= net < k.nets && !OwnPlain(k, i, net) ==> v[net] == w[net]
  }

  /** v holds what w does, with component i's answer to w on its plain nets. */
  ghost predicate Answered(k: Circuit, i: nat, w: seq<Word>, v: seq<Word>) {
    && AgreeOutside(k, i, w, v)
    && (forall d :: IsOutput(k, d) && d.comp == i && !PinOf(k, d).tri && PinOf(k, d).net >= 0 ==>
          Read(v, PinOf(k, d).net) == Eval(k, d, w).value)
  }

  ghost predicate SameAnswer(k: Circuit, i: nat, w: seq<Word>, v: seq<Word>) {
    forall d :: IsOutput(k, d) && d.comp == i ==> Eval(k, d, v) == Eval(k, d, w)
  }

  /** Putting its own answer on its plain nets does not change the answer of component i: it reads none of them, its
      logic ignores them, or one run is enough for it to agree with itself. */
  ghost predicate SettlesAlone(k: Circuit, i: nat) {
    forall w: seq<Word>, v: seq<Word> :: Answered(k, i, w, v) ==> SameAnswer(k, i, w, v)
  }

  /** Every combinational component is such. */
  ghost predicate AllSettleAlone(k: Circuit) {
    forall i: nat :: i < |k.comps| && k.comps[i].comb ==> SettlesAlone(k, i)
  }

  lemma IgnoringOwnSettlesAlone(k: Circuit, i: nat)
    requires forall w: seq<Word>, v: seq<Word> :: AgreeOutside(k, i, w, v) ==> SameAnswer(k, i, w, v)
    ensures SettlesAlone(k, i)
  {
    forall w: seq<Word>, v: seq<Word> | Answered(k, i, w, v) ensures SameAnswer(k, i, w, v) {
      assert AgreeOutside(k, i, w, v);
    }
  }

  lemma NoSelfLoopSettlesAlone(k: Circuit, i: nat)
    requires i < |k.comps| && !PlainSelfLoop(k, i)
    ensures SettlesAlone(k, i)
  {
    forall w: seq<Word>, v: seq<Word> | Answered(k, i, w, v) ensures SameAnswer(k, i, w, v) {
      forall net | Reads(k.comps[i], net) ensures Read(v, net) == Read(w, net) {
        assert !OwnPlain(k, i, net);
      }
      SameInputs(k, i, v, w);
    }
  }

  lemma NoFeedbackSettlesAlone(k: Circuit)
    requires NoPlainFeedback(k)
    ensures AllSettleAlone(k)
  {
    forall i: nat | i < |k.comps| && k.comps[i].comb ensures SettlesAlone(k, i) {
      NoSelfLoopSettlesAlone(k, i);
    }
  }

  /** Once run, a component that settles alone is stable when only its own plain nets moved among its inputs. */
  lemma RunSettles(k: Circuit, s: State, i: nat, track: bool)
    requires Fits(k, s) && Checked(k) && i < |k.comps| && SettlesAlone(k, i)
    requires forall net :: Reads(k.comps[i], net) && !OwnPlain(k, i, net) ==>
      Read(Run(k, s, i, track).w, net) == Read(s.w, net)
    ensures StableComp(k, Run(k, s, i, track), i)
  {
    var t := Run(k, s, i, track);
    var v: seq<Word> := seq(k.nets, net requires 0 <= net < k.nets => if OwnPlain(k, i, net) then t.w[net] else s.w[net]);
    forall d | IsOutput(k, d) && d.comp == i && !PinOf(k, d).tri && PinOf(k, d).net >= 0
      ensures Read(v, PinOf(k, d).net) == Eval(k, d, s.w).value
    {
      assert OwnPlain(k, i, PinOf(k, d).net);
      RunEffect(k, s, d, track);
    }
    assert Answered(k, i, s.w, v) && SameAnswer(k, i, s.w, v);
    hide SettlesAlone, Answered, Run;
    forall net | Reads(k.comps[i], net) ensures Read(t.w, net) == Read(v, net) {}
    SameInputs(k, i, t.w, v);
    forall o | 0 <= o < |k.comps[i].outputs|
      ensures var d := Eval(k, Driver(i, o), t.w); var p := k.comps[i].outputs[o];
              if p.tri then t.c[i][o] == d else p.net >= 0 ==> Read(t.w, p.net) == d.value
    {
      RunEffect(k, s, Driver(i, o), track);
      assert Eval(k, Driver(i, o), t.w) == Eval(k, Driver(i, o), v) == Eval(k, Driver(i, o), s.w);
    }
  }

  // ---- Plans ----

  ghost predicate PlainSelfLoop(k: Circuit, i: nat) {
    exists d, net :: IsOutput(k, d) && d.comp == i && PinOf(k, d).net == net && !PinOf(k, d).tri && Reads(k.comps[i], net)
  }

  /** No combinational component reads its own plain output. */
  ghost predicate NoPlainFeedback(k: Circuit) {
    forall i :: 0 <= i < |k.comps| && k.comps[i].comb ==> !PlainSelfLoop(k, i)
  }

  /** The list is the component list filtered by a property, and the order covers it without leftovers. */
  ghost predicate Complete(k: Circuit, order: seq<nat>, clocks: bool) {
    exists nodes ::
      && NodesOf(k.comps, nodes)
      && (forall i: nat :: i in nodes <==> i < |k.comps| && (k.comps[i].comb || (clocks && k.comps[i].clock)))
      && Sorted(k.comps, nodes, order, [])
  }

  /** A plan with no leftovers: both orders are complete and the re-run set contains the tri-state closure. */
  ghost predicate CompletePlan(k: Circuit, p: Plan) {
    && PlanFits(k, p) && Complete(k, p.joint, true) && Complete(k, p.sorted, false)
    && TriAffected.Reruns(k.comps, p.sorted, p.affected)
  }

  lemma TriNetsAgree(k: Circuit, net: int)
    requires net >= 0
    ensures TriAffected.IsTriNet(k.comps, net) <==> TriNet(k, net)
  {
    if TriAffected.IsTriNet(k.comps, net) {
      var i, o :| 0 <= i < |k.comps| && 0 <= o < |k.comps[i].outputs| &&
        k.comps[i].outputs[o] == OutPin(net, true, k.comps[i].outputs[o].sequential);
      assert TriOn(k, Driver(i, o), net);
    }
    if TriNet(k, net) {
      var d :| TriOn(k, d, net);
      assert k.comps[d.comp].outputs[d.out] == OutPin(net, true, k.comps[d.comp].outputs[d.out].sequential);
    }
  }

  lemma CompleteCovers(k: Circuit, order: seq<nat>, clocks: bool)
    requires Complete(k, order, clocks)
    ensures Distinct(order)
    ensures forall i: nat :: i in order <==> i < |k.comps| && (k.comps[i].comb || (clocks && k.comps[i].clock))
  {
    assert order + [] == order;
  }

  lemma TriPinMakesTriNet(k: Circuit, d: Driver, net: int)
    requires On(k, d, net)
    ensures PinOf(k, d).tri ==> TriNet(k, net)
  {
    if PinOf(k, d).tri {
      assert TriOn(k, d, net);
    }
  }

  lemma PlainDrives(k: Circuit, i: nat, net: int)
    requires i < |k.comps| && Drives(k.comps[i], net) && !TriNet(k, net)
    ensures OwnPlain(k, i, net)
  {
    TriPinMakesTriNet(k, OutputOn(k, i, net), net);
  }

  /** The driver of a net that is not shared runs before every other component that reads the net. */
  lemma WriterRunsFirst(k: Circuit, order: seq<nat>, clocks: bool, m: nat, i: nat, net: int, pos: nat)
    requires Checked(k) && Complete(k, order, clocks)
    requires m in order && pos < |order| && order[pos] == i && m != i
    requires m < |k.comps| && i < |k.comps| && Reads(k.comps[i], net) && Drives(k.comps[m], net) && net !in k.bus
    ensures Before(order, m, pos)
  {
    var nodes :| NodesOf(k.comps, nodes)
      && (forall i: nat :: i in nodes <==> i < |k.comps| && (k.comps[i].comb || (clocks && k.comps[i].clock)))
      && Sorted(k.comps, nodes, order, []);
    assert order + [] == order;
    var a := Position(nodes, m);
    var b := Position(nodes, i);
    forall c | a < c < |nodes| ensures !Drives(k.comps[nodes[c]], net) {
      if Drives(k.comps[nodes[c]], net) {
        SoleDriver(k, OutputOn(k, m, net), OutputOn(k, nodes[c], net), net);
      }
    }
    assert LastWriter(k.comps, nodes, net, a);
    assert DataEdge(k.comps, nodes, a, b);
    assert Feeds(k.comps, nodes, m, i);
  }

  // ---- Components outside the re-run set ----

  ghost predicate Quiet(k: Circuit, p: Plan, i: nat) {
    i < |k.comps| && k.comps[i].comb && i !in p.affected
  }

  lemma QuietReads(k: Circuit, p: Plan, i: nat, net: int)
    requires CompletePlan(k, p) && Quiet(k, p, i) && Reads(k.comps[i], net)
    ensures !TriNet(k, net)
    ensures forall m :: m in p.affected && m < |k.comps| ==> !Drives(k.comps[m], net)
  {
    CompleteCovers(k, p.sorted, false);
    assert i in p.sorted;
    TriNetsAgree(k, net);
    forall m | m in p.affected && m < |k.comps| ensures !Drives(k.comps[m], net) {
      if Drives(k.comps[m], net) {
        assert TriAffected.Flows(k.comps[m], k.comps[i]);
      }
    }
  }

  /** No plain net of component i is driven by another component. */
  lemma PlainNetIsPrivate(k: Circuit, d: Driver, m: nat)
    requires Checked(k) && IsOutput(k, d) && !PinOf(k, d).tri && PinOf(k, d).net >= 0 && m < |k.comps| && m != d.comp
    ensures !Drives(k.comps[m], PinOf(k, d).net)
  {
    if Drives(k.comps[m], PinOf(k, d).net) {
      SoleDriver(k, d, OutputOn(k, m, PinOf(k, d).net), PinOf(k, d).net);
    }
  }

  ghost predicate QuietStable(k: Circuit, s: State, p: Plan)
    requires Fits(k, s)
  {
    forall i: nat :: Quiet(k, p, i) ==> StableComp(k, s, i)
  }

  /** A run of m keeps another component stable when m drives none of its input nets. */
  lemma RunKeepsStable(k: Circuit, s: State, m: nat, i: nat, track: bool)
    requires Fits(k, s) && Checked(k) && m < |k.comps| && i < |k.comps| && m != i && StableComp(k, s, i)
    requires forall net :: Reads(k.comps[i], net) ==> Read(Run(k, s, m, track).w, net) == Read(s.w, net)
    ensures StableComp(k, Run(k, s, m, track), i)
  {
    var t := Run(k, s, m, track);
    RunFrame(k, s, m, track);
    forall d | IsOutput(k, d) && d.comp == i && !PinOf(k, d).tri && PinOf(k, d).net >= 0
      ensures Read(t.w, PinOf(k, d).net) == Read(s.w, PinOf(k, d).net)
    {
      PlainNetIsPrivate(k, d, m);
    }
    StaysStable(k, s, t, i);
  }

  lemma UnsharedNet(k: Circuit, net: int)
    requires Checked(k) && net >= 0 && !TriNet(k, net)
    ensures net !in k.bus
  {
  }

  /** In a complete order no component run later writes a plain net that an earlier one reads. */
  lemma ReadsUndisturbed(k: Circuit, order: seq<nat>, clocks: bool, j: nat, n: nat, net: int)
    requires Checked(k) && Complete(k, order, clocks) && j <= n < |order|
    requires order[j] < |k.comps| && order[n] < |k.comps|
    requires Reads(k.comps[order[j]], net) && !TriNet(k, net) && Drives(k.comps[order[n]], net)
    ensures j == n && OwnPlain(k, order[j], net)
  {
    CompleteCovers(k, order, clocks);
    if j < n {
      UnsharedNet(k, net);
      WriterRunsFirst(k, order, clocks, order[n], order[j], net, j);
    } else {
      PlainDrives(k, order[j], net);
    }
  }

  ghost function Step(k: Circuit, t: State, order: seq<nat>, only: set<nat>, track: bool, m: nat): State
    requires Fits(k, t) && m < |order| && order[m] < |k.comps|
  {
    if order[m] in only then Run(k, t, order[m], track) else t
  }

  /** What every step of a stage keeps holds at its end. */
  lemma {:induction false} StageInvariant(k: Circuit, s: State, order: seq<nat>, only: set<nat>, track: bool, n: nat,
                                          inv: (State, nat) -> bool)
    requires Fits(k, s) && n <= |order| && forall j :: 0 <= j < |order| ==> order[j] < |k.comps|
    requires inv(s, 0)
    requires forall t: State, m: nat {:trigger inv(t, m)} ::
      Fits(k, t) && m < |order| && inv(t, m) ==> inv(Step(k, t, order, only, track, m), m + 1)
    ensures inv(Stage(k, s, order, only, track, n), n)
  {
    hide Run;
    if n > 0 {
      StageInvariant(k, s, order, only, track, n - 1, inv);
    }
  }

  /** The components outside the re-run set settle alone. */
  ghost predicate QuietSettleAlone(k: Circuit, p: Plan) {
    forall i: nat :: Quiet(k, p, i) ==> SettlesAlone(k, i)
  }

  ghost predicate QuietUpTo(k: Circuit, s: State, p: Plan, n: nat)
    requires Fits(k, s)
  {
    forall j :: 0 <= j < n && j < |p.joint| && Quiet(k, p, p.joint[j]) ==> StableComp(k, s, p.joint[j])
  }

  /** Phase 1 in a complete order leaves every component that reads no tri-state net stable. */
  lemma Phase1Quiet(k: Circuit, s: State, p: Plan, n: nat)
    requires Fits(k, s) && Checked(k) && CompletePlan(k, p) && n <= |p.joint| && QuietSettleAlone(k, p)
    ensures QuietUpTo(k, Stage(k, s, p.joint, Nodes(|k.comps|), false, n), p, n)
  {
    var all := Nodes(|k.comps|);
    var inv := (t: State, m: nat) => Fits(k, t) && QuietUpTo(k, t, p, m);
    forall t: State, m: nat | Fits(k, t) && m < |p.joint| && inv(t, m) ensures inv(Step(k, t, p.joint, all, false, m), m + 1) {
      Phase1StepAll(k, p, t, m);
    }
    StageInvariant(k, s, p.joint, all, false, n, inv);
  }

  lemma Phase1StepAll(k: Circuit, p: Plan, before: State, n: nat)
    requires Fits(k, before) && Checked(k) && CompletePlan(k, p) && n < |p.joint| && QuietSettleAlone(k, p)
    requires QuietUpTo(k, before, p, n)
    ensures QuietUpTo(k, Run(k, before, p.joint[n], false), p, n + 1)
  {
    forall j | 0 <= j < n + 1 && Quiet(k, p, p.joint[j]) ensures StableComp(k, Run(k, before, p.joint[n], false), p.joint[j]) {
      Phase1Step(k, p, before, n, j);
    }
  }

  lemma Phase1Step(k: Circuit, p: Plan, before: State, n: nat, j: nat)
    requires Fits(k, before) && Checked(k) && CompletePlan(k, p) && j <= n < |p.joint|
    requires Quiet(k, p, p.joint[j]) && SettlesAlone(k, p.joint[j])
    requires j < n ==> StableComp(k, before, p.joint[j])
    ensures StableComp(k, Run(k, before, p.joint[n], false), p.joint[j])
  {
    var i, m := p.joint[j], p.joint[n];
    RunFrame(k, before, m, false);
    CompleteCovers(k, p.joint, true);
    forall net | Reads(k.comps[i], net) && Drives(k.comps[m], net) ensures m == i && OwnPlain(k, i, net) {
      QuietReads(k, p, i, net);
      ReadsUndisturbed(k, p.joint, true, j, n, net);
    }
    RunStepSettles(k, before, m, i, false);
  }

  /** After m's run a component is stable if it was stable or was the one run, and its inputs stood still. */
  lemma RunStepStable(k: Circuit, s: State, m: nat, i: nat, track: bool)
    requires Fits(k, s) && Checked(k) && m < |k.comps| && i < |k.comps| && (m != i ==> StableComp(k, s, i))
    requires forall net :: Reads(k.comps[i], net) ==> Read(Run(k, s, m, track).w, net) == Read(s.w, net)
    ensures StableComp(k, Run(k, s, m, track), i)
  {
    if m == i {
      RunMakesStable(k, s, i, track);
    } else {
      RunKeepsStable(k, s, m, i, track);
    }
  }

  /** The same when only i's own run moved inputs of it, and only its own plain nets. */
  lemma RunStepSettles(k: Circuit, s: State, m: nat, i: nat, track: bool)
    requires Fits(k, s) && Checked(k) && m < |k.comps| && i < |k.comps| && (if m == i then SettlesAlone(k, i) else StableComp(k, s, i))
    requires forall net :: Reads(k.comps[i], net) && !(m == i && OwnPlain(k, i, net)) ==>
      Read(Run(k, s, m, track).w, net) == Read(s.w, net)
    ensures StableComp(k, Run(k, s, m, track), i)
  {
    if m == i {
      RunSettles(k, s, i, track);
    } else {
      RunKeepsStable(k, s, m, i, track);
    }
  }

  /** Resolution touches tri-state nets only. */
  lemma ResolveFrame(k: Circuit, s: State, track: bool)
    requires Fits(k, s)
    ensures forall net :: !(net >= 0 && TriNet(k, net)) ==> Read(Resolve(k, s, track).w, net) == Read(s.w, net)
  {
  }

  lemma ResolveKeepsStable(k: Circuit, s: State, i: nat, track: bool)
    requires Fits(k, s) && Checked(k) && i < |k.comps| && StableComp(k, s, i)
    requires forall net :: Reads(k.comps[i], net) ==> Read(Resolve(k, s, track).w, net) == Read(s.w, net)
    ensures StableComp(k, Resolve(k, s, track), i)
  {
    var t := Resolve(k, s, track);
    ResolveFrame(k, s, track);
    forall d | IsOutput(k, d) && d.comp == i && !PinOf(k, d).tri && PinOf(k, d).net >= 0
      ensures Read(t.w, PinOf(k, d).net) == Read(s.w, PinOf(k, d).net)
    {
      forall e | TriOn(k, e, PinOf(k, d).net) ensures false {
        SoleDriver(k, d, e, PinOf(k, d).net);
      }
    }
    StaysStable(k, s, t, i);
  }

  lemma ResolveKeepsQuiet(k: Circuit, s: State, p: Plan, track: bool)
    requires Fits(k, s) && Checked(k) && CompletePlan(k, p) && QuietStable(k, s, p)
    ensures QuietStable(k, Resolve(k, s, track), p)
  {
    ResolveFrame(k, s, track);
    forall i: nat | Quiet(k, p, i) ensures StableComp(k, Resolve(k, s, track), i) {
      forall net | Reads(k.comps[i], net) ensures !TriNet(k, net) {
        QuietReads(k, p, i, net);
      }
      ResolveKeepsStable(k, s, i, track);
    }
  }

  lemma ConflictIsShared(k: Circuit, c: seq<seq<Drive>>, net: int)
    requires Checked(k) && net >= 0 && Conflict(k, c, net)
    ensures net in k.bus
  {
    var d, e :| d != e && Active(k, c, d, net) && Active(k, c, e, net);
    assert TriOn(k, d, net) && TriOn(k, e, net);
  }

  /** A single-driver net never conflicts; after a resolution without conflict every tri-state net is resolved. */
  lemma ResolveResolves(k: Circuit, s: State, track: bool)
    requires Fits(k, s) && Checked(k) && !Resolve(k, s, track).conflict
    ensures AllResolved(k, Resolve(k, s, track))
  {
    forall net | 0 <= net < k.nets && TriNet(k, net) ensures Resolved(k, Resolve(k, s, track), net) {
      if Conflict(k, s.c, net) {
        ConflictIsShared(k, s.c, net);
        assert false;
      }
    }
  }

  lemma Phases12KeepQuiet(k: Circuit, s: State, p: Plan)
    requires Fits(k, s) && Checked(k) && CompletePlan(k, p) && QuietSettleAlone(k, p)
    ensures QuietStable(k, Phases12(k, s, p), p)
  {
    Phase1Quiet(k, s, p, |p.joint|);
    var t := Stage(k, s, p.joint, Nodes(|k.comps|), false, |p.joint|);
    CompleteCovers(k, p.joint, true);
    forall i: nat | Quiet(k, p, i) ensures StableComp(k, t, i) {
      assert i in p.joint;
      var j :| 0 <= j < |p.joint| && p.joint[j] == i;
    }
    ResolveKeepsQuiet(k, t, p, false);
  }

  lemma Phases12Quiet(k: Circuit, s: State, p: Plan)
    requires Fits(k, s) && Checked(k) && CompletePlan(k, p) && QuietSettleAlone(k, p)
    requires !Phases12(k, s, p).conflict
    ensures QuietStable(k, Phases12(k, s, p), p) && AllResolved(k, Phases12(k, s, p))
  {
    Phases12KeepQuiet(k, s, p);
    ResolveResolves(k, Stage(k, s, p.joint, Nodes(|k.comps|), false, |p.joint|), false);
  }

  // ---- One round of phase 2b ----

  lemma MovedNot(k: Circuit, s: State, t: State, net: int)
    requires Fits(k, s) && Fits(k, t) && !Moved(k, s.w, t.w) && TriNet(k, net)
    ensures Read(t.w, net) == Read(s.w, net)
  {
  }

  lemma {:induction false} ConflictGrows(k: Circuit, s: State, order: seq<nat>, only: set<nat>, track: bool, n: nat)
    requires Fits(k, s) && n <= |order| && forall j :: 0 <= j < |order| ==> order[j] < |k.comps|
    ensures Stage(k, s, order, only, track, n).conflict == s.conflict
    ensures s.changed ==> Stage(k, s, order, only, track, n).changed
  {
    if n > 0 {
      ConflictGrows(k, s, order, only, track, n - 1);
    }
  }

  /** Every single-driver tri-state net shows its latched drive. */
  ghost predicate SinglesShown(k: Circuit, s: State)
    requires Fits(k, s)
  {
    forall net :: 0 <= net < k.nets && TriNet(k, net) && net !in k.bus ==> Read(s.w, net) == BusValue(k, s.c, net)
  }

  lemma SoleBusValue(k: Circuit, c: seq<seq<Drive>>, d: Driver, net: int)
    requires Checked(k) && TriOn(k, d, net) && net >= 0 && net !in k.bus
    requires d.comp < |c| && d.out < |c[d.comp]|
    ensures BusValue(k, c, net) == Shown(PinOf(k, d), c[d.comp][d.out])
  {
    forall e | Active(k, c, e, net) ensures e == d {
      SoleDriver(k, d, e, net);
    }
    if c[d.comp][d.out].oe {
      assert Active(k, c, d, net);
    }
  }

  lemma BusValueSame(k: Circuit, c: seq<seq<Drive>>, e: seq<seq<Drive>>, net: int)
    requires |c| == |e|
    requires forall d :: TriOn(k, d, net) && d.comp < |c| ==> c[d.comp] == e[d.comp]
    ensures BusValue(k, c, net) == BusValue(k, e, net) || Conflict(k, c, net)
    ensures Conflict(k, c, net) <==> Conflict(k, e, net)
  {
    assert forall d :: Active(k, c, d, net) <==> Active(k, e, d, net);
    if Conflict(k, e, net) {
      var d, f :| d != f && Active(k, e, d, net) && Active(k, e, f, net);
      assert Active(k, c, d, net) && Active(k, c, f, net);
    }
  }

  lemma RunKeepsSingles(k: Circuit, s: State, m: nat, track: bool)
    requires Fits(k, s) && Checked(k) && SinglesShown(k, s) && m < |k.comps| && k.comps[m].comb
    ensures SinglesShown(k, Run(k, s, m, track))
  {
    var t := Run(k, s, m, track);
    RunFrame(k, s, m, track);
    forall net | 0 <= net < k.nets && TriNet(k, net) && net !in k.bus ensures Read(t.w, net) == BusValue(k, t.c, net) {
      var d :| TriOn(k, d, net);
      SoleBusValue(k, s.c, d, net);
      SoleBusValue(k, t.c, d, net);
      if d.comp == m {
        RunEffect(k, s, d, track);
      } else if Drives(k.comps[m], net) {
        SoleDriver(k, d, OutputOn(k, m, net), net);
      }
    }
  }

  lemma RunKeepsQuiet(k: Circuit, s: State, p: Plan, m: nat, track: bool)
    requires Fits(k, s) && Checked(k) && CompletePlan(k, p) && QuietStable(k, s, p)
    requires m in p.affected && m < |k.comps|
    ensures QuietStable(k, Run(k, s, m, track), p)
  {
    RunFrame(k, s, m, track);
    forall i: nat | Quiet(k, p, i) ensures StableComp(k, Run(k, s, m, track), i) {
      forall net | Reads(k.comps[i], net) ensures !Drives(k.comps[m], net) {
        QuietReads(k, p, i, net);
      }
      RunKeepsStable(k, s, m, i, track);
    }
  }

  /** What a round starts from: the components outside the re-run set are stable, and buses are resolved. */
  ghost predicate RoundReady(k: Circuit, s: State, p: Plan)
    requires Fits(k, s)
  {
    QuietStable(k, s, p) && AllResolved(k, s)
  }

  lemma StageKeepsQuiet(k: Circuit, s: State, p: Plan, n: nat)
    requires Fits(k, s) && Checked(k) && CompletePlan(k, p) && QuietStable(k, s, p)
    requires n <= |p.sorted|
    ensures QuietStable(k, Stage(k, s, p.sorted, p.affected, true, n), p)
  {
    var inv := (t: State, m: nat) => Fits(k, t) && QuietStable(k, t, p);
    forall t: State, m: nat | Fits(k, t) && m < |p.sorted| && inv(t, m)
      ensures inv(Step(k, t, p.sorted, p.affected, true, m), m + 1)
    {
      if p.sorted[m] in p.affected {
        RunKeepsQuiet(k, t, p, p.sorted[m], true);
      }
    }
    StageInvariant(k, s, p.sorted, p.affected, true, n, inv);
  }

  lemma StageKeepsSingles(k: Circuit, s: State, p: Plan, n: nat)
    requires Fits(k, s) && Checked(k) && PlanFits(k, p) && SinglesShown(k, s)
    requires forall m :: m in p.affected && m < |k.comps| ==> k.comps[m].comb
    requires n <= |p.sorted|
    ensures SinglesShown(k, Stage(k, s, p.sorted, p.affected, true, n))
  {
    var inv := (t: State, m: nat) => Fits(k, t) && SinglesShown(k, t);
    forall t: State, m: nat | Fits(k, t) && m < |p.sorted| && inv(t, m)
      ensures inv(Step(k, t, p.sorted, p.affected, true, m), m + 1)
    {
      if p.sorted[m] in p.affected {
        RunKeepsSingles(k, t, p.sorted[m], true);
      }
    }
    StageInvariant(k, s, p.sorted, p.affected, true, n, inv);
  }

  lemma RoundStart(k: Circuit, s: State, p: Plan)
    requires Fits(k, s) && Checked(k) && CompletePlan(k, p) && RoundReady(k, s, p)
    ensures RoundReady(k, s.(changed := false), p) && SinglesShown(k, s.(changed := false))
  {
    var s0 := s.(changed := false);
    forall i: nat | Quiet(k, p, i) ensures StableComp(k, s0, i) {
      assert StableComp(k, s, i);
    }
    forall net | 0 <= net < k.nets && TriNet(k, net) ensures Resolved(k, s0, net) {
      assert Resolved(k, s, net);
    }
  }

  lemma RoundKeepsReady(k: Circuit, s: State, p: Plan)
    requires Fits(k, s) && Checked(k) && CompletePlan(k, p) && RoundReady(k, s, p)
    requires !Round(k, s, p.sorted, p.affected).conflict
    ensures RoundReady(k, Round(k, s, p.sorted, p.affected), p)
  {
    var s0 := s.(changed := false);
    RoundStart(k, s, p);
    StageKeepsQuiet(k, s0, p, |p.sorted|);
    var t := Stage(k, s0, p.sorted, p.affected, true, |p.sorted|);
    ResolveKeepsQuiet(k, t, p, true);
    ResolveResolves(k, t, true);
  }

  // ---- A round without movement has reached a solution ----

  /** Unless a watched net has moved, tri-state nets are as they were and what has run is stable. */
  ghost predicate Still(k: Circuit, s: State, t: State, p: Plan, n: nat)
    requires Fits(k, s) && Fits(k, t)
  {
    !t.changed ==>
      && (forall net: int :: TriNet(k, net) ==> Read(t.w, net) == Read(s.w, net))
      && (forall j :: 0 <= j < n && j < |p.sorted| && p.sorted[j] in p.affected && p.sorted[j] < |k.comps| ==>
            StableComp(k, t, p.sorted[j]))
  }

  /** In a round in which no watched net moves, every component already run is stable. */
  lemma StillStage(k: Circuit, s: State, p: Plan)
    requires Fits(k, s) && Checked(k) && CompletePlan(k, p) && AllSettleAlone(k)
    ensures Still(k, s, Stage(k, s, p.sorted, p.affected, true, |p.sorted|), p, |p.sorted|)
  {
    var inv := (t: State, m: nat) => Fits(k, t) && Still(k, s, t, p, m);
    forall t: State, m: nat | Fits(k, t) && m < |p.sorted| && inv(t, m)
      ensures inv(Step(k, t, p.sorted, p.affected, true, m), m + 1)
    {
      StillStep(k, s, p, t, m);
    }
    StageInvariant(k, s, p.sorted, p.affected, true, |p.sorted|, inv);
  }

  lemma StillStep(k: Circuit, s: State, p: Plan, t: State, n: nat)
    requires Checked(k) && CompletePlan(k, p) && Fits(k, s) && Fits(k, t) && AllSettleAlone(k)
    requires n < |p.sorted| && Still(k, s, t, p, n)
    ensures Still(k, s, Step(k, t, p.sorted, p.affected, true, n), p, n + 1)
  {
    var u := Step(k, t, p.sorted, p.affected, true, n);
    if p.sorted[n] in p.affected && !u.changed {
      forall net | TriNet(k, net) ensures Read(u.w, net) == Read(t.w, net) {
        MovedNot(k, t, u, net);
      }
      forall j | 0 <= j < n + 1 && p.sorted[j] in p.affected ensures StableComp(k, u, p.sorted[j]) {
        StillStepStable(k, p, t, j, n);
      }
    }
  }

  lemma StillStepStable(k: Circuit, p: Plan, t: State, j: nat, n: nat)
    requires Checked(k) && CompletePlan(k, p) && Fits(k, t) && AllSettleAlone(k)
    requires j <= n < |p.sorted| && p.sorted[n] in p.affected && p.sorted[j] in p.affected
    requires forall net :: TriNet(k, net) ==> Read(Run(k, t, p.sorted[n], true).w, net) == Read(t.w, net)
    requires j < n ==> StableComp(k, t, p.sorted[j])
    ensures StableComp(k, Run(k, t, p.sorted[n], true), p.sorted[j])
  {
    var i, m := p.sorted[j], p.sorted[n];
    RunFrame(k, t, m, true);
    CompleteCovers(k, p.sorted, false);
    forall net | Reads(k.comps[i], net) && !(m == i && OwnPlain(k, i, net)) ensures Read(Run(k, t, m, true).w, net) == Read(t.w, net) {
      if !TriNet(k, net) && Drives(k.comps[m], net) {
        ReadsUndisturbed(k, p.sorted, false, j, n, net);
      }
    }
    RunStepSettles(k, t, m, i, true);
  }

  /** The exit of phase 2b: if a round moved nothing and saw no conflict, the whole circuit is stable. */
  lemma StillRoundIsStable(k: Circuit, s: State, p: Plan)
    requires Fits(k, s) && Checked(k) && CompletePlan(k, p) && RoundReady(k, s, p)
    requires AllSettleAlone(k)
    requires !Round(k, s, p.sorted, p.affected).conflict && !Round(k, s, p.sorted, p.affected).changed
    ensures Stable(k, Round(k, s, p.sorted, p.affected))
  {
    var s0 := s.(changed := false);
    var t := Stage(k, s0, p.sorted, p.affected, true, |p.sorted|);
    var u := Resolve(k, t, true);
    RoundKeepsReady(k, s, p);
    StillStage(k, s0, p);
    StageSinglesShown(k, s, p);
    forall net | 0 <= net < k.nets ensures Read(u.w, net) == Read(t.w, net) {
      assert TriNet(k, net) && net !in k.bus ==> Read(t.w, net) == BusValue(k, t.c, net);
      assert net in k.bus ==> u.w[net] == t.w[net];
    }
    CompleteCovers(k, p.sorted, false);
    forall i: nat | i < |k.comps| && k.comps[i].comb ensures StableComp(k, u, i) {
      if Quiet(k, p, i) {
      } else {
        assert i in p.sorted;
        var j :| 0 <= j < |p.sorted| && p.sorted[j] == i;
        assert StableComp(k, t, i);
        forall net ensures Read(u.w, net) == Read(t.w, net) {}
        ResolveKeepsStable(k, t, i, true);
      }
    }
  }

  lemma StageSinglesShown(k: Circuit, s: State, p: Plan)
    requires Fits(k, s) && Checked(k) && CompletePlan(k, p) && RoundReady(k, s, p)
    ensures SinglesShown(k, Stage(k, s.(changed := false), p.sorted, p.affected, true, |p.sorted|))
  {
    RoundStart(k, s, p);
    StageKeepsSingles(k, s.(changed := false), p, |p.sorted|);
  }

  lemma ConflictPersists(k: Circuit, s: State, p: Plan)
    requires Fits(k, s) && PlanFits(k, p) && s.conflict
    ensures Round(k, s, p.sorted, p.affected).conflict
  {
    ConflictGrows(k, s.(changed := false), p.sorted, p.affected, true, |p.sorted|);
  }

  lemma {:induction false} SettleKeepsConflict(k: Circuit, s: State, p: Plan, fuel: nat)
    requires Fits(k, s) && PlanFits(k, p) && s.conflict
    ensures Settle(k, s, p.sorted, p.affected, fuel).0.conflict
    decreases fuel
  {
    if fuel > 0 {
      ConflictPersists(k, s, p);
      SettleKeepsConflict(k, Round(k, s, p.sorted, p.affected), p, fuel - 1);
    }
  }

  lemma SettleUnfolds(k: Circuit, s: State, p: Plan, fuel: nat)
    requires Fits(k, s) && PlanFits(k, p)
    ensures fuel == 0 ==> !Settle(k, s, p.sorted, p.affected, fuel).1
    ensures fuel > 0 ==>
      var t := Round(k, s, p.sorted, p.affected);
      Settle(k, s, p.sorted, p.affected, fuel) == if !t.changed then (t, true) else Settle(k, t, p.sorted, p.affected, fuel - 1)
  {
    hide Round, Fits, PlanFits;
  }

  lemma PlanIsSound(k: Circuit, p: Plan)
    requires CompletePlan(k, p)
    ensures PlanFits(k, p)
  {
  }

  lemma {:induction false} SettledIsStable(k: Circuit, s: State, p: Plan, fuel: nat)
    requires Fits(k, s) && Checked(k) && CompletePlan(k, p) && RoundReady(k, s, p)
    requires AllSettleAlone(k)
    requires Settle(k, s, p.sorted, p.affected, fuel).1 && !Settle(k, s, p.sorted, p.affected, fuel).0.conflict
    ensures Stable(k, Settle(k, s, p.sorted, p.affected, fuel).0)
    decreases fuel
  {
    hide Checked, CompletePlan, AllSettleAlone, RoundReady, Round, Stable, Settle, Fits;
    PlanIsSound(k, p);
    SettleUnfolds(k, s, p, fuel);
    if fuel > 0 {
      var t := Round(k, s, p.sorted, p.affected);
      if t.conflict {
        SettleKeepsConflict(k, t, p, fuel - 1);
        assert false;
      }
      if t.changed {
        RoundKeepsReady(k, s, p);
        SettledIsStable(k, t, p, fuel - 1);
      } else {
        StillRoundIsStable(k, s, p);
      }
    }
  }

  /** Main result: a tick that ends without reporting an error has solved the circuit equations, for every
      component and every bus, although phase 2b re-ran only the tri-state closure. */
  lemma TickSolves(k: Circuit, s: State, p: Plan)
    requires Fits(k, s) && Checked(k) && CompletePlan(k, p)
    requires AllSettleAlone(k)
    requires Tick(k, s, p).1 == Settled
    ensures Stable(k, Tick(k, s, p).0)
  {
    PlanIsSound(k, p);
    var s0 := s.(conflict := false);
    var t := Phases12(k, s0, p);
    assert QuietSettleAlone(k, p);
    Phases12Quiet(k, s0, p);
    if p.affected == {} {
      QuietIsAll(k, t, p);
    } else {
      hide Checked, CompletePlan, AllSettleAlone, Phases12, Settle, Stable, QuietStable, AllResolved;
      SettledIsStable(k, t, p, |k.comps| + 1);
    }
  }

  /** When nothing is re-run, every component is quiet. */
  lemma QuietIsAll(k: Circuit, t: State, p: Plan)
    requires Fits(k, t) && p.affected == {} && QuietStable(k, t, p) && AllResolved(k, t)
    ensures Stable(k, t)
  {
    forall i: nat | i < |k.comps| && k.comps[i].comb ensures StableComp(k, t, i) {
      assert Quiet(k, p, i);
    }
  }

  // ---- What resolutions and settled ticks mean ----

  /** An enabled tri-state output of the net. */
  ghost predicate EnabledOn(k: Circuit, s: State, d: Driver, net: int)
    requires Fits(k, s)
  {
    IsOutput(k, d) && PinOf(k, d).tri && PinOf(k, d).net == net && s.c[d.comp][d.out].oe
  }

  lemma EnabledIsActive(k: Circuit, s: State, d: Driver, net: int)
    requires Fits(k, s)
    ensures EnabledOn(k, s, d, net) <==> Active(k, s.c, d, net)
  {
  }

  /** A resolution gives a net the value of its only enabled driver, zero when it has tri-state drivers but none is enabled,
      and leaves alone a net with two enabled drivers or without tri-state drivers. */
  lemma ResolveMeans(k: Circuit, s: State, track: bool, net: nat)
    requires Fits(k, s) && net < k.nets
    ensures var t := Resolve(k, s, track);
      && (forall d, e :: d != e && EnabledOn(k, s, d, net) && EnabledOn(k, s, e, net) ==> t.w[net] == s.w[net])
      && (forall d :: EnabledOn(k, s, d, net) && (forall e :: EnabledOn(k, s, e, net) ==> e == d) ==>
            t.w[net] == s.c[d.comp][d.out].value)
      && ((forall d :: !EnabledOn(k, s, d, net)) ==> t.w[net] == if TriNet(k, net) then 0 else s.w[net])
  {
    forall d ensures EnabledOn(k, s, d, net) <==> Active(k, s.c, d, net) {
      EnabledIsActive(k, s, d, net);
    }
    forall d | EnabledOn(k, s, d, net) ensures TriNet(k, net) {
      assert TriOn(k, d, net);
    }
  }

  /** A resolution raises a conflict exactly when some net has two enabled drivers. */
  lemma ConflictMeans(k: Circuit, s: State, track: bool)
    requires Fits(k, s) && Checked(k)
    ensures Resolve(k, s, track).conflict <==>
      s.conflict || exists net: int, d, e :: net >= 0 && d != e && EnabledOn(k, s, d, net) && EnabledOn(k, s, e, net)
  {
    if exists net :: net in k.bus && Conflict(k, s.c, net) {
      var net :| net in k.bus && Conflict(k, s.c, net);
      var d, e :| d != e && Active(k, s.c, d, net) && Active(k, s.c, e, net);
      assert EnabledOn(k, s, d, net) && EnabledOn(k, s, e, net);
    }
    forall net: int, d, e | net >= 0 && d != e && EnabledOn(k, s, d, net) && EnabledOn(k, s, e, net)
      ensures net in k.bus && Conflict(k, s.c, net)
    {
      EnabledIsActive(k, s, d, net);
      EnabledIsActive(k, s, e, net);
      ConflictIsShared(k, s.c, net);
    }
  }

  /** What the component at output d reads on input p. */
  function ReadAt(k: Circuit, w: seq<Word>, d: Driver, p: nat): Word
    requires IsOutput(k, d) && p < |k.comps[d.comp].inputs|
  {
    var net := k.comps[d.comp].inputs[p];
    if 0 <= net < |w| then w[net] else 0
  }

  /** Main result, in plain terms: after a settled tick every plain output of a combinational component has on its net the
      value its logic computes from the words now on its inputs, every tri-state output drives what its logic computes, no
      two enabled drivers share a net, a net with an enabled driver holds its value, and a net with tri-state drivers of
      which none is enabled holds zero. */
  lemma SettledTickMeans(k: Circuit, s: State, p: Plan, d: Driver, read: seq<Word>)
    requires Fits(k, s) && Checked(k) && CompletePlan(k, p) && AllSettleAlone(k)
    requires Tick(k, s, p).1 == Settled && IsOutput(k, d)
    requires |read| == |k.comps[d.comp].inputs|
    requires forall i :: 0 <= i < |read| ==> read[i] == ReadAt(k, Tick(k, s, p).0.w, d, i)
    ensures var t := Tick(k, s, p).0;
      var net := PinOf(k, d).net;
      && (k.comps[d.comp].comb && !PinOf(k, d).tri && net >= 0 ==> Read(t.w, net) == k.comps[d.comp].logic(read, d.out).value)
      && (k.comps[d.comp].comb && PinOf(k, d).tri ==> t.c[d.comp][d.out] == k.comps[d.comp].logic(read, d.out))
      && (net >= 0 && EnabledOn(k, t, d, net) ==>
            Read(t.w, net) == t.c[d.comp][d.out].value && forall e :: EnabledOn(k, t, e, net) ==> e == d)
      && (net >= 0 && PinOf(k, d).tri && (forall e :: !EnabledOn(k, t, e, net)) ==> Read(t.w, net) == 0)
  {
    TickSolves(k, s, p);
    var t := Tick(k, s, p).0;
    assert read == Inputs(k.comps[d.comp], t.w);
    hide Tick, CompletePlan, AllSettleAlone;
    StableMeans(k, t, d);
  }

  lemma StableMeans(k: Circuit, t: State, d: Driver)
    requires Fits(k, t) && Checked(k) && Stable(k, t) && IsOutput(k, d)
    ensures var net := PinOf(k, d).net;
      var drive := k.comps[d.comp].logic(Inputs(k.comps[d.comp], t.w), d.out);
      && (k.comps[d.comp].comb && !PinOf(k, d).tri && net >= 0 ==> Read(t.w, net) == drive.value)
      && (k.comps[d.comp].comb && PinOf(k, d).tri ==> t.c[d.comp][d.out] == drive)
      && (net >= 0 && EnabledOn(k, t, d, net) ==>
            Read(t.w, net) == t.c[d.comp][d.out].value && forall e :: EnabledOn(k, t, e, net) ==> e == d)
      && (net >= 0 && PinOf(k, d).tri && (forall e :: !EnabledOn(k, t, e, net)) ==> Read(t.w, net) == 0)
  {
    var net := PinOf(k, d).net;
    if k.comps[d.comp].comb {
      assert StableComp(k, t, d.comp) && k.comps[d.comp].outputs[d.out] == PinOf(k, d) && d == Driver(d.comp, d.out);
    }
    if net >= 0 && PinOf(k, d).tri {
      assert TriOn(k, d, net) && TriNet(k, net) && Resolved(k, t, net);
      forall e ensures EnabledOn(k, t, e, net) <==> Active(k, t.c, e, net) {
        EnabledIsActive(k, t, e, net);
      }
    }
  }
}
