/** One tick's combinational part as a function of the state: phase 1, phase 2 and the phase 2b rounds. */
module TickSpec {
  import opened Netlist
  import opened Graph

  datatype Driver = Driver(comp: nat, out: nat)

  /** A checked netlist; bus lists the drivers of every net with two or more tri-state outputs. */
  datatype Circuit = Circuit(comps: seq<Component>, nets: nat, bus: map<int, seq<Driver>>)

  predicate IsOutput(k: Circuit, d: Driver) {
    d.comp < |k.comps| && d.out < |k.comps[d.comp].outputs|
  }

  function PinOf(k: Circuit, d: Driver): OutPin
    requires IsOutput(k, d)
  {
    k.comps[d.comp].outputs[d.out]
  }

  predicate On(k: Circuit, d: Driver, net: int) {
    IsOutput(k, d) && PinOf(k, d).net == net
  }

  predicate TriOn(k: Circuit, d: Driver, net: int) {
    On(k, d, net) && PinOf(k, d).tri
  }

  ghost predicate TriNet(k: Circuit, net: int) {
    exists d :: TriOn(k, d, net)
  }

  ghost predicate Shared(k: Circuit, net: int) {
    exists d, e :: d != e && TriOn(k, d, net) && TriOn(k, e, net)
  }

  /** Every pin is unconnected or on a net of the circuit. */
  predicate PinsInRange(k: Circuit) {
    forall i :: 0 <= i < |k.comps| ==>
      && (forall p :: 0 <= p < |k.comps[i].inputs| ==> -1 <= k.comps[i].inputs[p] < k.nets)
      && (forall o :: 0 <= o < |k.comps[i].outputs| ==> -1 <= k.comps[i].outputs[o].net < k.nets)
  }

  /** A plain output never shares its net with another output. */
  ghost predicate SingleDriver(k: Circuit) {
    forall d, e, net :: net >= 0 && On(k, d, net) && On(k, e, net) && d != e ==> PinOf(k, d).tri
  }

  /** The bus table lists exactly the tri-state drivers of exactly the shared nets. */
  ghost predicate BusExact(k: Circuit) {
    && (forall net :: net in k.bus <==> net >= 0 && Shared(k, net))
    && (forall net :: net in k.bus ==> Distinct(k.bus[net]) && forall d :: d in k.bus[net] <==> TriOn(k, d, net))
  }

  /** What the structural check establishes before code is generated. */
  ghost predicate Checked(k: Circuit) {
    PinsInRange(k) && SingleDriver(k) && BusExact(k) && forall i :: 0 <= i < |k.comps| ==> !(k.comps[i].comb && k.comps[i].clock)
  }

  // ---- State ----

  /** w: the net words; c: the latched drives of the outputs; changed: a watched net moved;
      conflict: a resolution saw two enabled drivers. */
  datatype State = State(w: seq<Word>, c: seq<seq<Drive>>, changed: bool, conflict: bool)

  ghost predicate Fits(k: Circuit, s: State) {
    |s.w| == k.nets && |s.c| == |k.comps| && forall i :: 0 <= i < |s.c| ==> |s.c[i]| == |k.comps[i].outputs|
  }

  function Read(w: seq<Word>, net: int): Word {
    if 0 <= net < |w| then w[net] else 0
  }

  function Inputs(c: Component, w: seq<Word>): seq<Word> {
    seq(|c.inputs|, p requires 0 <= p < |c.inputs| => Read(w, c.inputs[p]))
  }

  function Eval(k: Circuit, d: Driver, w: seq<Word>): Drive
    requires IsOutput(k, d)
  {
    k.comps[d.comp].logic(Inputs(k.comps[d.comp], w), d.out)
  }

  /** What a single driver shows on its net: a disabled tri-state driver leaves zero. */
  function Shown(p: OutPin, d: Drive): Word {
    if p.tri && !d.oe then 0 else d.value
  }

  ghost function OutputOn(k: Circuit, i: nat, net: int): (d: Driver)
    requires i < |k.comps| && Drives(k.comps[i], net)
    ensures On(k, d, net) && d.comp == i
  {
    var o :| 0 <= o < |k.comps[i].outputs| && k.comps[i].outputs[o].net == net;
    Driver(i, o)
  }

  /** Running component i writes the net at once: a plain output, or a tri-state output that is the
      net's only driver (which a clock source leaves to phase 2). */
  ghost predicate Writes(k: Circuit, i: nat, net: int)
    requires i < |k.comps|
  {
    net >= 0 && Drives(k.comps[i], net) && (!PinOf(k, OutputOn(k, i, net)).tri || (k.comps[i].comb && net !in k.bus))
  }

  ghost function NetAfterRun(k: Circuit, i: nat, w: seq<Word>, net: int): Word
    requires i < |k.comps|
  {
    if Writes(k, i, net) then Shown(PinOf(k, OutputOn(k, i, net)), Eval(k, OutputOn(k, i, net), w)) else Read(w, net)
  }

  ghost function DrivesAfterRun(k: Circuit, i: nat, s: State): seq<Drive>
    requires Fits(k, s) && i < |k.comps|
  {
    seq(|s.c[i]|, o requires 0 <= o < |s.c[i]| =>
      if k.comps[i].outputs[o].tri then Eval(k, Driver(i, o), s.w) else s.c[i][o])
  }

  /** A watched net is a tri-state net. */
  ghost predicate Moved(k: Circuit, w: seq<Word>, v: seq<Word>) {
    exists net :: 0 <= net < |w| && net < |v| && TriNet(k, net) && w[net] != v[net]
  }

  /** One component of the combinational stage. */
  ghost function Run(k: Circuit, s: State, i: nat, track: bool): (t: State)
    requires Fits(k, s) && i < |k.comps|
    ensures Fits(k, t)
  {
    var w := seq(|s.w|, net requires 0 <= net < |s.w| => NetAfterRun(k, i, s.w, net));
    State(w, s.c[i := DrivesAfterRun(k, i, s)], s.changed || (track && Moved(k, s.w, w)), s.conflict)
  }

  /** The first n entries of the stage restricted to a set: members run in list order. */
  ghost function Stage(k: Circuit, s: State, order: seq<nat>, only: set<nat>, track: bool, n: nat): (t: State)
    requires Fits(k, s) && n <= |order| && forall j :: 0 <= j < |order| ==> order[j] < |k.comps|
    ensures Fits(k, t)
  {
    if n == 0 then s
    else
      var t := Stage(k, s, order, only, track, n - 1);
      if order[n - 1] in only then Run(k, t, order[n - 1], track) else t
  }

  // ---- Bus resolution ----

  ghost predicate Active(k: Circuit, c: seq<seq<Drive>>, d: Driver, net: int) {
    TriOn(k, d, net) && d.comp < |c| && d.out < |c[d.comp]| && c[d.comp][d.out].oe
  }

  ghost predicate Conflict(k: Circuit, c: seq<seq<Drive>>, net: int) {
    exists d, e :: d != e && Active(k, c, d, net) && Active(k, c, e, net)
  }

  /** The enabled driver's value, or zero when no driver is enabled. */
  ghost function BusValue(k: Circuit, c: seq<seq<Drive>>, net: int): Word {
    if exists d :: Active(k, c, d, net)
    then var d :| Active(k, c, d, net); c[d.comp][d.out].value
    else 0
  }

  ghost function NetAfterResolve(k: Circuit, s: State, net: nat): Word
    requires net < |s.w|
  {
    if TriNet(k, net) && !Conflict(k, s.c, net) then BusValue(k, s.c, net) else s.w[net]
  }

  /** Phase 2: every tri-state net takes its enabled driver's value; a conflicting net keeps its word. */
  ghost function Resolve(k: Circuit, s: State, track: bool): (t: State)
    requires Fits(k, s)
    ensures Fits(k, t)
  {
    var w := seq(|s.w|, net requires 0 <= net < |s.w| => NetAfterResolve(k, s, net));
    State(w, s.c,
          s.changed || (track && exists net :: 0 <= net < |s.w| && net in k.bus && w[net] != s.w[net]),
          s.conflict || exists net :: net in k.bus && Conflict(k, s.c, net))
  }

  ghost function Round(k: Circuit, s: State, sorted: seq<nat>, affected: set<nat>): (t: State)
    requires Fits(k, s) && forall j :: 0 <= j < |sorted| ==> sorted[j] < |k.comps|
    ensures Fits(k, t)
  {
    Resolve(k, Stage(k, s.(changed := false), sorted, affected, true, |sorted|), true)
  }

  /** Phase 2b: at most fuel rounds, stopping after the first in which no watched net moved. */
  ghost function Settle(k: Circuit, s: State, sorted: seq<nat>, affected: set<nat>, fuel: nat): (r: (State, bool))
    requires Fits(k, s) && forall j :: 0 <= j < |sorted| ==> sorted[j] < |k.comps|
    ensures Fits(k, r.0)
    decreases fuel
  {
    if fuel == 0 then (s, false)
    else
      var t := Round(k, s, sorted, affected);
      if !t.changed then (t, true) else Settle(k, t, sorted, affected, fuel - 1)
  }

  datatype Outcome = Settled | BusConflict | BusOscillation

  /** The evaluation plan code generation fixes: the joint order of phase 1, the combinational order and
      the re-run set of phase 2b. */
  datatype Plan = Plan(joint: seq<nat>, sorted: seq<nat>, affected: set<nat>)

  ghost predicate PlanFits(k: Circuit, p: Plan) {
    && (forall j :: 0 <= j < |p.joint| ==> p.joint[j] < |k.comps|)
    && (forall j :: 0 <= j < |p.sorted| ==> p.sorted[j] < |k.comps|)
  }

  ghost function Phases12(k: Circuit, s: State, p: Plan): (t: State)
    requires Fits(k, s) && PlanFits(k, p)
    ensures Fits(k, t)
  {
    Resolve(k, Stage(k, s, p.joint, Nodes(|k.comps|), false, |p.joint|), false)
  }

  /** Phases 1, 2 and 2b. The first error is the one reported, and a conflict in phase 2 stops the tick. */
  ghost function Tick(k: Circuit, s: State, p: Plan): (r: (State, Outcome))
    requires Fits(k, s) && PlanFits(k, p)
    ensures Fits(k, r.0)
  {
    var t := Phases12(k, s.(conflict := false), p);
    if t.conflict then (t, BusConflict)
    else if p.affected == {} then (t, Settled)
    else
      var (u, settled) := Settle(k, t, p.sorted, p.affected, |k.comps| + 1);
      (u, if u.conflict then BusConflict else if settled then Settled else BusOscillation)
  }

  // ---- The circuit equations ----

  /** Component i presents exactly what its logic says about its present inputs. */
  ghost predicate StableComp(k: Circuit, s: State, i: nat)
    requires Fits(k, s) && i < |k.comps|
  {
    forall o :: 0 <= o < |k.comps[i].outputs| ==>
      var d := Eval(k, Driver(i, o), s.w);
      var p := k.comps[i].outputs[o];
      if p.tri then s.c[i][o] == d else p.net >= 0 ==> Read(s.w, p.net) == d.value
  }

  /** A net with tri-state drivers holds the one enabled driver's value, or zero. */
  ghost predicate Resolved(k: Circuit, s: State, net: int)
    requires Fits(k, s)
  {
    !Conflict(k, s.c, net) && Read(s.w, net) == BusValue(k, s.c, net)
  }

  ghost predicate AllResolved(k: Circuit, s: State)
    requires Fits(k, s)
  {
    forall net :: 0 <= net < k.nets && TriNet(k, net) ==> Resolved(k, s, net)
  }

  /** Every component equation and every bus resolution holds. */
  ghost predicate Stable(k: Circuit, s: State)
    requires Fits(k, s)
  {
    && AllResolved(k, s)
    && forall i :: 0 <= i < |k.comps| && k.comps[i].comb ==> StableComp(k, s, i)
  }
}
