/** A flattened circuit: the meaning that flattening preserves, and what buses add to it, is what the tick solves. */
module FlatEquations {
  import opened Wrappers
  import F = Flatten
  import opened Netlist
  import opened TickSpec

  /** The names of a primitive's pins, in order. */
  datatype PinNames = PinNames(inputs: seq<string>, outputs: seq<string>)

  function NetOf(c: F.Instance, pin: string): int {
    if pin in c.pins then c.pins[pin] else -1
  }

  /** The scheduler's component for an instance: the same pins on the same nets. */
  predicate Placed(c: F.Instance, names: PinNames, comp: Component) {
    && |comp.inputs| == |names.inputs| && |comp.outputs| == |names.outputs|
    && (forall p :: 0 <= p < |comp.inputs| ==> comp.inputs[p] == NetOf(c, names.inputs[p]))
    && (forall o :: 0 <= o < |comp.outputs| ==> comp.outputs[o].net == NetOf(c, names.outputs[o]))
  }

  predicate AllWords(vals: map<string, int>) {
    forall p :: p in vals ==> 0 <= vals[p] < WORD_LIMIT
  }

  /** What the logic reads: zero on unconnected pins. */
  function InputWords(names: PinNames, vals: map<string, int>): seq<Word>
    requires AllWords(vals)
  {
    seq(|names.inputs|, p requires 0 <= p < |names.inputs| => if names.inputs[p] in vals then vals[names.inputs[p]] else 0)
  }

  /** A plain output has the value its logic computes; a tri-state output has it while its driver is enabled. */
  predicate Shows(pin: OutPin, value: int, d: Drive) {
    (pin.tri && !d.oe) || value == d.value
  }

  /** The values the type admits are those its outputs show. */
  ghost predicate Computes(lib: F.Library, ty: F.Type, names: PinNames, comp: Component)
    requires |comp.outputs| == |names.outputs|
  {
    forall vals: map<string, int> :: AllWords(vals) ==>
      (lib.rel(ty, vals) <==> forall o :: 0 <= o < |names.outputs| && names.outputs[o] in vals ==>
         Shows(comp.outputs[o], vals[names.outputs[o]], comp.logic(InputWords(names, vals), o)))
  }

  /** The circuit holds the instances, none of them composite. */
  ghost predicate FlatCircuit(lib: F.Library, comps: seq<F.Instance>, names: seq<PinNames>, k: Circuit) {
    && |comps| == |names| == |k.comps| && F.PinsInRange(comps, k.nets)
    && forall i :: 0 <= i < |comps| ==>
         comps[i].ty.name !in lib.defs && Placed(comps[i], names[i], k.comps[i]) && Computes(lib, comps[i].ty, names[i], k.comps[i])
  }

  /** The nets show what component i drives on them, computed from the words they hold. */
  ghost predicate ShowsAll(k: Circuit, w: seq<Word>, i: nat)
    requires i < |k.comps|
  {
    forall d :: IsOutput(k, d) && d.comp == i && PinOf(k, d).net >= 0 ==> Shows(PinOf(k, d), Read(w, PinOf(k, d).net), Eval(k, d, w))
  }

  lemma InstanceEquation(lib: F.Library, rank: map<string, nat>, comps: seq<F.Instance>, names: seq<PinNames>, k: Circuit,
                         s: State, i: nat)
    requires F.Ranked(lib, rank) && F.Covered(lib, rank, comps) && FlatCircuit(lib, comps, names, k) && Fits(k, s) && i < |comps|
    ensures F.Admits(lib, rank, comps[i].ty, F.PinValues(comps[i], s.w)) <==> ShowsAll(k, s.w, i)
  {
    var vals := F.PinValues(comps[i], s.w);
    assert AllWords(vals);
    assert InputWords(names[i], vals) == Inputs(k.comps[i], s.w);
    forall o | 0 <= o < |names[i].outputs|
      ensures names[i].outputs[o] in vals <==> k.comps[i].outputs[o].net >= 0
      ensures names[i].outputs[o] in vals ==> vals[names[i].outputs[o]] == Read(s.w, k.comps[i].outputs[o].net)
      ensures Eval(k, Driver(i, o), s.w) == k.comps[i].logic(InputWords(names[i], vals), o)
      ensures IsOutput(k, Driver(i, o)) && PinOf(k, Driver(i, o)) == k.comps[i].outputs[o]
    {
    }
    assert forall d :: IsOutput(k, d) && d.comp == i ==> d == Driver(i, d.out);
  }

  // ---- Buses ----

  /** The latched drives are what the logic computes from the words. */
  ghost predicate Latched(k: Circuit, s: State)
    requires Fits(k, s)
  {
    forall d :: IsOutput(k, d) && PinOf(k, d).tri ==> s.c[d.comp][d.out] == Eval(k, d, s.w)
  }

  /** No net has two enabled drivers, and a tri-state net without any holds zero. */
  ghost predicate BusesInOrder(k: Circuit, s: State)
    requires Fits(k, s)
  {
    forall net :: 0 <= net < k.nets && TriNet(k, net) ==>
      !Conflict(k, s.c, net) && ((exists d :: Active(k, s.c, d, net)) || Read(s.w, net) == 0)
  }

  ghost predicate AllStable(k: Circuit, s: State)
    requires Fits(k, s)
  {
    forall i: nat :: i < |k.comps| ==> StableComp(k, s, i)
  }

  lemma StableIsLatched(k: Circuit, s: State)
    requires Fits(k, s) && AllStable(k, s)
    ensures Latched(k, s)
    ensures forall d :: IsOutput(k, d) && !PinOf(k, d).tri && PinOf(k, d).net >= 0 ==>
      Read(s.w, PinOf(k, d).net) == Eval(k, d, s.w).value
  {
    forall d | IsOutput(k, d)
      ensures if PinOf(k, d).tri then s.c[d.comp][d.out] == Eval(k, d, s.w)
              else PinOf(k, d).net >= 0 ==> Read(s.w, PinOf(k, d).net) == Eval(k, d, s.w).value
    {
      assert StableComp(k, s, d.comp);
      assert d == Driver(d.comp, d.out) && PinOf(k, d) == k.comps[d.comp].outputs[d.out];
    }
  }

  /** An enabled driver of a net without conflict gives the net its value. */
  lemma ActiveIsShown(k: Circuit, c: seq<seq<Drive>>, d: Driver, net: int)
    requires Active(k, c, d, net) && !Conflict(k, c, net)
    ensures BusValue(k, c, net) == c[d.comp][d.out].value
  {
    forall e | Active(k, c, e, net) ensures e == d {
    }
  }

  lemma SolvedShows(k: Circuit, s: State)
    requires Fits(k, s) && AllStable(k, s) && AllResolved(k, s) && PinsInRange(k)
    ensures Latched(k, s) && BusesInOrder(k, s) && forall i: nat :: i < |k.comps| ==> ShowsAll(k, s.w, i)
  {
    StableIsLatched(k, s);
    forall d | IsOutput(k, d) && PinOf(k, d).net >= 0 ensures Shows(PinOf(k, d), Read(s.w, PinOf(k, d).net), Eval(k, d, s.w)) {
      var net := PinOf(k, d).net;
      if PinOf(k, d).tri && Eval(k, d, s.w).oe {
        assert Active(k, s.c, d, net) && Resolved(k, s, net);
        ActiveIsShown(k, s.c, d, net);
      }
    }
    forall net | 0 <= net < k.nets && TriNet(k, net)
      ensures !Conflict(k, s.c, net) && ((exists d :: Active(k, s.c, d, net)) || Read(s.w, net) == 0)
    {
      assert Resolved(k, s, net);
    }
  }

  lemma ShownSolves(k: Circuit, s: State)
    requires Fits(k, s) && PinsInRange(k)
    requires Latched(k, s) && BusesInOrder(k, s) && forall i: nat :: i < |k.comps| ==> ShowsAll(k, s.w, i)
    ensures AllStable(k, s) && AllResolved(k, s)
  {
    forall i: nat | i < |k.comps| ensures StableComp(k, s, i) {
      assert ShowsAll(k, s.w, i);
      forall o | 0 <= o < |k.comps[i].outputs| ensures IsOutput(k, Driver(i, o)) && PinOf(k, Driver(i, o)) == k.comps[i].outputs[o] {}
    }
    forall net | 0 <= net < k.nets && TriNet(k, net) ensures Resolved(k, s, net) {
      if d :| Active(k, s.c, d, net) {
        ActiveIsShown(k, s.c, d, net);
        assert ShowsAll(k, s.w, d.comp);
      }
    }
  }

  /** Main result: the nets satisfy a flattened circuit, with its drives latched, no net with two enabled drivers and none
      floating at another word than zero, exactly when every component equation and every bus resolution holds. */
  lemma SatisfiesIffEquations(lib: F.Library, rank: map<string, nat>, comps: seq<F.Instance>, names: seq<PinNames>,
                              k: Circuit, s: State)
    requires F.Ranked(lib, rank) && F.Covered(lib, rank, comps) && FlatCircuit(lib, comps, names, k) && Fits(k, s)
    ensures F.Satisfies(lib, rank, comps, s.w) && Latched(k, s) && BusesInOrder(k, s) <==> AllStable(k, s) && AllResolved(k, s)
  {
    forall i: nat | i < |comps|
      ensures F.Admits(lib, rank, comps[i].ty, F.PinValues(comps[i], s.w)) <==> ShowsAll(k, s.w, i)
    {
      InstanceEquation(lib, rank, comps, names, k, s, i);
    }
    PlacedInRange(lib, comps, names, k);
    hide FlatCircuit, ShowsAll, Latched, BusesInOrder, AllStable, AllResolved;
    if AllStable(k, s) && AllResolved(k, s) {
      SolvedShows(k, s);
    }
    if F.Satisfies(lib, rank, comps, s.w) && Latched(k, s) && BusesInOrder(k, s) {
      ShownSolves(k, s);
    }
  }

  /** Without tri-state outputs nothing but the component equations is left. */
  lemma PlainSatisfiesIffEquations(lib: F.Library, rank: map<string, nat>, comps: seq<F.Instance>, names: seq<PinNames>,
                                   k: Circuit, s: State)
    requires F.Ranked(lib, rank) && F.Covered(lib, rank, comps) && FlatCircuit(lib, comps, names, k) && Fits(k, s)
    requires forall d :: IsOutput(k, d) ==> !PinOf(k, d).tri
    ensures F.Satisfies(lib, rank, comps, s.w) <==> AllStable(k, s)
  {
    SatisfiesIffEquations(lib, rank, comps, names, k, s);
    assert forall net :: !TriNet(k, net);
  }

  lemma PlacedInRange(lib: F.Library, comps: seq<F.Instance>, names: seq<PinNames>, k: Circuit)
    requires FlatCircuit(lib, comps, names, k)
    ensures PinsInRange(k)
  {
    forall i | 0 <= i < |k.comps|
      ensures forall p :: 0 <= p < |k.comps[i].inputs| ==> -1 <= k.comps[i].inputs[p] < k.nets
      ensures forall o :: 0 <= o < |k.comps[i].outputs| ==> -1 <= k.comps[i].outputs[o].net < k.nets
    {
      assert Placed(comps[i], names[i], k.comps[i]);
    }
  }
}
