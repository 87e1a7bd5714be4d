/** Hierarchical definitions, their meaning, and what replacing an instance by its parts must produce. */
module Flatten {
  import opened Wrappers

  datatype PinKind = In | OutPlain | OutTri

  /** A net name in a definition after template evaluation, which may fail. */
  type Name = Option<string>

  /** A component type: its registered name and its parameters. A composite's name is that of its definition. */
  datatype Type = Type(name: string, params: map<string, string>)

  /** A part of a definition. ty is None when its name or a parameter fails to evaluate; pins are those the factory
      gives it, creates says whether the factory accepts it, connections takes a pin to an inner net. */
  datatype Recipe = Recipe(ty: Option<Type>, pins: map<string, PinKind>, connections: map<string, Name>, creates: bool)

  datatype Definition = Definition(
    nets: seq<Name>,
    outExpose: map<string, Name>,
    inExpose: map<string, Name>,
    parts: seq<Recipe>)
  {
    /** The exposed pins. A name exposed both ways belongs to the input, the only one a connection can reach. */
    function Exposed(): map<string, Name> {
      outExpose + inExpose
    }
  }

  /** Definitions by name, with what their templates give for an instance's parameters; names of composites whose
      definition the library does not have; and which pin values every other type admits. */
  datatype Library = Library(
    defs: map<string, map<string, string> -> Definition>,
    undefined: set<string>,
    rel: (Type, map<string, int>) -> bool)
  {
    function Def(t: Type): Definition
      requires t.name in defs
    {
      defs[t.name](t.params)
    }

    predicate IsComposite(t: Type) {
      t.name in defs || t.name in undefined
    }
  }

  /** An instance: its type, its pins, and the net of each connected pin. */
  datatype Instance = Instance(ty: Type, kinds: map<string, PinKind>, pins: map<string, nat>)

  // ---- Definitions that do not refer to themselves ----

  ghost predicate CoveredType(lib: Library, rank: map<string, nat>, t: Type) {
    t.name in lib.defs ==> t.name in rank
  }

  /** Ranked definitions refer only to ranked definitions of smaller rank. */
  ghost predicate Ranked(lib: Library, rank: map<string, nat>) {
    forall t: Type, r :: t.name in lib.defs && t.name in rank && r in lib.Def(t).parts && r.ty.Some? ==>
      CoveredType(lib, rank, r.ty.value) && (r.ty.value.name in lib.defs ==> rank[r.ty.value.name] < rank[t.name])
  }

  ghost function Height(lib: Library, rank: map<string, nat>, t: Type): nat {
    if t.name in lib.defs && t.name in rank then 1 + rank[t.name] else 0
  }

  // ---- Meaning ----

  /** The values a part's pins take when the inner nets hold u. */
  ghost function PartValues(r: Recipe, u: map<string, int>): map<string, int> {
    map p | p in r.connections && r.connections[p].Some? && r.connections[p].value in u :: u[r.connections[p].value]
  }

  /** A pin of the instance that the definition exposes holds the value of the inner net. */
  ghost predicate ExposedAgree(expose: map<string, Name>, vals: map<string, int>, u: map<string, int>) {
    forall p :: p in expose && p in vals ==> expose[p].Some? && expose[p].value in u && u[expose[p].value] == vals[p]
  }

  ghost predicate ConnectionsIn(r: Recipe, names: set<string>) {
    forall p :: p in r.connections ==> r.connections[p].Some? && r.connections[p].value in names
  }

  /** The values are admitted: by the relation of a primitive, or because the inner nets of a definition can take
      values that agree with the exposed pins and satisfy every part. */
  ghost predicate Admits(lib: Library, rank: map<string, nat>, t: Type, vals: map<string, int>)
    requires Ranked(lib, rank) && CoveredType(lib, rank, t)
    decreases Height(lib, rank, t), 1
  {
    if t.name !in lib.defs then lib.rel(t, vals)
    else exists u: map<string, int> :: Realizes(lib, rank, t, vals, u)
  }

  ghost predicate Realizes(lib: Library, rank: map<string, nat>, t: Type, vals: map<string, int>, u: map<string, int>)
    requires Ranked(lib, rank) && CoveredType(lib, rank, t) && t.name in lib.defs
    decreases Height(lib, rank, t), 0
  {
    var d := lib.Def(t);
    && ExposedAgree(d.Exposed(), vals, u)
    && forall r :: r in d.parts ==>
      r.ty.Some? && ConnectionsIn(r, u.Keys) && Admits(lib, rank, r.ty.value, PartValues(r, u))
  }

  ghost predicate PinsInRange(comps: seq<Instance>, nets: nat) {
    forall i, p :: 0 <= i < |comps| && p in comps[i].pins ==> comps[i].pins[p] < nets
  }

  ghost predicate Covered(lib: Library, rank: map<string, nat>, comps: seq<Instance>) {
    forall i :: 0 <= i < |comps| ==> CoveredType(lib, rank, comps[i].ty)
  }

  ghost function PinValues(c: Instance, v: seq<int>): map<string, int> {
    map p | p in c.pins && c.pins[p] < |v| :: v[c.pins[p]]
  }

  /** A valuation of the nets satisfies a circuit when it satisfies every instance. */
  ghost predicate Satisfies(lib: Library, rank: map<string, nat>, comps: seq<Instance>, v: seq<int>)
    requires Ranked(lib, rank) && Covered(lib, rank, comps)
  {
    forall i :: 0 <= i < |comps| ==> Admits(lib, rank, comps[i].ty, PinValues(comps[i], v))
  }

  /** A valuation of the first nets extends to one that satisfies the circuit. */
  ghost predicate HasExtension(lib: Library, rank: map<string, nat>, comps: seq<Instance>, nets: nat, v: seq<int>)
    requires Ranked(lib, rank) && Covered(lib, rank, comps)
  {
    exists w :: |w| == nets && |v| <= nets && w[..|v|] == v && Satisfies(lib, rank, comps, w)
  }

  // ---- One instance replaced by its parts ----

  /** Some exposed and connected pin binds the inner net to the external one. */
  ghost predicate BoundTo(d: Definition, c: Instance, a: string, net: nat) {
    exists p :: p in c.pins && c.pins[p] == net && p in d.Exposed() && d.Exposed()[p] == Some(a)
  }

  /** Every exposed and connected pin has its inner net on the pin's own net. */
  ghost predicate Bound(expose: map<string, Name>, pins: map<string, nat>, netMap: map<string, nat>) {
    forall p :: p in expose && p in pins ==>
      expose[p].Some? && expose[p].value in netMap && netMap[expose[p].value] == pins[p]
  }

  /** Where the expansion put the inner nets of a definition: exposed connected pins on their external nets, the other
      declared nets each on a fresh one. */
  ghost predicate NetMapOk(d: Definition, c: Instance, netMap: map<string, nat>, nets0: nat, nets1: nat) {
    && nets0 <= nets1
    && Bound(d.Exposed(), c.pins, netMap)
    && (forall a :: a in netMap ==> netMap[a] < nets1)
    && (forall a, b :: a in netMap && b in netMap && a != b && netMap[a] >= nets0 ==> netMap[a] != netMap[b])
    && (forall a :: a in netMap && netMap[a] < nets0 ==> BoundTo(d, c, a, netMap[a]))
  }

  /** The instance built from a part. */
  ghost predicate Wired(r: Recipe, c: Instance, netMap: map<string, nat>) {
    && r.ty == Some(c.ty) && c.kinds == r.pins && c.pins.Keys == r.connections.Keys
    && ConnectionsIn(r, netMap.Keys)
    && forall p :: p in c.pins ==> c.pins[p] == netMap[r.connections[p].value]
  }

  ghost predicate PartsWired(d: Definition, comps: seq<Instance>, first: nat, netMap: map<string, nat>) {
    && |comps| == first + |d.parts|
    && forall j :: 0 <= j < |d.parts| ==> Wired(d.parts[j], comps[first + j], netMap)
  }

  /** comps1 is comps0 with instance i removed and its parts appended. */
  ghost predicate Replaced(lib: Library, comps0: seq<Instance>, nets0: nat, i: nat, comps1: seq<Instance>, nets1: nat,
                           netMap: map<string, nat>)
  {
    && i < |comps0| && comps0[i].ty.name in lib.defs
    && NetMapOk(lib.Def(comps0[i].ty), comps0[i], netMap, nets0, nets1)
    && PartsWired(lib.Def(comps0[i].ty), comps1, |comps0| - 1, netMap)
    && comps1[..|comps0| - 1] == comps0[..i] + comps0[i + 1..]
  }

  lemma KeptInstance(comps0: seq<Instance>, i: nat, comps1: seq<Instance>, k: nat)
    requires i < |comps0| && |comps1| >= |comps0| - 1 && comps1[..|comps0| - 1] == comps0[..i] + comps0[i + 1..]
    requires k < |comps0| - 1
    ensures comps1[k] == comps0[if k < i then k else k + 1]
  {
    assert comps1[k] == comps1[..|comps0| - 1][k];
  }

  /** The parts of a ranked instance are ranked lower; everything else stays as it was. */
  lemma PartsAreCovered(lib: Library, rank: map<string, nat>, comps0: seq<Instance>, nets0: nat, i: nat,
                        comps1: seq<Instance>, nets1: nat, netMap: map<string, nat>)
    requires Ranked(lib, rank) && Covered(lib, rank, comps0)
    requires Replaced(lib, comps0, nets0, i, comps1, nets1, netMap)
    ensures Covered(lib, rank, comps1)
    ensures forall k :: |comps0| - 1 <= k < |comps1| && comps1[k].ty.name in lib.defs ==>
      rank[comps1[k].ty.name] < rank[comps0[i].ty.name]
  {
    forall k | 0 <= k < |comps1|
      ensures CoveredType(lib, rank, comps1[k].ty)
      ensures k >= |comps0| - 1 && comps1[k].ty.name in lib.defs ==> rank[comps1[k].ty.name] < rank[comps0[i].ty.name]
    {
      if k < |comps0| - 1 {
        KeptInstance(comps0, i, comps1, k);
      } else {
        var r := lib.Def(comps0[i].ty).parts[k - (|comps0| - 1)];
        assert Wired(r, comps1[|comps0| - 1 + (k - (|comps0| - 1))], netMap) && r in lib.Def(comps0[i].ty).parts;
      }
    }
  }

  // ---- The two directions ----

  /** The inner valuation a net valuation induces. */
  ghost function Inner(netMap: map<string, nat>, v: seq<int>): map<string, int> {
    map a | a in netMap && netMap[a] < |v| :: v[netMap[a]]
  }

  /** The same part, seen through the inner valuation and through its pins. */
  lemma WiredValues(r: Recipe, c: Instance, netMap: map<string, nat>, v: seq<int>)
    requires Wired(r, c, netMap) && forall a :: a in netMap ==> netMap[a] < |v|
    ensures PartValues(r, Inner(netMap, v)) == PinValues(c, v) && ConnectionsIn(r, Inner(netMap, v).Keys)
  {
  }

  lemma SameValues(c: Instance, v: seq<int>, w: seq<int>, nets: nat)
    requires |v| == nets <= |w| && w[..nets] == v
    requires forall p :: p in c.pins ==> c.pins[p] < nets
    ensures PinValues(c, v) == PinValues(c, w)
  {
    forall p | p in c.pins ensures v[c.pins[p]] == w[c.pins[p]] {
      assert w[..nets][c.pins[p]] == w[c.pins[p]];
    }
  }

  /** Values of the inner nets extend a valuation to the fresh nets. */
  ghost function Extend(netMap: map<string, nat>, v: seq<int>, u: map<string, int>, nets1: nat): (w: seq<int>)
    requires |v| <= nets1
    ensures |w| == nets1 && w[..|v|] == v
  {
    v + seq(nets1 - |v|, k requires 0 <= k => FreshValue(netMap, u, |v| + k))
  }

  ghost function FreshValue(netMap: map<string, nat>, u: map<string, int>, net: nat): int {
    if exists a :: a in netMap && netMap[a] == net && a in u
    then var a :| a in netMap && netMap[a] == net && a in u; u[a]
    else 0
  }

  /** On the names that parts use, the extension gives back the inner values. */
  lemma ExtendAgrees(d: Definition, c: Instance, netMap: map<string, nat>, nets0: nat, nets1: nat, v: seq<int>,
                     u: map<string, int>, a: string)
    requires NetMapOk(d, c, netMap, nets0, nets1) && |v| == nets0 && (forall p :: p in c.pins ==> c.pins[p] < nets0)
    requires ExposedAgree(d.Exposed(), PinValues(c, v), u)
    requires a in netMap && a in u
    ensures Extend(netMap, v, u, nets1)[netMap[a]] == u[a]
  {
    var w := Extend(netMap, v, u, nets1);
    if netMap[a] < nets0 {
      assert BoundTo(d, c, a, netMap[a]);
      var p :| p in c.pins && c.pins[p] == netMap[a] && p in d.Exposed() && d.Exposed()[p] == Some(a);
      assert p in PinValues(c, v);
      assert w[..nets0][netMap[a]] == w[netMap[a]];
    } else {
      assert w[netMap[a]] == FreshValue(netMap, u, netMap[a]);
    }
  }

  /** Inner values that realize the instance satisfy each part, in the extended valuation. */
  lemma PartForward(d: Definition, c: Instance, netMap: map<string, nat>, nets0: nat, nets1: nat, v: seq<int>,
                    u: map<string, int>, r: Recipe, part: Instance)
    requires NetMapOk(d, c, netMap, nets0, nets1) && |v| == nets0 && (forall p :: p in c.pins ==> c.pins[p] < nets0)
    requires ExposedAgree(d.Exposed(), PinValues(c, v), u)
    requires Wired(r, part, netMap) && ConnectionsIn(r, u.Keys)
    ensures PartValues(r, u) == PinValues(part, Extend(netMap, v, u, nets1))
  {
    hide Extend;
    hide ExposedAgree;
    var w := Extend(netMap, v, u, nets1);
    forall p | p in part.pins ensures part.pins[p] < |w| && w[part.pins[p]] == u[r.connections[p].value] {
      ExtendAgrees(d, c, netMap, nets0, nets1, v, u, r.connections[p].value);
    }
  }

  lemma ReplacedForward(lib: Library, rank: map<string, nat>, comps0: seq<Instance>, nets0: nat, i: nat,
                        comps1: seq<Instance>, nets1: nat, netMap: map<string, nat>, v: seq<int>)
    requires Ranked(lib, rank) && Covered(lib, rank, comps0) && Covered(lib, rank, comps1)
    requires PinsInRange(comps0, nets0) && |v| == nets0
    requires Replaced(lib, comps0, nets0, i, comps1, nets1, netMap) && Satisfies(lib, rank, comps0, v)
    ensures HasExtension(lib, rank, comps1, nets1, v)
  {
    hide Ranked, Extend;
    var c := comps0[i];
    assert Admits(lib, rank, c.ty, PinValues(c, v));
    var u: map<string, int> :| Realizes(lib, rank, c.ty, PinValues(c, v), u);
    var w := Extend(netMap, v, u, nets1);
    forall k | 0 <= k < |comps1| ensures Admits(lib, rank, comps1[k].ty, PinValues(comps1[k], w)) {
      if k < |comps0| - 1 {
        KeptForward(lib, rank, comps0, nets0, i, comps1, v, w, k);
      } else {
        PartAdmitted(lib, rank, comps0, nets0, i, comps1, nets1, netMap, v, u, k - (|comps0| - 1));
      }
    }
  }

  lemma KeptForward(lib: Library, rank: map<string, nat>, comps0: seq<Instance>, nets0: nat, i: nat,
                    comps1: seq<Instance>, v: seq<int>, w: seq<int>, k: nat)
    requires Ranked(lib, rank) && Covered(lib, rank, comps0) && Covered(lib, rank, comps1)
    requires PinsInRange(comps0, nets0) && |v| == nets0 <= |w| && w[..nets0] == v && Satisfies(lib, rank, comps0, v)
    requires i < |comps0| && |comps1| >= |comps0| - 1 && comps1[..|comps0| - 1] == comps0[..i] + comps0[i + 1..]
    requires k < |comps0| - 1
    ensures Admits(lib, rank, comps1[k].ty, PinValues(comps1[k], w))
  {
    hide Ranked, Admits;
    KeptInstance(comps0, i, comps1, k);
    var k0 := if k < i then k else k + 1;
    SameValues(comps0[k0], v, w, nets0);
    assert Admits(lib, rank, comps0[k0].ty, PinValues(comps0[k0], v));
  }

  lemma PartAdmitted(lib: Library, rank: map<string, nat>, comps0: seq<Instance>, nets0: nat, i: nat,
                     comps1: seq<Instance>, nets1: nat, netMap: map<string, nat>, v: seq<int>, u: map<string, int>,
                     j: nat)
    requires Ranked(lib, rank) && Covered(lib, rank, comps0) && Covered(lib, rank, comps1)
    requires PinsInRange(comps0, nets0) && |v| == nets0
    requires Replaced(lib, comps0, nets0, i, comps1, nets1, netMap) && j < |lib.Def(comps0[i].ty).parts|
    requires Realizes(lib, rank, comps0[i].ty, PinValues(comps0[i], v), u)
    ensures var k := |comps0| - 1 + j;
      Admits(lib, rank, comps1[k].ty, PinValues(comps1[k], Extend(netMap, v, u, nets1)))
  {
    hide Ranked, Admits, Extend, NetMapOk;
    var d := lib.Def(comps0[i].ty);
    var r := d.parts[j];
    assert r in d.parts && Wired(r, comps1[|comps0| - 1 + j], netMap);
    PartForward(d, comps0[i], netMap, nets0, nets1, v, u, r, comps1[|comps0| - 1 + j]);
  }

  lemma ReplacedBackward(lib: Library, rank: map<string, nat>, comps0: seq<Instance>, nets0: nat, i: nat,
                         comps1: seq<Instance>, nets1: nat, netMap: map<string, nat>, w: seq<int>)
    requires Ranked(lib, rank) && Covered(lib, rank, comps0) && Covered(lib, rank, comps1)
    requires PinsInRange(comps0, nets0) && |w| == nets1 && nets0 <= nets1
    requires Replaced(lib, comps0, nets0, i, comps1, nets1, netMap) && Satisfies(lib, rank, comps1, w)
    ensures Satisfies(lib, rank, comps0, w[..nets0])
  {
    hide Ranked;
    var v := w[..nets0];
    forall k | 0 <= k < |comps0| ensures Admits(lib, rank, comps0[k].ty, PinValues(comps0[k], v)) {
      SameValues(comps0[k], v, w, nets0);
      if k != i {
        KeptInstance(comps0, i, comps1, if k < i then k else k - 1);
      } else {
        PartsRealize(lib, rank, comps0, nets0, i, comps1, nets1, netMap, w);
      }
    }
  }

  lemma PartsRealize(lib: Library, rank: map<string, nat>, comps0: seq<Instance>, nets0: nat, i: nat,
                     comps1: seq<Instance>, nets1: nat, netMap: map<string, nat>, w: seq<int>)
    requires Ranked(lib, rank) && Covered(lib, rank, comps0) && Covered(lib, rank, comps1)
    requires PinsInRange(comps0, nets0) && |w| == nets1 && nets0 <= nets1
    requires Replaced(lib, comps0, nets0, i, comps1, nets1, netMap) && Satisfies(lib, rank, comps1, w)
    ensures Realizes(lib, rank, comps0[i].ty, PinValues(comps0[i], w), Inner(netMap, w))
  {
    var d := lib.Def(comps0[i].ty);
    var u := Inner(netMap, w);
    forall r | r in d.parts
      ensures r.ty.Some? && ConnectionsIn(r, u.Keys) && Admits(lib, rank, r.ty.value, PartValues(r, u))
    {
      var j :| 0 <= j < |d.parts| && d.parts[j] == r;
      assert Wired(r, comps1[|comps0| - 1 + j], netMap);
      WiredValues(r, comps1[|comps0| - 1 + j], netMap, w);
    }
  }

  /** Main result for one expansion: a valuation satisfies the circuit with the instance exactly when it extends to a
      valuation satisfying the circuit with the parts. */
  lemma ReplacementPreservesMeaning(lib: Library, rank: map<string, nat>, comps0: seq<Instance>, nets0: nat, i: nat,
                                    comps1: seq<Instance>, nets1: nat, netMap: map<string, nat>, v: seq<int>)
    requires Ranked(lib, rank) && Covered(lib, rank, comps0) && PinsInRange(comps0, nets0) && |v| == nets0
    requires Replaced(lib, comps0, nets0, i, comps1, nets1, netMap)
    ensures Covered(lib, rank, comps1)
    ensures Satisfies(lib, rank, comps0, v) <==> HasExtension(lib, rank, comps1, nets1, v)
  {
    hide Ranked, Satisfies;
    PartsAreCovered(lib, rank, comps0, nets0, i, comps1, nets1, netMap);
    if Satisfies(lib, rank, comps0, v) {
      ReplacedForward(lib, rank, comps0, nets0, i, comps1, nets1, netMap, v);
    }
    if HasExtension(lib, rank, comps1, nets1, v) {
      var w :| |w| == nets1 && |v| <= nets1 && w[..|v|] == v && Satisfies(lib, rank, comps1, w);
      ReplacedBackward(lib, rank, comps0, nets0, i, comps1, nets1, netMap, w);
    }
  }

  // ---- Many expansions ----

  /** Two circuits mean the same on the nets of the first. */
  ghost predicate SameMeaning(lib: Library, rank: map<string, nat>, comps0: seq<Instance>, nets0: nat,
                              comps1: seq<Instance>, nets1: nat)
    requires Ranked(lib, rank) && Covered(lib, rank, comps0) && Covered(lib, rank, comps1)
  {
    && nets0 <= nets1
    && forall v :: |v| == nets0 ==> (Satisfies(lib, rank, comps0, v) <==> HasExtension(lib, rank, comps1, nets1, v))
  }

  lemma SameMeaningRefl(lib: Library, rank: map<string, nat>, comps: seq<Instance>, nets: nat)
    requires Ranked(lib, rank) && Covered(lib, rank, comps)
    ensures SameMeaning(lib, rank, comps, nets, comps, nets)
  {
    hide Ranked, Satisfies;
    forall v: seq<int> | |v| == nets
      ensures Satisfies(lib, rank, comps, v) <==> HasExtension(lib, rank, comps, nets, v)
    {
      assert v[..|v|] == v;
      if HasExtension(lib, rank, comps, nets, v) {
        var w :| |w| == nets && w[..|v|] == v && Satisfies(lib, rank, comps, w);
        assert w[..|v|] == w;
      }
    }
  }

  lemma SameMeaningStep(lib: Library, rank: map<string, nat>, comps0: seq<Instance>, nets0: nat,
                        comps1: seq<Instance>, nets1: nat, i: nat, comps2: seq<Instance>, nets2: nat,
                        netMap: map<string, nat>)
    requires Ranked(lib, rank) && Covered(lib, rank, comps0) && Covered(lib, rank, comps1) && PinsInRange(comps1, nets1)
    requires SameMeaning(lib, rank, comps0, nets0, comps1, nets1)
    requires Replaced(lib, comps1, nets1, i, comps2, nets2, netMap)
    ensures Covered(lib, rank, comps2) && SameMeaning(lib, rank, comps0, nets0, comps2, nets2)
  {
    hide Ranked, Satisfies;
    PartsAreCovered(lib, rank, comps1, nets1, i, comps2, nets2, netMap);
    forall v: seq<int> | |v| == nets0
      ensures Satisfies(lib, rank, comps0, v) <==> HasExtension(lib, rank, comps2, nets2, v)
    {
      ExtensionStep(lib, rank, comps1, nets1, i, comps2, nets2, netMap, v);
    }
  }

  lemma ExtensionStep(lib: Library, rank: map<string, nat>, comps1: seq<Instance>, nets1: nat, i: nat,
                      comps2: seq<Instance>, nets2: nat, netMap: map<string, nat>, v: seq<int>)
    requires Ranked(lib, rank) && Covered(lib, rank, comps1) && Covered(lib, rank, comps2)
    requires PinsInRange(comps1, nets1) && |v| <= nets1 && Replaced(lib, comps1, nets1, i, comps2, nets2, netMap)
    ensures HasExtension(lib, rank, comps1, nets1, v) <==> HasExtension(lib, rank, comps2, nets2, v)
  {
    hide Ranked, Satisfies, PartsWired;
    if HasExtension(lib, rank, comps1, nets1, v) {
      var w :| |w| == nets1 && w[..|v|] == v && Satisfies(lib, rank, comps1, w);
      ReplacementPreservesMeaning(lib, rank, comps1, nets1, i, comps2, nets2, netMap, w);
      var x :| |x| == nets2 && |w| <= nets2 && x[..|w|] == w && Satisfies(lib, rank, comps2, x);
      assert x[..|v|] == x[..|w|][..|v|];
    }
    if HasExtension(lib, rank, comps2, nets2, v) {
      var x :| |x| == nets2 && x[..|v|] == v && Satisfies(lib, rank, comps2, x);
      var w := x[..nets1];
      assert w[..|v|] == v;
      ReplacementPreservesMeaning(lib, rank, comps1, nets1, i, comps2, nets2, netMap, w);
    }
  }
}
