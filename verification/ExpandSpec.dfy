/** What expanding one instance yields, and exactly when it can be done. */
module ExpandSpec {
  import opened Wrappers
  import opened Flatten

  /** An output pin that is on a net. */
  predicate Outputs(c: Instance, p: string) {
    p in c.pins && p in c.kinds && c.kinds[p] != In
  }

  /** Two outputs share a net only when both are tri-state. */
  ghost predicate NoShort(comps: seq<Instance>) {
    forall i, p, j, q ::
      0 <= i < |comps| && 0 <= j < |comps| && Outputs(comps[i], p) && Outputs(comps[j], q) && (i != j || p != q) ==>
      ShareOk(comps[i], p, comps[j], q)
  }

  ghost predicate ShareOk(c: Instance, p: string, e: Instance, q: string)
    requires Outputs(c, p) && Outputs(e, q)
  {
    c.pins[p] == e.pins[q] ==> c.kinds[p] == OutTri && e.kinds[q] == OutTri
  }

  ghost predicate PinsKnown(comps: seq<Instance>) {
    forall i :: 0 <= i < |comps| ==> comps[i].pins.Keys <= comps[i].kinds.Keys
  }

  // ---- The net map ----

  /** The exposed and connected pins name their inner nets, and no inner net is bound to two different nets. */
  ghost predicate ExposeOk(expose: map<string, Name>, pins: map<string, nat>) {
    && (forall p :: p in expose && p in pins ==> expose[p].Some?)
    && (forall p, q :: p in expose && p in pins && q in expose && q in pins && expose[p] == expose[q] ==>
          pins[p] == pins[q])
  }

  ghost function BoundMap(expose: map<string, Name>, pins: map<string, nat>): map<string, nat>
    requires ExposeOk(expose, pins)
  {
    map p | p in expose && p in pins :: expose[p].value := pins[p]
  }

  ghost predicate NamesOk(names: seq<Name>) {
    forall n :: n in names ==> n.Some?
  }

  /** Declared nets that are not bound yet each get the next fresh net. */
  ghost function FreshMap(names: seq<Name>, netMap: map<string, nat>, next: nat): (r: (map<string, nat>, nat))
    requires NamesOk(names)
  {
    if names == [] then (netMap, next)
    else if names[0].value in netMap then FreshMap(names[1..], netMap, next)
    else FreshMap(names[1..], netMap[names[0].value := next], next + 1)
  }

  /** The net map of an expansion, and the number of nets after it. */
  ghost function NetMapOf(d: Definition, c: Instance, nets: nat): (map<string, nat>, nat)
    requires ExposeOk(d.Exposed(), c.pins) && NamesOk(d.nets)
  {
    FreshMap(d.nets, BoundMap(d.Exposed(), c.pins), nets)
  }

  /** Fresh nets are distinct and new, and what was bound stays bound. */
  lemma {:induction false} FreshMapIsFresh(names: seq<Name>, netMap: map<string, nat>, next: nat, nets0: nat)
    requires NamesOk(names) && nets0 <= next && (forall a :: a in netMap ==> netMap[a] < next)
    requires forall a, b :: a in netMap && b in netMap && a != b && netMap[a] >= nets0 ==> netMap[a] != netMap[b]
    ensures var (m, n) := FreshMap(names, netMap, next);
      && next <= n && netMap.Keys <= m.Keys
      && (forall a :: a in m ==> m[a] < n)
      && (forall a, b :: a in m && b in m && a != b && m[a] >= nets0 ==> m[a] != m[b])
      && (forall a :: a in netMap ==> m[a] == netMap[a])
      && (forall a :: a in m && a !in netMap ==> m[a] >= nets0 && Some(a) in names)
      && (forall k :: 0 <= k < |names| ==> names[k].value in m)
  {
    if names != [] {
      if names[0].value in netMap {
        FreshMapIsFresh(names[1..], netMap, next, nets0);
      } else {
        FreshMapIsFresh(names[1..], netMap[names[0].value := next], next + 1, nets0);
      }
    }
  }

  // ---- The parts ----

  /** A part can be created, all its connected pins exist and all its net names are known. */
  ghost predicate PartOk(lib: Library, r: Recipe, names: set<string>) {
    && r.ty.Some? && r.creates && r.ty.value.name !in lib.undefined
    && r.connections.Keys <= r.pins.Keys && ConnectionsIn(r, names)
  }

  ghost function Placed(r: Recipe, netMap: map<string, nat>): Instance
    requires r.ty.Some? && ConnectionsIn(r, netMap.Keys)
  {
    Instance(r.ty.value, r.pins, map p | p in r.connections :: netMap[r.connections[p].value])
  }

  ghost predicate PartsOk(lib: Library, parts: seq<Recipe>, names: set<string>) {
    forall r :: r in parts ==> PartOk(lib, r, names)
  }

  ghost function PlacedParts(lib: Library, parts: seq<Recipe>, netMap: map<string, nat>): (s: seq<Instance>)
    requires PartsOk(lib, parts, netMap.Keys)
    ensures |s| == |parts| && forall j {:trigger s[j]} :: 0 <= j < |parts| ==> parts[j] in parts && s[j] == Placed(parts[j], netMap)
  {
    seq(|parts|, j requires 0 <= j < |parts| => assert parts[j] in parts; Placed(parts[j], netMap))
  }

  ghost function Without(comps: seq<Instance>, i: nat): seq<Instance>
    requires i < |comps|
  {
    comps[..i] + comps[i + 1..]
  }

  // ---- One expansion ----

  /** The names resolve, the exposed pins do not clash, and every part can be created and connected. */
  ghost predicate Resolves(lib: Library, c: Instance, nets: nat)
    requires c.ty.name in lib.defs
  {
    var d := lib.Def(c.ty);
    && ExposeOk(d.Exposed(), c.pins) && NamesOk(d.nets)
    && PartsOk(lib, d.parts, NetMapOf(d, c, nets).0.Keys)
  }

  ghost function Result(lib: Library, comps: seq<Instance>, nets: nat, i: nat): seq<Instance>
    requires i < |comps| && comps[i].ty.name in lib.defs && Resolves(lib, comps[i], nets)
  {
    var d := lib.Def(comps[i].ty);
    Without(comps, i) + PlacedParts(lib, d.parts, NetMapOf(d, comps[i], nets).0)
  }

  ghost function ResultNets(lib: Library, comps: seq<Instance>, nets: nat, i: nat): nat
    requires i < |comps| && comps[i].ty.name in lib.defs && Resolves(lib, comps[i], nets)
  {
    NetMapOf(lib.Def(comps[i].ty), comps[i], nets).1
  }

  /** An instance can be expanded: it has a definition, everything in it resolves, and no two outputs get shorted. */
  ghost predicate Expandable(lib: Library, comps: seq<Instance>, nets: nat, i: nat) {
    && i < |comps| && comps[i].ty.name in lib.defs && Resolves(lib, comps[i], nets)
    && NoShort(Result(lib, comps, nets, i))
  }

  /** What is bound before fresh nets are made are the external nets of exposed and connected pins. */
  lemma BoundMapIsBound(d: Definition, c: Instance, a: string)
    requires ExposeOk(d.Exposed(), c.pins) && a in BoundMap(d.Exposed(), c.pins)
    ensures BoundTo(d, c, a, BoundMap(d.Exposed(), c.pins)[a])
  {
    var bound := BoundMap(d.Exposed(), c.pins);
    var p :| p in d.Exposed() && p in c.pins && d.Exposed()[p].value == a && bound[a] == c.pins[p];
  }

  lemma BoundNets(d: Definition, c: Instance, nets: nat)
    requires ExposeOk(d.Exposed(), c.pins) && forall p :: p in c.pins ==> c.pins[p] < nets
    ensures var bound := BoundMap(d.Exposed(), c.pins);
      forall a :: a in bound ==> BoundTo(d, c, a, bound[a]) && bound[a] < nets
  {
    forall a | a in BoundMap(d.Exposed(), c.pins) ensures BoundTo(d, c, a, BoundMap(d.Exposed(), c.pins)[a]) {
      BoundMapIsBound(d, c, a);
    }
    hide BoundMap;
  }

  /** A map that keeps what was bound puts the inner nets of exposed and connected pins on the pins' nets. */
  lemma KeptIsBound(expose: map<string, Name>, pins: map<string, nat>, m: map<string, nat>)
    requires ExposeOk(expose, pins)
    requires var bound := BoundMap(expose, pins); bound.Keys <= m.Keys && forall a :: a in bound ==> m[a] == bound[a]
    ensures Bound(expose, pins, m)
  {
    forall p | p in expose && p in pins
      ensures expose[p].Some? && expose[p].value in m && m[expose[p].value] == pins[p]
    {
      assert expose[p].value in BoundMap(expose, pins);
    }
  }

  lemma NetMapOfOk(d: Definition, c: Instance, nets: nat)
    requires ExposeOk(d.Exposed(), c.pins) && NamesOk(d.nets) && forall p :: p in c.pins ==> c.pins[p] < nets
    ensures NetMapOk(d, c, NetMapOf(d, c, nets).0, nets, NetMapOf(d, c, nets).1)
  {
    hide ExposeOk, BoundMap, NamesOk, FreshMap, Bound, BoundTo;
    BoundNets(d, c, nets);
    FreshMapIsFresh(d.nets, BoundMap(d.Exposed(), c.pins), nets, nets);
    KeptIsBound(d.Exposed(), c.pins, NetMapOf(d, c, nets).0);
  }

  lemma PlacedIsWired(lib: Library, d: Definition, comps: seq<Instance>, i: nat, m: map<string, nat>, comps1: seq<Instance>)
    requires i < |comps| && PartsOk(lib, d.parts, m.Keys)
    requires comps1 == Without(comps, i) + PlacedParts(lib, d.parts, m)
    ensures PartsWired(d, comps1, |comps| - 1, m)
  {
    var placed := PlacedParts(lib, d.parts, m);
    forall j | 0 <= j < |d.parts| ensures Wired(d.parts[j], comps1[|comps| - 1 + j], m) {
      assert comps1[|comps| - 1 + j] == placed[j];
      PartIsOk(lib, d.parts, m.Keys, j);
      PlacedOne(lib, d.parts[j], m);
      hide Wired, Placed, PartOk, PartsOk;
    }
  }

  lemma PartIsOk(lib: Library, parts: seq<Recipe>, names: set<string>, j: nat)
    requires PartsOk(lib, parts, names) && j < |parts|
    ensures PartOk(lib, parts[j], names)
  {
    assert parts[j] in parts;
  }

  lemma PlacedOne(lib: Library, r: Recipe, m: map<string, nat>)
    requires PartOk(lib, r, m.Keys)
    ensures Wired(r, Placed(r, m), m)
  {
  }

  lemma WiredInRange(lib: Library, d: Definition, comps: seq<Instance>, i: nat, m: map<string, nat>, nets0: nat,
                     nets1: nat, comps1: seq<Instance>)
    requires i < |comps| && PartsOk(lib, d.parts, m.Keys) && PartsWired(d, comps1, |comps| - 1, m)
    requires comps1[..|comps| - 1] == Without(comps, i)
    requires PinsInRange(comps, nets0) && PinsKnown(comps) && nets0 <= nets1 && forall a :: a in m ==> m[a] < nets1
    ensures PinsInRange(comps1, nets1) && PinsKnown(comps1)
  {
    forall k | 0 <= k < |comps1|
      ensures comps1[k].pins.Keys <= comps1[k].kinds.Keys && forall p :: p in comps1[k].pins ==> comps1[k].pins[p] < nets1
    {
      if k < |comps| - 1 {
        KeptInstance(comps, i, comps1, k);
      } else {
        var j := k - (|comps| - 1);
        assert Wired(d.parts[j], comps1[|comps| - 1 + j], m) && d.parts[j] in d.parts;
        assert PartOk(lib, d.parts[j], m.Keys);
      }
    }
  }

  /** An expansion that can be done is a replacement that keeps the meaning. */
  lemma ExpandIsReplacement(lib: Library, comps: seq<Instance>, nets: nat, i: nat)
    requires Expandable(lib, comps, nets, i) && PinsInRange(comps, nets) && PinsKnown(comps)
    ensures var comps1 := Result(lib, comps, nets, i); var nets1 := ResultNets(lib, comps, nets, i);
      && Replaced(lib, comps, nets, i, comps1, nets1, NetMapOf(lib.Def(comps[i].ty), comps[i], nets).0)
      && PinsInRange(comps1, nets1) && PinsKnown(comps1) && nets <= nets1
  {
    hide NoShort, PartsWired, FreshMap, BoundMap, PinsKnown, PinsInRange, PartsOk;
    var d := lib.Def(comps[i].ty);
    var (m, n) := NetMapOf(d, comps[i], nets);
    assert forall p :: p in comps[i].pins ==> comps[i].pins[p] < nets by { PinsOfOne(comps, nets, i); }
    NetMapOfOk(d, comps[i], nets);
    var comps1 := Result(lib, comps, nets, i);
    PlacedIsWired(lib, d, comps, i, m, comps1);
    assert comps1[..|comps| - 1] == Without(comps, i);
    WiredInRange(lib, d, comps, i, m, nets, n, comps1);
  }

  lemma PinsOfOne(comps: seq<Instance>, nets: nat, i: nat)
    requires i < |comps| && PinsInRange(comps, nets)
    ensures forall p :: p in comps[i].pins ==> comps[i].pins[p] < nets
  {
  }

  // ---- Shorts under the steps of an expansion ----

  /** Instance i may put its output on the net: every other output there is tri-state, and so is this one. */
  ghost predicate MayDrive(comps: seq<Instance>, i: nat, pin: string, net: nat)
    requires i < |comps|
  {
    forall j, q :: 0 <= j < |comps| && Outputs(comps[j], q) && comps[j].pins[q] == net && (j != i || q != pin) ==>
      comps[j].kinds[q] == OutTri && pin in comps[i].kinds && comps[i].kinds[pin] == OutTri
  }

  ghost function Rewired(comps: seq<Instance>, i: nat, pin: string, net: nat): seq<Instance>
    requires i < |comps|
  {
    comps[i := comps[i].(pins := comps[i].pins[pin := net])]
  }

  /** Connecting keeps the circuit free of shorts exactly when the driver check passes. */
  lemma ConnectKeepsNoShort(comps: seq<Instance>, i: nat, pin: string, net: nat)
    requires i < |comps| && pin in comps[i].kinds && NoShort(comps)
    ensures NoShort(Rewired(comps, i, pin, net)) <==> comps[i].kinds[pin] == In || MayDrive(comps, i, pin, net)
  {
    var after := Rewired(comps, i, pin, net);
    if NoShort(after) && comps[i].kinds[pin] != In {
      forall j, q | 0 <= j < |comps| && Outputs(comps[j], q) && comps[j].pins[q] == net && (j != i || q != pin)
        ensures comps[j].kinds[q] == OutTri && comps[i].kinds[pin] == OutTri
      {
        assert Outputs(after[i], pin) && Outputs(after[j], q);
        assert ShareOk(after[i], pin, after[j], q);
      }
    }
    if comps[i].kinds[pin] == In || MayDrive(comps, i, pin, net) {
      forall j, p, k, q | 0 <= j < |after| && 0 <= k < |after| && Outputs(after[j], p) && Outputs(after[k], q) && (j != k || p != q)
        ensures ShareOk(after[j], p, after[k], q)
      {
        if !(j == i && p == pin) && !(k == i && q == pin) {
          assert Outputs(comps[j], p) && Outputs(comps[k], q);
          assert ShareOk(comps[j], p, comps[k], q);
        } else if !(j == i && p == pin) {
          assert Outputs(comps[j], p);
        } else {
          assert Outputs(comps[k], q);
        }
      }
    }
  }

  /** Fewer connected pins cannot create a short. */
  lemma FewerPinsNoShort(comps: seq<Instance>, fewer: seq<Instance>)
    requires |fewer| <= |comps| && NoShort(comps)
    requires forall k :: 0 <= k < |fewer| ==> fewer[k].kinds == comps[k].kinds
    requires forall k, p :: 0 <= k < |fewer| && p in fewer[k].pins ==> p in comps[k].pins && comps[k].pins[p] == fewer[k].pins[p]
    ensures NoShort(fewer)
  {
    forall j, p, k, q | 0 <= j < |fewer| && 0 <= k < |fewer| && Outputs(fewer[j], p) && Outputs(fewer[k], q) && (j != k || p != q)
      ensures ShareOk(fewer[j], p, fewer[k], q)
    {
      assert Outputs(comps[j], p) && Outputs(comps[k], q);
      assert ShareOk(comps[j], p, comps[k], q);
    }
  }

  /** An instance without connected pins plays no part in shorts. */
  lemma UnboundPlaysNoPart(comps: seq<Instance>, i: nat)
    requires i < |comps| && comps[i].pins == map[]
    ensures NoShort(comps) <==> NoShort(Without(comps, i))
  {
    var rest := Without(comps, i);
    if NoShort(rest) {
      forall j, p, k, q | 0 <= j < |comps| && 0 <= k < |comps| && Outputs(comps[j], p) && Outputs(comps[k], q) && (j != k || p != q)
        ensures ShareOk(comps[j], p, comps[k], q)
      {
        var j1 := if j < i then j else j - 1;
        var k1 := if k < i then k else k - 1;
        assert rest[j1] == comps[j] && rest[k1] == comps[k];
        assert ShareOk(rest[j1], p, rest[k1], q);
      }
    }
    if NoShort(comps) {
      forall j, p, k, q | 0 <= j < |rest| && 0 <= k < |rest| && Outputs(rest[j], p) && Outputs(rest[k], q) && (j != k || p != q)
        ensures ShareOk(rest[j], p, rest[k], q)
      {
        var j1 := if j < i then j else j + 1;
        var k1 := if k < i then k else k + 1;
        assert rest[j] == comps[j1] && rest[k] == comps[k1];
        assert ShareOk(comps[j1], p, comps[k1], q);
      }
    }
  }

  // ---- References between definitions ----

  ghost predicate RefersInto(d: Definition, names: set<string>) {
    exists r :: r in d.parts && r.ty.Some? && r.ty.value.name in names
  }

  /** Every definition named in the set has, whatever its parameters, a part whose definition is in the set. */
  ghost predicate Unfounded(lib: Library, names: set<string>) {
    && names <= lib.defs.Keys
    && forall t: Type :: t.name in names ==> RefersInto(lib.Def(t), names)
  }

  /** What a definition refers to does not depend on its parameters. */
  ghost predicate FixedReferences(lib: Library) {
    forall t: Type, u: Type, names: set<string> {:trigger RefersInto(lib.Def(t), names), RefersInto(lib.Def(u), names)} ::
      t.name in lib.defs && t.name == u.name ==> (RefersInto(lib.Def(t), names) <==> RefersInto(lib.Def(u), names))
  }

  ghost predicate RankBound(lib: Library, rank: map<string, nat>) {
    forall n :: n in rank ==> n in lib.defs && rank[n] < |lib.defs|
  }

  /** With fixed references every definition either has a rank or belongs to an unfounded set. */
  lemma RankedOrUnfounded(lib: Library) returns (rank: map<string, nat>, names: set<string>)
    requires FixedReferences(lib)
    ensures Ranked(lib, rank) && RankBound(lib, rank) && Unfounded(lib, names)
    ensures rank.Keys + names == lib.defs.Keys && rank.Keys !! names
  {
    rank, names := map[], lib.defs.Keys;
    assert Peeled(lib, rank, names);
    hide Peeled, Unfounded, Ranked, RankBound, FixedReferences;
    while !Unfounded(lib, names)
      invariant Peeled(lib, rank, names)
      decreases names
    {
      rank, names := PeelNext(lib, rank, names);
    }
    PeeledIsBound(lib, rank, names);
  }

  lemma PeeledIsBound(lib: Library, rank: map<string, nat>, names: set<string>)
    requires Peeled(lib, rank, names)
    ensures Ranked(lib, rank) && RankBound(lib, rank)
    ensures rank.Keys + names == lib.defs.Keys && rank.Keys !! names
  {
    hide Ranked;
    SubsetSize(rank.Keys, lib.defs.Keys);
    assert |rank| == |rank.Keys| && |lib.defs| == |lib.defs.Keys|;
  }

  lemma PeelNext(lib: Library, rank: map<string, nat>, names: set<string>) returns (rank1: map<string, nat>, names1: set<string>)
    requires FixedReferences(lib) && Peeled(lib, rank, names) && !Unfounded(lib, names)
    ensures Peeled(lib, rank1, names1) && names1 < names
  {
    var t: Type :| t.name in names && !RefersInto(lib.Def(t), names);
    PeelOne(lib, rank, names, t);
    rank1, names1 := rank[t.name := |rank|], names - {t.name};
  }

  lemma {:induction false} SubsetSize(a: set<string>, b: set<string>)
    requires a <= b
    ensures |a| <= |b|
    decreases a
  {
    if a != {} {
      var x :| x in a;
      SubsetSize(a - {x}, b - {x});
    }
  }

  /** The definitions ranked so far and the others; ranks count up. */
  ghost predicate Peeled(lib: Library, rank: map<string, nat>, names: set<string>) {
    && rank.Keys + names == lib.defs.Keys && rank.Keys !! names
    && Ranked(lib, rank) && (forall n :: n in rank ==> rank[n] < |rank|)
  }

  lemma PeelOne(lib: Library, rank: map<string, nat>, names: set<string>, t: Type)
    requires FixedReferences(lib) && Peeled(lib, rank, names)
    requires t.name in names && t.name in lib.defs && !RefersInto(lib.Def(t), names)
    ensures Peeled(lib, rank[t.name := |rank|], names - {t.name})
  {
    PeeledRanked(lib, rank, names, t);
    hide Ranked, FixedReferences, RefersInto;
    OneMoreKey(rank, t.name, |rank|);
    MovedAcross(rank.Keys, names, t.name);
  }

  lemma MovedAcross(a: set<string>, b: set<string>, x: string)
    requires a !! b && x in b
    ensures (a + {x}) + (b - {x}) == a + b && (a + {x}) !! (b - {x})
  {
  }

  lemma OneMoreKey(m: map<string, nat>, x: string, v: nat)
    requires x !in m
    ensures m[x := v].Keys == m.Keys + {x} && |m[x := v]| == |m| + 1
  {
    assert |m[x := v].Keys| == |m.Keys + {x}|;
  }

  lemma PeeledRanked(lib: Library, rank: map<string, nat>, names: set<string>, t: Type)
    requires FixedReferences(lib) && Peeled(lib, rank, names)
    requires t.name in names && t.name in lib.defs && !RefersInto(lib.Def(t), names)
    ensures Ranked(lib, rank[t.name := |rank|])
  {
    var rank1 := rank[t.name := |rank|];
    forall u: Type, r | u.name in lib.defs && u.name in rank1 && r in lib.Def(u).parts && r.ty.Some?
      ensures CoveredType(lib, rank1, r.ty.value)
      ensures r.ty.value.name in lib.defs ==> rank1[r.ty.value.name] < rank1[u.name]
    {
      if u.name == t.name {
        assert !RefersInto(lib.Def(u), names);
        assert r.ty.value.name !in names;
      } else {
        assert CoveredType(lib, rank, r.ty.value);
      }
    }
  }

  // ---- What every expansion of a run keeps ----

  ghost predicate HasComposite(lib: Library, comps: seq<Instance>) {
    exists i :: 0 <= i < |comps| && lib.IsComposite(comps[i].ty)
  }

  /** Some composite cannot be expanded. */
  ghost predicate Stuck(lib: Library, comps: seq<Instance>, nets: nat) {
    exists i :: 0 <= i < |comps| && lib.IsComposite(comps[i].ty) && !Expandable(lib, comps, nets, i)
  }

  /** The circuit still means what it meant at the start. */
  ghost predicate Kept(lib: Library, rank: map<string, nat>, comps0: seq<Instance>, nets0: nat, comps: seq<Instance>,
                       nets: nat)
  {
    && Ranked(lib, rank) && Covered(lib, rank, comps0) && Covered(lib, rank, comps)
    && SameMeaning(lib, rank, comps0, nets0, comps, nets)
  }

  /** Some instance's definition is in the unfounded set. */
  ghost predicate Mentions(lib: Library, names: set<string>, comps: seq<Instance>) {
    Unfounded(lib, names) && exists i :: 0 <= i < |comps| && comps[i].ty.name in names
  }

  /** From position first on, ranks are below the limit. */
  ghost predicate Below(lib: Library, rank: map<string, nat>, comps: seq<Instance>, first: int, limit: int) {
    forall k :: 0 <= k < |comps| && k >= first && comps[k].ty.name in lib.defs && comps[k].ty.name in rank ==>
      rank[comps[k].ty.name] < limit
  }

  ghost predicate NoneUndefined(lib: Library, comps: seq<Instance>, first: int) {
    forall k :: 0 <= k < |comps| && k >= first ==> comps[k].ty.name !in lib.undefined
  }

  /** An unfounded composite leaves an unfounded part behind. */
  lemma ReplacedMentions(lib: Library, names: set<string>, comps: seq<Instance>, nets: nat, i: nat,
                         comps1: seq<Instance>, nets1: nat, netMap: map<string, nat>)
    requires Replaced(lib, comps, nets, i, comps1, nets1, netMap) && Mentions(lib, names, comps)
    ensures Mentions(lib, names, comps1)
  {
    hide NetMapOk, Unfounded, PartsWired;
    var d := lib.Def(comps[i].ty);
    PartsCount(lib, comps, nets, i, comps1, nets1, netMap);
    var k :| 0 <= k < |comps| && comps[k].ty.name in names;
    if k != i {
      KeptInstance(comps, i, comps1, if k < i then k else k - 1);
    } else {
      UnfoundedPart(lib, names, comps[i].ty);
      var r :| r in d.parts && r.ty.Some? && r.ty.value.name in names;
      var j :| 0 <= j < |d.parts| && d.parts[j] == r;
      OneWired(d, comps1, |comps| - 1, netMap, j);
    }
  }

  lemma UnfoundedPart(lib: Library, names: set<string>, t: Type)
    requires Unfounded(lib, names) && t.name in names
    ensures t.name in lib.defs && RefersInto(lib.Def(t), names)
  {
  }

  lemma OneWired(d: Definition, comps: seq<Instance>, first: nat, netMap: map<string, nat>, j: nat)
    requires PartsWired(d, comps, first, netMap) && j < |d.parts|
    ensures |comps| == first + |d.parts| && Wired(d.parts[j], comps[first + j], netMap)
  {
  }

  /** Parts rank below the composite they replace. */
  lemma ReplacedLowers(lib: Library, rank: map<string, nat>, comps: seq<Instance>, nets: nat, i: nat,
                       comps1: seq<Instance>, nets1: nat, netMap: map<string, nat>, m: nat, limit: int)
    requires Replaced(lib, comps, nets, i, comps1, nets1, netMap) && i < m <= |comps|
    requires Ranked(lib, rank) && Covered(lib, rank, comps)
    requires Below(lib, rank, comps, 0, limit) && Below(lib, rank, comps, m, limit - 1)
    ensures limit >= 1 && Below(lib, rank, comps1, 0, limit) && Below(lib, rank, comps1, m - 1, limit - 1)
  {
    hide NetMapOk, PartsWired, Ranked;
    PartsAreCovered(lib, rank, comps, nets, i, comps1, nets1, netMap);
    assert CoveredType(lib, rank, comps[i].ty);
    assert |comps1| >= |comps| - 1 by { PartsCount(lib, comps, nets, i, comps1, nets1, netMap); }
    forall k | 0 <= k < |comps1| && comps1[k].ty.name in lib.defs && comps1[k].ty.name in rank
      ensures rank[comps1[k].ty.name] < limit && (k >= m - 1 ==> rank[comps1[k].ty.name] < limit - 1)
    {
      if k < |comps| - 1 {
        KeptInstance(comps, i, comps1, k);
      }
    }
  }

  lemma PartsCount(lib: Library, comps: seq<Instance>, nets: nat, i: nat, comps1: seq<Instance>, nets1: nat,
                   netMap: map<string, nat>)
    requires Replaced(lib, comps, nets, i, comps1, nets1, netMap)
    ensures |comps1| >= |comps| - 1
  {
  }

  lemma PlacedDefined(lib: Library, parts: seq<Recipe>, netMap: map<string, nat>, j: nat)
    requires PartsOk(lib, parts, netMap.Keys) && j < |parts|
    ensures PlacedParts(lib, parts, netMap)[j].ty.name !in lib.undefined
  {
    assert PartOk(lib, parts[j], netMap.Keys);
  }

  lemma ExpandDefined(lib: Library, comps: seq<Instance>, nets: nat, i: nat, m: nat)
    requires Expandable(lib, comps, nets, i) && i < m <= |comps| && NoneUndefined(lib, comps, m)
    ensures NoneUndefined(lib, Result(lib, comps, nets, i), m - 1)
  {
    var d := lib.Def(comps[i].ty);
    var netMap := NetMapOf(d, comps[i], nets).0;
    var parts := PlacedParts(lib, d.parts, netMap);
    var after := Result(lib, comps, nets, i);
    hide PlacedParts, NetMapOf;
    forall k | 0 <= k < |after| && k >= m - 1 ensures after[k].ty.name !in lib.undefined {
      if k < |comps| - 1 {
        assert after[k] == comps[k + 1];
      } else {
        var j := k - (|comps| - 1);
        PlacedDefined(lib, d.parts, netMap, j);
        assert after[k] == parts[j];
      }
    }
  }

  // ---- What can be expanded, in the terms of the definition ----

  lemma {:induction false} FreshMapKeys(names: seq<Name>, netMap: map<string, nat>, next: nat, a: string)
    requires NamesOk(names)
    ensures a in FreshMap(names, netMap, next).0 <==> a in netMap || Some(a) in names
  {
    if names != [] {
      assert names[0] in names;
      var rest := if names[0].value in netMap then netMap else netMap[names[0].value := next];
      FreshMapKeys(names[1..], rest, if names[0].value in netMap then next else next + 1, a);
      assert Some(a) in names <==> Some(a) == names[0] || Some(a) in names[1..];
    }
  }

  /** The inner net is declared, or exposed on a pin that is connected. */
  ghost predicate Known(d: Definition, c: Instance, a: string) {
    Some(a) in d.nets || exists p :: p in c.pins && p in d.Exposed() && d.Exposed()[p] == Some(a)
  }

  /** The part has a type that exists, the factory makes it, and each of its connections goes from a pin it has to a net that
      is known. */
  ghost predicate Buildable(lib: Library, d: Definition, c: Instance, r: Recipe) {
    && r.ty.Some? && r.creates && r.ty.value.name !in lib.undefined
    && forall p :: p in r.connections ==> p in r.pins && r.connections[p].Some? && Known(d, c, r.connections[p].value)
  }

  lemma KnownIsMapped(d: Definition, c: Instance, nets: nat, a: string)
    requires ExposeOk(d.Exposed(), c.pins) && NamesOk(d.nets)
    ensures a in NetMapOf(d, c, nets).0 <==> Known(d, c, a)
  {
    FreshMapKeys(d.nets, BoundMap(d.Exposed(), c.pins), nets, a);
    if a in BoundMap(d.Exposed(), c.pins) {
      var p :| p in d.Exposed() && p in c.pins && d.Exposed()[p].value == a;
      assert d.Exposed()[p] == Some(a);
    }
  }

  lemma PartOkIsBuildable(lib: Library, d: Definition, c: Instance, nets: nat, r: Recipe)
    requires ExposeOk(d.Exposed(), c.pins) && NamesOk(d.nets)
    ensures PartOk(lib, r, NetMapOf(d, c, nets).0.Keys) <==> Buildable(lib, d, c, r)
  {
    forall a ensures a in NetMapOf(d, c, nets).0 <==> Known(d, c, a) {
      KnownIsMapped(d, c, nets, a);
    }
    hide NetMapOf, Known, ExposeOk;
  }

  /** Everything the definition of the composite names is there. */
  ghost predicate CanBuild(lib: Library, c: Instance) {
    && c.ty.name in lib.defs
    && var d := lib.Def(c.ty);
    && (forall n :: n in d.nets ==> n.Some?)
    && (forall p :: p in c.pins && p in d.Exposed() ==> d.Exposed()[p].Some?)
    && (forall p, q :: p in c.pins && q in c.pins && p in d.Exposed() && q in d.Exposed() && d.Exposed()[p] == d.Exposed()[q] ==>
          c.pins[p] == c.pins[q])
    && (forall r :: r in d.parts ==> Buildable(lib, d, c, r))
  }

  /** Main result: a composite can be expanded exactly when its definition exists, the names of its nets and of its exposed
      connected pins resolve, no inner net is bound to two nets of the circuit, every part can be built, and no two outputs
      of the result get shorted. */
  lemma ExpandableExactly(lib: Library, comps: seq<Instance>, nets: nat, i: nat)
    requires i < |comps|
    ensures CanBuild(lib, comps[i]) ==> comps[i].ty.name in lib.defs && Resolves(lib, comps[i], nets)
    ensures Expandable(lib, comps, nets, i) <==> CanBuild(lib, comps[i]) && NoShort(Result(lib, comps, nets, i))
  {
    var c := comps[i];
    if c.ty.name in lib.defs {
      var d := lib.Def(c.ty);
      if ExposeOk(d.Exposed(), c.pins) && NamesOk(d.nets) {
        forall r | r in d.parts ensures PartOk(lib, r, NetMapOf(d, c, nets).0.Keys) <==> Buildable(lib, d, c, r) {
          PartOkIsBuildable(lib, d, c, nets, r);
        }
      }
    }
    hide NoShort, Result, Buildable, PartOk, NetMapOf;
  }
}
