/** The circuit while its composites are being expanded: comps and nets grow in place and roll back on failure. */
module Expansion {
  import opened Wrappers
  import opened Flatten
  import opened ExpandSpec

  datatype Outcome = Expanded | Failed | Cyclic

  lemma BoundMapSkip(expose: map<string, Name>, pins: map<string, nat>, p: string, name: Name)
    requires p !in expose && ExposeOk(expose, pins) && p !in pins
    ensures ExposeOk(expose[p := name], pins) && BoundMap(expose[p := name], pins) == BoundMap(expose, pins)
  {
    hide BoundMap;
    var more := expose[p := name];
    assert forall q, a :: Binds(more, pins, q, a) <==> Binds(expose, pins, q, a);
    assert ExposeOk(more, pins);
    BoundMapExact(expose, pins);
    BoundMapExact(more, pins);
    SameMap(BoundMap(more, pins), BoundMap(expose, pins), expose, pins);
  }

  lemma SameMap(m: map<string, nat>, n: map<string, nat>, expose: map<string, Name>, pins: map<string, nat>)
    requires forall a :: a in m ==> exists p :: Binds(expose, pins, p, a)
    requires forall a :: a in n ==> exists p :: Binds(expose, pins, p, a)
    requires forall p, a :: Binds(expose, pins, p, a) ==> a in m && m[a] == pins[p]
    requires forall p, a :: Binds(expose, pins, p, a) ==> a in n && n[a] == pins[p]
    ensures m == n
  {
    forall a ensures a in m <==> a in n {
    }
    forall a | a in m ensures m[a] == n[a] {
      var p :| Binds(expose, pins, p, a);
    }
  }

  ghost predicate Binds(expose: map<string, Name>, pins: map<string, nat>, p: string, a: string) {
    p in expose && p in pins && expose[p] == Some(a)
  }

  lemma BoundMapExact(expose: map<string, Name>, pins: map<string, nat>)
    requires ExposeOk(expose, pins)
    ensures forall a :: a in BoundMap(expose, pins) ==> exists p :: Binds(expose, pins, p, a)
    ensures forall p, a :: Binds(expose, pins, p, a) ==>
      a in BoundMap(expose, pins) && BoundMap(expose, pins)[a] == pins[p]
  {
    forall a | a in BoundMap(expose, pins) ensures exists p :: Binds(expose, pins, p, a) {
      var p :| p in expose && p in pins && expose[p].value == a;
      assert Binds(expose, pins, p, a);
    }
  }

  /** One more pin fits exactly when its net name resolves and is not bound to another net. */
  lemma BoundMapFits(expose: map<string, Name>, pins: map<string, nat>, p: string, name: Name)
    requires p !in expose && ExposeOk(expose, pins) && p in pins
    ensures ExposeOk(expose[p := name], pins) <==>
      name.Some? && (name.value in BoundMap(expose, pins) ==> BoundMap(expose, pins)[name.value] == pins[p])
  {
    var m := BoundMap(expose, pins);
    var more := expose[p := name];
    BoundMapExact(expose, pins);
    if ExposeOk(more, pins) && name.value in m {
      var q :| Binds(expose, pins, q, name.value);
      assert more[p] == more[q];
    }
    if name.Some? && (name.value in m ==> m[name.value] == pins[p]) {
      forall q | q in expose && q in pins && expose[q] == name ensures pins[q] == pins[p] {
        assert Binds(expose, pins, q, name.value);
      }
    }
  }

  lemma BoundMapSnoc(expose: map<string, Name>, pins: map<string, nat>, p: string, name: Name)
    requires p !in expose && ExposeOk(expose, pins) && p in pins && ExposeOk(expose[p := name], pins)
    ensures BoundMap(expose[p := name], pins) == BoundMap(expose, pins)[name.value := pins[p]]
  {
    hide ExposeOk, BoundMap;
    var more := expose[p := name];
    var m := BoundMap(expose, pins);
    assert name.Some? by { BoundMapFits(expose, pins, p, name); }
    BoundMapExact(expose, pins);
    BoundMapExact(more, pins);
    assert Binds(more, pins, p, name.value);
    forall a ensures a in BoundMap(more, pins) <==> a in m || a == name.value {
      if a in BoundMap(more, pins) && a != name.value {
        var q :| Binds(more, pins, q, a);
        assert Binds(expose, pins, q, a);
      }
      if a in m {
        var q :| Binds(expose, pins, q, a);
        assert Binds(more, pins, q, a);
      }
    }
    forall a | a in m && a != name.value ensures BoundMap(more, pins)[a] == m[a] {
      var q :| Binds(expose, pins, q, a);
      assert Binds(more, pins, q, a);
    }
  }

  /** Bind the exposed and connected pins of one direction to their inner nets, in any order. */
  method BindExposed(ghost earlier: map<string, Name>, expose: map<string, Name>, pins: map<string, nat>,
                     netMap0: map<string, nat>)
    returns (ok: bool, netMap: map<string, nat>)
    requires earlier.Keys !! expose.Keys && ExposeOk(earlier, pins) && netMap0 == BoundMap(earlier, pins)
    ensures ok <==> ExposeOk(earlier + expose, pins)
    ensures ok ==> netMap == BoundMap(earlier + expose, pins)
  {
    hide ExposeOk, BoundMap;
    netMap := netMap0;
    var todo := expose.Keys;
    ghost var done := earlier;
    while todo != {}
      invariant todo <= expose.Keys && done == earlier + (expose - todo)
      invariant ExposeOk(done, pins) && netMap == BoundMap(done, pins)
    {
      var p :| p in todo;
      if p in pins {
        BoundMapFits(done, pins, p, expose[p]);
        if expose[p].None? || (expose[p].value in netMap && netMap[expose[p].value] != pins[p]) {
          FewerExposed(earlier + expose, done[p := expose[p]], pins);
          return false, netMap;
        }
        BoundMapSnoc(done, pins, p, expose[p]);
        netMap := netMap[expose[p].value := pins[p]];
      } else {
        BoundMapSkip(done, pins, p, expose[p]);
      }
      done := done[p := expose[p]];
      todo := todo - {p};
    }
    assert done == earlier + expose;
    ok := true;
  }

  lemma FewerExposed(expose: map<string, Name>, fewer: map<string, Name>, pins: map<string, nat>)
    requires forall p :: p in fewer ==> p in expose && fewer[p] == expose[p]
    ensures ExposeOk(expose, pins) ==> ExposeOk(fewer, pins)
  {
  }

  lemma {:induction false} FreshMapSnoc(names: seq<Name>, name: Name, netMap: map<string, nat>, next: nat)
    requires NamesOk(names) && name.Some?
    ensures NamesOk(names + [name])
    ensures var (m, n) := FreshMap(names, netMap, next);
      FreshMap(names + [name], netMap, next) == if name.value in m then (m, n) else (m[name.value := n], n + 1)
  {
    var all := names + [name];
    if names == [] {
      assert all[1..] == [];
    } else {
      assert all[1..] == names[1..] + [name];
      if names[0].value in netMap {
        FreshMapSnoc(names[1..], name, netMap, next);
      } else {
        FreshMapSnoc(names[1..], name, netMap[names[0].value := next], next + 1);
      }
    }
  }

  /** The part with only some of its pins connected so far. */
  ghost function PartlyPlaced(r: Recipe, netMap: map<string, nat>, done: set<string>): Instance
    requires r.ty.Some? && done <= r.connections.Keys
    requires forall p :: p in done ==> r.connections[p].Some? && r.connections[p].value in netMap
  {
    Instance(r.ty.value, r.pins, map p | p in done :: netMap[r.connections[p].value])
  }

  /** Outputs first, then inputs. */
  method BindPins(d: Definition, pins: map<string, nat>) returns (ok: bool, netMap: map<string, nat>)
    ensures ok <==> ExposeOk(d.Exposed(), pins)
    ensures ok ==> netMap == BoundMap(d.Exposed(), pins)
  {
    var outs := d.outExpose - d.inExpose.Keys;
    assert map[] + outs == outs;
    assert outs + d.inExpose == d.Exposed();
    ok, netMap := BindExposed(map[], outs, pins, map[]);
    if ok {
      ok, netMap := BindExposed(outs, d.inExpose, pins, netMap);
    } else {
      FewerExposed(d.Exposed(), outs, pins);
    }
  }

  class Circuit {
    var comps: seq<Instance>
    var nets: nat

    ghost predicate Valid()
      reads this
    {
      PinsInRange(comps, nets) && PinsKnown(comps) && NoShort(comps)
    }

    method CreateNet() returns (net: nat)
      requires Valid()
      modifies this`nets
      ensures Valid() && net == old(nets) && nets == old(nets) + 1
    {
      net := nets;
      nets := nets + 1;
    }

    /** Connect a pin. It fails, changing nothing, exactly when the pin does not exist or an output would be shorted. */
    method Connect(i: nat, pin: string, net: nat) returns (ok: bool)
      requires Valid() && i < |comps| && net < nets
      modifies this`comps
      ensures Valid()
      ensures ok <==>
        pin in old(comps[i].kinds) && (old(comps[i].kinds[pin]) == In || MayDrive(old(comps), i, pin, net))
      ensures comps == if ok then Rewired(old(comps), i, pin, net) else old(comps)
    {
      if pin !in comps[i].kinds {
        return false;
      }
      if comps[i].kinds[pin] != In {
        var clash := FindClash(i, pin, net);
        if clash {
          return false;
        }
      }
      ConnectKeepsNoShort(comps, i, pin, net);
      comps := comps[i := comps[i].(pins := comps[i].pins[pin := net])];
      return true;
    }

    /** Scan every output on the net. */
    method FindClash(i: nat, pin: string, net: nat) returns (clash: bool)
      requires i < |comps| && pin in comps[i].kinds
      ensures clash <==> !MayDrive(comps, i, pin, net)
    {
      var j := 0;
      while j < |comps|
        invariant j <= |comps|
        invariant forall k, q :: 0 <= k < j && Outputs(comps[k], q) && comps[k].pins[q] == net && (k != i || q != pin) ==>
          comps[k].kinds[q] == OutTri && comps[i].kinds[pin] == OutTri
      {
        var todo := comps[j].pins.Keys;
        while todo != {}
          invariant todo <= comps[j].pins.Keys
          invariant forall q :: q !in todo && Outputs(comps[j], q) && comps[j].pins[q] == net && (j != i || q != pin) ==>
            comps[j].kinds[q] == OutTri && comps[i].kinds[pin] == OutTri
        {
          var q :| q in todo;
          if Outputs(comps[j], q) && comps[j].pins[q] == net && (j != i || q != pin) &&
             (comps[i].kinds[pin] != OutTri || comps[j].kinds[q] != OutTri) {
            return true;
          }
          todo := todo - {q};
        }
        j := j + 1;
      }
      return false;
    }

    /** Create one part and connect its pins, in any order. */
    method AddPart(lib: Library, r: Recipe, netMap: map<string, nat>) returns (ok: bool)
      requires Valid() && forall a :: a in netMap ==> netMap[a] < nets
      modifies this`comps
      ensures Valid() && |comps| >= |old(comps)| && comps[..|old(comps)|] == old(comps)
      ensures ok <==> PartOk(lib, r, netMap.Keys) && NoShort(old(comps) + [Placed(r, netMap)])
      ensures ok ==> comps == old(comps) + [Placed(r, netMap)]
    {
      ghost var base := comps;
      if r.ty.None? || !r.creates || r.ty.value.name in lib.undefined {
        return false;
      }
      comps := comps + [Instance(r.ty.value, r.pins, map[])];
      AddUnbound(base, Instance(r.ty.value, r.pins, map[]));
      var todo := r.connections.Keys;
      ghost var done: set<string> := {};
      assert comps[|base|] == PartlyPlaced(r, netMap, done);
      while todo != {}
        invariant todo <= r.connections.Keys && done == r.connections.Keys - todo && done <= r.pins.Keys
        invariant forall p :: p in done ==> r.connections[p].Some? && r.connections[p].value in netMap
        invariant comps == base + [PartlyPlaced(r, netMap, done)]
        invariant Valid()
      {
        var p :| p in todo;
        if r.connections[p].None? || r.connections[p].value !in netMap {
          return false;
        }
        var connected := Connect(|comps| - 1, p, netMap[r.connections[p].value]);
        if !connected {
          if PartOk(lib, r, netMap.Keys) && NoShort(base + [Placed(r, netMap)]) {
            StillShort(base, r, netMap, done, p);
            assert false;
          }
          return false;
        }
        PartlySnoc(base, r, netMap, done, p);
        done := done + {p};
        todo := todo - {p};
      }
      AllPlaced(r, netMap, done);
      return true;
    }

    /** Bind the exposed pins, create the other inner nets, give up the instance's own pins, then create the parts.
        On failure what was created so far is left behind. */
    method ExpandTo(lib: Library, i: nat) returns (ok: bool)
      requires Valid() && i < |comps| && comps[i].ty.name in lib.defs
      modifies this
      ensures |comps| >= |old(comps)| && nets >= old(nets)
      ensures comps[..|old(comps)|] == old(comps)[i := old(comps[i]).(pins := comps[i].pins)]
      ensures ok <==> Expandable(lib, old(comps), old(nets), i)
      ensures ok ==> Valid() && Without(comps, i) == Result(lib, old(comps), old(nets), i)
      ensures ok ==> nets == ResultNets(lib, old(comps), old(nets), i)
    {
      hide NoShort, FreshMap, BoundMap, PlacedParts, PartsOk, ExposeOk, NamesOk;
      ghost var comps0, nets0 := comps, nets;
      var c := comps[i];
      var d := lib.Def(c.ty);
      var bound, netMap := BindPins(d, c.pins);
      if !bound {
        return false;
      }
      var named;
      named, netMap := CreateNets(d.nets, netMap);
      if !named {
        return false;
      }
      PinsOfOne(comps0, nets0, i);
      NetMapOfOk(d, c, nets0);
      comps := comps[i := c.(pins := map[])];
      FewerPinsNoShort(comps0, comps);
      assert Valid();
      ok := CreateParts(lib, d.parts, netMap, i, comps0);
    }

    method CreateNets(names: seq<Name>, bound: map<string, nat>) returns (ok: bool, netMap: map<string, nat>)
      requires Valid()
      modifies this`nets
      ensures Valid() && nets >= old(nets)
      ensures ok <==> NamesOk(names)
      ensures ok ==> (netMap, nets) == FreshMap(names, bound, old(nets))
    {
      netMap := bound;
      var k := 0;
      while k < |names|
        invariant k <= |names| && NamesOk(names[..k])
        invariant (netMap, nets) == FreshMap(names[..k], bound, old(nets)) && nets >= old(nets) && Valid()
      {
        if names[k].None? {
          assert names[k] in names;
          return false, netMap;
        }
        FreshMapSnoc(names[..k], names[k], bound, old(nets));
        assert names[..k + 1] == names[..k] + [names[k]];
        if names[k].value !in netMap {
          var net := CreateNet();
          netMap := netMap[names[k].value := net];
        }
        k := k + 1;
      }
      assert names[..k] == names;
      ok := true;
    }

    /** Create the parts of instance i, which has given up its pins. */
    method CreateParts(lib: Library, parts: seq<Recipe>, netMap: map<string, nat>, i: nat, ghost comps0: seq<Instance>)
      returns (ok: bool)
      requires Valid() && i < |comps| == |comps0| && comps == comps0[i := comps[i]] && comps[i].pins == map[]
      requires forall a :: a in netMap ==> netMap[a] < nets
      modifies this`comps
      ensures Valid() && |comps| >= |old(comps)| && comps[..|old(comps)|] == old(comps)
      ensures ok <==>
        PartsOk(lib, parts, netMap.Keys) && NoShort(Without(comps0, i) + PlacedParts(lib, parts, netMap))
      ensures ok ==> Without(comps, i) == Without(comps0, i) + PlacedParts(lib, parts, netMap)
    {
      ghost var base := comps;
      var j := 0;
      while j < |parts|
        invariant j <= |parts| && PartsOk(lib, parts[..j], netMap.Keys)
        invariant Valid() && comps == base + PlacedParts(lib, parts[..j], netMap)
      {
        ghost var before := comps;
        var added := AddPart(lib, parts[j], netMap);
        if !added {
          assert comps[..|base|] == comps[..|before|][..|base|] == base;
          if PartsOk(lib, parts, netMap.Keys) && NoShort(Without(comps0, i) + PlacedParts(lib, parts, netMap)) {
            PrefixNoShort(lib, parts, netMap, base, comps0, i, j);
            assert false;
          }
          return false;
        }
        PlacedSnoc(lib, parts, netMap, j);
        j := j + 1;
      }
      assert parts[..j] == parts;
      UnboundPlaysNoPart(comps, i);
      WithoutAppend(base, comps0, i, PlacedParts(lib, parts, netMap));
      return true;
    }

    /** Expand one composite. If that fails the circuit is exactly what it was before. */
    method ExpandOne(lib: Library, i: nat) returns (ok: bool)
      requires Valid() && i < |comps| && lib.IsComposite(comps[i].ty)
      modifies this
      ensures Valid()
      ensures ok <==> Expandable(lib, old(comps), old(nets), i)
      ensures ok ==> comps == Result(lib, old(comps), old(nets), i) && nets == ResultNets(lib, old(comps), old(nets), i)
      ensures !ok ==> comps == old(comps) && nets == old(nets)
    {
      var compBefore, netBefore, pins := |comps|, nets, comps[i].pins;
      if comps[i].ty.name !in lib.defs {
        return false;
      }
      ghost var comps0 := comps;
      ok := ExpandTo(lib, i);
      if ok {
        ExpandIsReplacement(lib, comps0, netBefore, i);
        comps := comps[..i] + comps[i + 1..];
      } else {
        comps := comps[..compBefore];
        nets := netBefore;
        comps := comps[i := comps[i].(pins := pins)];
        assert comps == comps0;
      }
    }

    /** One round: every composite present at its start is replaced by its parts, in order; the parts go to the end. */
    method ExpandRound(lib: Library, ghost rank: map<string, nat>, ghost names: set<string>, ghost limit: int,
                       ghost comps0: seq<Instance>, ghost nets0: nat)
      returns (ok: bool, found: bool)
      requires Valid()
      modifies this
      ensures Valid()
      ensures ok ==> (found <==> HasComposite(lib, old(comps))) && NoneUndefined(lib, comps, 0)
      ensures ok && !found ==> comps == old(comps) && nets == old(nets)
      ensures !ok ==> Stuck(lib, comps, nets)
      ensures Kept(lib, rank, comps0, nets0, old(comps), old(nets)) ==> Kept(lib, rank, comps0, nets0, comps, nets)
      ensures Mentions(lib, names, old(comps)) ==> Mentions(lib, names, comps)
      ensures ok && Kept(lib, rank, comps0, nets0, old(comps), old(nets)) && Below(lib, rank, old(comps), 0, limit) ==>
        Below(lib, rank, comps, 0, limit - 1) && (found ==> limit >= 1)
    {
      hide Kept, Mentions, Expandable, NoShort, PinsInRange, PinsKnown;
      ghost var ranked := Kept(lib, rank, comps0, nets0, comps, nets) && Below(lib, rank, comps, 0, limit);
      found := false;
      var i, m := 0, |comps|;
      while i < m
        invariant i <= m <= |comps| && Valid()
        invariant forall k :: 0 <= k < i ==> !lib.IsComposite(comps[k].ty)
        invariant found ==> HasComposite(lib, old(comps))
        invariant !found ==> comps == old(comps) && nets == old(nets) && m == |comps|
        invariant NoneUndefined(lib, comps, m)
        invariant Kept(lib, rank, comps0, nets0, old(comps), old(nets)) ==> Kept(lib, rank, comps0, nets0, comps, nets)
        invariant Mentions(lib, names, old(comps)) ==> Mentions(lib, names, comps)
        invariant ranked ==> Below(lib, rank, comps, 0, limit) && Below(lib, rank, comps, m, limit - 1) && (found ==> limit >= 1)
        decreases m - i
      {
        if lib.IsComposite(comps[i].ty) {
          ghost var before, netsBefore := comps, nets;
          ok := ExpandOne(lib, i);
          if !ok {
            return false, found;
          }
          ExpandStep(lib, rank, names, comps0, nets0, before, netsBefore, i, m, limit);
          found := true;
          m := m - 1;
        } else {
          i := i + 1;
        }
      }
      ok := true;
    }

    /** Expand until no composite is left, for at most two rounds more than there are definitions. */
    method ExpandComposites(lib: Library, ghost rank: map<string, nat>, ghost names: set<string>)
      returns (outcome: Outcome)
      requires Valid()
      modifies this
      ensures Valid()
      ensures outcome == Expanded ==> !HasComposite(lib, comps)
      ensures outcome == Failed ==> Stuck(lib, comps, nets)
      ensures Ranked(lib, rank) && Covered(lib, rank, old(comps)) ==>
        Kept(lib, rank, old(comps), old(nets), comps, nets) && (RankBound(lib, rank) ==> outcome != Cyclic)
      ensures Mentions(lib, names, old(comps)) ==> outcome != Expanded
    {
      hide Ranked, Covered, SameMeaning, Stuck, NoShort;
      ghost var ranked := Ranked(lib, rank) && Covered(lib, rank, comps);
      if Ranked(lib, rank) && Covered(lib, rank, comps) {
        SameMeaningRefl(lib, rank, comps, nets);
      }
      var maxRounds := |lib.defs| + 2;
      var round := 0;
      var found := true;
      while found
        invariant round <= maxRounds && Valid()
        invariant !found ==> !HasComposite(lib, comps)
        invariant ranked ==> Kept(lib, rank, old(comps), old(nets), comps, nets)
        invariant Mentions(lib, names, old(comps)) ==> Mentions(lib, names, comps)
        invariant ranked && RankBound(lib, rank) && found ==>
          round <= |lib.defs| && Below(lib, rank, comps, 0, |lib.defs| - round)
        decreases maxRounds - round, found
      {
        round := round + 1;
        if round > maxRounds {
          return Cyclic;
        }
        var ok;
        ok, found := ExpandRound(lib, rank, names, |lib.defs| - round + 1, old(comps), old(nets));
        if !ok {
          return Failed;
        }
      }
      return Expanded;
    }
  }

  lemma ExpandStep(lib: Library, rank: map<string, nat>, names: set<string>, comps0: seq<Instance>, nets0: nat,
                   comps: seq<Instance>, nets: nat, i: nat, m: nat, limit: int)
    requires Expandable(lib, comps, nets, i) && PinsInRange(comps, nets) && PinsKnown(comps) && i < m <= |comps|
    ensures var comps1, nets1 := Result(lib, comps, nets, i), ResultNets(lib, comps, nets, i);
      && |comps1| >= m - 1 && comps1[..i] == comps[..i]
      && (Kept(lib, rank, comps0, nets0, comps, nets) ==> Kept(lib, rank, comps0, nets0, comps1, nets1))
      && (Mentions(lib, names, comps) ==> Mentions(lib, names, comps1))
      && (NoneUndefined(lib, comps, m) ==> NoneUndefined(lib, comps1, m - 1))
      && (Kept(lib, rank, comps0, nets0, comps, nets) && Below(lib, rank, comps, 0, limit) &&
          Below(lib, rank, comps, m, limit - 1) ==>
            limit >= 1 && Below(lib, rank, comps1, 0, limit) && Below(lib, rank, comps1, m - 1, limit - 1))
  {
    hide Mentions, Below, NoneUndefined, Kept, NoShort, PinsInRange, PinsKnown, FreshMap, BoundMap, Replaced;
    var comps1, nets1 := Result(lib, comps, nets, i), ResultNets(lib, comps, nets, i);
    ExpandIsReplacement(lib, comps, nets, i);
    if NoneUndefined(lib, comps, m) {
      ExpandDefined(lib, comps, nets, i, m);
    }
    ReplacedStep(lib, rank, names, comps0, nets0, comps, nets, i, comps1, nets1,
      NetMapOf(lib.Def(comps[i].ty), comps[i], nets).0, m, limit);
  }

  lemma ReplacedStep(lib: Library, rank: map<string, nat>, names: set<string>, comps0: seq<Instance>, nets0: nat,
                     comps: seq<Instance>, nets: nat, i: nat, comps1: seq<Instance>, nets1: nat,
                     netMap: map<string, nat>, m: nat, limit: int)
    requires Replaced(lib, comps, nets, i, comps1, nets1, netMap) && PinsInRange(comps, nets) && i < m <= |comps|
    ensures Kept(lib, rank, comps0, nets0, comps, nets) ==> Kept(lib, rank, comps0, nets0, comps1, nets1)
    ensures Mentions(lib, names, comps) ==> Mentions(lib, names, comps1)
    ensures (Kept(lib, rank, comps0, nets0, comps, nets) && Below(lib, rank, comps, 0, limit) &&
             Below(lib, rank, comps, m, limit - 1)) ==>
      limit >= 1 && Below(lib, rank, comps1, 0, limit) && Below(lib, rank, comps1, m - 1, limit - 1)
  {
    hide Mentions, Below, SameMeaning, Ranked, Covered, Replaced;
    if Kept(lib, rank, comps0, nets0, comps, nets) {
      SameMeaningStep(lib, rank, comps0, nets0, comps, nets, i, comps1, nets1, netMap);
      if Below(lib, rank, comps, 0, limit) && Below(lib, rank, comps, m, limit - 1) {
        ReplacedLowers(lib, rank, comps, nets, i, comps1, nets1, netMap, m, limit);
      }
    }
    if Mentions(lib, names, comps) {
      ReplacedMentions(lib, names, comps, nets, i, comps1, nets1, netMap);
    }
  }

  lemma PartlySnoc(base: seq<Instance>, r: Recipe, netMap: map<string, nat>, done: set<string>, p: string)
    requires r.ty.Some? && done + {p} <= r.connections.Keys
    requires forall q :: q in done + {p} ==> r.connections[q].Some? && r.connections[q].value in netMap
    ensures Rewired(base + [PartlyPlaced(r, netMap, done)], |base|, p, netMap[r.connections[p].value]) ==
            base + [PartlyPlaced(r, netMap, done + {p})]
  {
    assert PartlyPlaced(r, netMap, done + {p}).pins ==
           PartlyPlaced(r, netMap, done).pins[p := netMap[r.connections[p].value]];
  }

  lemma AddUnbound(base: seq<Instance>, c: Instance)
    requires NoShort(base) && c.pins == map[]
    ensures NoShort(base + [c])
  {
    var all := base + [c];
    assert Without(all, |base|) == base;
    UnboundPlaysNoPart(all, |base|);
  }

  lemma AllPlaced(r: Recipe, netMap: map<string, nat>, done: set<string>)
    requires r.ty.Some? && ConnectionsIn(r, netMap.Keys) && done == r.connections.Keys
    ensures PartlyPlaced(r, netMap, done) == Placed(r, netMap)
  {
  }

  /** A part that would be shorted half connected would be shorted fully connected. */
  lemma StillShort(base: seq<Instance>, r: Recipe, netMap: map<string, nat>, done: set<string>, p: string)
    requires r.ty.Some? && ConnectionsIn(r, netMap.Keys) && done <= r.connections.Keys && p in r.connections.Keys
    requires p in r.pins && NoShort(base + [PartlyPlaced(r, netMap, done)]) && NoShort(base + [Placed(r, netMap)])
    ensures r.pins[p] == In ||
      MayDrive(base + [PartlyPlaced(r, netMap, done)], |base|, p, netMap[r.connections[p].value])
  {
    var now := base + [PartlyPlaced(r, netMap, done)];
    var net := netMap[r.connections[p].value];
    var after := Rewired(now, |base|, p, net);
    FewerPinsNoShort(base + [Placed(r, netMap)], after);
    ConnectKeepsNoShort(now, |base|, p, net);
  }

  lemma PlacedSnoc(lib: Library, parts: seq<Recipe>, netMap: map<string, nat>, j: nat)
    requires j < |parts| && PartsOk(lib, parts[..j], netMap.Keys) && PartOk(lib, parts[j], netMap.Keys)
    ensures PartsOk(lib, parts[..j + 1], netMap.Keys)
    ensures PlacedParts(lib, parts[..j + 1], netMap) == PlacedParts(lib, parts[..j], netMap) + [Placed(parts[j], netMap)]
  {
    assert parts[..j + 1] == parts[..j] + [parts[j]];
  }

  lemma WithoutAppend(base: seq<Instance>, comps0: seq<Instance>, i: nat, more: seq<Instance>)
    requires i < |base| == |comps0| && base == comps0[i := base[i]]
    ensures Without(base + more, i) == Without(comps0, i) + more
  {
  }

  /** If all the parts can be placed without a short, so can the first ones. */
  lemma PrefixNoShort(lib: Library, parts: seq<Recipe>, netMap: map<string, nat>, base: seq<Instance>,
                      comps0: seq<Instance>, i: nat, j: nat)
    requires i < |base| == |comps0| && base == comps0[i := base[i]] && base[i].pins == map[] && j < |parts|
    requires PartsOk(lib, parts, netMap.Keys) && NoShort(Without(comps0, i) + PlacedParts(lib, parts, netMap))
    ensures PartOk(lib, parts[j], netMap.Keys) && PartsOk(lib, parts[..j], netMap.Keys)
    ensures NoShort(base + PlacedParts(lib, parts[..j], netMap) + [Placed(parts[j], netMap)])
  {
    PrefixIsOk(lib, parts, netMap.Keys, j);
    hide NoShort, PartOk, PartsOk, Placed;
    var placed := PlacedParts(lib, parts, netMap);
    var first := PlacedParts(lib, parts[..j], netMap);
    var all := base + placed;
    WithoutAppend(base, comps0, i, placed);
    UnboundPlaysNoPart(all, i);
    var some := base + first + [Placed(parts[j], netMap)];
    forall n | 0 <= n < |some| ensures some[n] == all[n] {
      if |base| <= n < |base| + j {
        assert some[n] == first[n - |base|];
      }
    }
    FewerPinsNoShort(all, some);
  }

  lemma PrefixIsOk(lib: Library, parts: seq<Recipe>, names: set<string>, j: nat)
    requires PartsOk(lib, parts, names) && j < |parts|
    ensures PartOk(lib, parts[j], names) && PartsOk(lib, parts[..j], names)
  {
    assert parts[j] in parts;
    hide PartOk;
  }
}
