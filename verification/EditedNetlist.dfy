/** A netlist built by edits, as the structural check and the scheduler see it. */
module EditedNetlist {
  import opened Wrappers
  import E = NetlistEdit
  import opened TickSpec

  /** The number of the net a pin is on, -1 for none. */
  ghost function NetId(nets: seq<E.Net>, net: Option<E.Key>): (id: int)
    ensures id == -1 || (0 <= id < |nets| && net == Some(nets[id].key))
    ensures net.Some? && E.IsNet(nets, net.value) ==> id >= 0
  {
    if net.Some? && E.IsNet(nets, net.value) then
      var i :| 0 <= i < |nets| && nets[i].key == net.value; i
    else -1
  }

  /** The same pins on the same nets. */
  ghost predicate SamePins(c: E.Component, nets: seq<E.Net>, k: Circuit, i: nat)
    requires i < |k.comps|
  {
    && |k.comps[i].inputs| == |c.inputs| && |k.comps[i].outputs| == |c.outputs|
    && (forall p :: 0 <= p < |c.inputs| ==> k.comps[i].inputs[p] == NetId(nets, c.inputs[p].net))
    && (forall o :: 0 <= o < |c.outputs| ==>
          k.comps[i].outputs[o].net == NetId(nets, c.outputs[o].net) && k.comps[i].outputs[o].tri == c.outputs[o].tri)
  }

  ghost predicate SameNetlist(comps: seq<E.Component>, nets: seq<E.Net>, k: Circuit) {
    |k.comps| == |comps| && k.nets == |nets| && forall i :: 0 <= i < |comps| ==> SamePins(comps[i], nets, k, i)
  }

  lemma OnIsOutOn(comps: seq<E.Component>, nets: seq<E.Net>, k: Circuit, d: Driver, net: int)
    requires E.Numbered(nets) && SameNetlist(comps, nets, k) && E.Attached(comps, nets) && 0 <= net < |nets|
    ensures On(k, d, net) <==> E.OutOn(comps, d.comp, d.out, nets[net].key)
  {
    if d.comp < |comps| && d.out < |comps[d.comp].outputs| {
      assert SamePins(comps[d.comp], nets, k, d.comp);
      var pin := comps[d.comp].outputs[d.out];
      assert comps[d.comp] in comps && pin in comps[d.comp].outputs;
      var id := NetId(nets, pin.net);
      if pin.net == Some(nets[net].key) {
        assert E.IsNet(nets, pin.net.value);
        assert nets[id].key == nets[net].key;
      }
    } else if d.comp < |comps| {
      assert SamePins(comps[d.comp], nets, k, d.comp);
    }
  }

  /** The entries are the tri-state drivers of the net, each once. */
  ghost predicate ListsDrivers(comps: seq<E.Component>, k: Circuit, net: nat, drivers: seq<E.Driver>) {
    && E.Distinct(drivers)
    && (forall d :: TriOn(k, d, net) ==> d.comp < |comps| && E.Driver(comps[d.comp].key, d.out) in drivers)
    && (forall e :: e in drivers ==> IsListed(comps, k, net, e))
  }

  ghost predicate IsListed(comps: seq<E.Component>, k: Circuit, net: nat, e: E.Driver) {
    exists d :: TriOn(k, d, net) && d.comp < |comps| && e == E.Driver(comps[d.comp].key, d.out)
  }

  /** Main result: a netlist that edits keep consistent has its pins in range and no shorted outputs, so the structural
      check can only ever reject it for a loop; and its table lists, for every net with two tri-state drivers, exactly
      those drivers. */
  lemma EditsPassTheDriverCheck(comps: seq<E.Component>, nets: seq<E.Net>, bus: map<nat, seq<E.Driver>>, k: Circuit)
    requires E.Consistent(comps, nets, bus) && SameNetlist(comps, nets, k)
    ensures PinsInRange(k) && SingleDriver(k)
    ensures forall net :: 0 <= net < k.nets && Shared(k, net) ==> net in bus && ListsDrivers(comps, k, net, bus[net])
  {
    forall i | 0 <= i < |k.comps|
      ensures forall p :: 0 <= p < |k.comps[i].inputs| ==> -1 <= k.comps[i].inputs[p] < k.nets
      ensures forall o :: 0 <= o < |k.comps[i].outputs| ==> -1 <= k.comps[i].outputs[o].net < k.nets
    {
      assert SamePins(comps[i], nets, k, i);
    }
    forall d, e, net | net >= 0 && On(k, d, net) && On(k, e, net) && d != e ensures PinOf(k, d).tri {
      OnIsOutOn(comps, nets, k, d, net);
      OnIsOutOn(comps, nets, k, e, net);
      assert SamePins(comps[d.comp], nets, k, d.comp);
      assert E.OutOn(comps, d.comp, d.out, nets[net].key) && E.OutOn(comps, e.comp, e.out, nets[net].key);
    }
    forall net: nat | net < k.nets && Shared(k, net) ensures net in bus && ListsDrivers(comps, k, net, bus[net]) {
      SharedEntry(comps, nets, bus, k, net);
    }
  }

  lemma SharedEntry(comps: seq<E.Component>, nets: seq<E.Net>, bus: map<nat, seq<E.Driver>>, k: Circuit, net: nat)
    requires E.Consistent(comps, nets, bus) && SameNetlist(comps, nets, k) && net < k.nets && Shared(k, net)
    ensures net in bus && ListsDrivers(comps, k, net, bus[net])
  {
    var a, b :| a != b && TriOn(k, a, net) && TriOn(k, b, net);
    SharedIsListed(comps, nets, bus, k, net, a);
    forall d | TriOn(k, d, net) ensures d.comp < |comps| && E.Driver(comps[d.comp].key, d.out) in bus[net] {
      SharedIsListed(comps, nets, bus, k, net, d);
    }
    assert E.EntrySound(comps, nets[net].key, bus[net]);
    forall e | e in bus[net] ensures IsListed(comps, k, net, e) {
      assert E.DriverOn(comps, e, nets[net].key);
      EntryIsDriver(comps, nets, bus, k, net, e, a, b);
    }
  }

  /** What an entry of a shared net lists is a tri-state driver of it, because plain outputs never share. */
  lemma EntryIsDriver(comps: seq<E.Component>, nets: seq<E.Net>, bus: map<nat, seq<E.Driver>>, k: Circuit, net: nat,
                      e: E.Driver, a: Driver, b: Driver)
    requires E.Consistent(comps, nets, bus) && SameNetlist(comps, nets, k) && net < k.nets
    requires a != b && TriOn(k, a, net) && TriOn(k, b, net) && E.DriverOn(comps, e, nets[net].key)
    ensures IsListed(comps, k, net, e)
  {
    var m: nat :| m < |comps| && comps[m].key == e.comp && E.OutOn(comps, m, e.out, nets[net].key);
    var d := Driver(m, e.out);
    OnIsOutOn(comps, nets, k, d, net);
    OnIsOutOn(comps, nets, k, a, net);
    OnIsOutOn(comps, nets, k, b, net);
    var c := if a != d then a else b;
    assert E.OutOn(comps, c.comp, c.out, nets[net].key);
    assert SamePins(comps[m], nets, k, m);
  }

  lemma SharedIsListed(comps: seq<E.Component>, nets: seq<E.Net>, bus: map<nat, seq<E.Driver>>, k: Circuit, net: nat, d: Driver)
    requires E.Consistent(comps, nets, bus) && SameNetlist(comps, nets, k)
    requires net < k.nets && Shared(k, net) && TriOn(k, d, net)
    ensures d.comp < |comps| && net in bus && E.Driver(comps[d.comp].key, d.out) in bus[net]
  {
    var a, b :| a != b && TriOn(k, a, net) && TriOn(k, b, net);
    var e := if a != d then a else b;
    OnIsOutOn(comps, nets, k, d, net);
    OnIsOutOn(comps, nets, k, e, net);
    E.Listed(comps, nets, bus, net, d.comp, d.out, e.comp, e.out);
  }
}
