/** The netlist itself: components, nets and the table of shared nets, edited in place. */
module NetlistEditor {
  import opened Wrappers
  import opened NetlistEdit

  lemma DistinctAdd(drivers: seq<Driver>, d: Driver)
    requires Distinct(drivers) && d !in drivers
    ensures Distinct(drivers + [d])
  {
  }

  /** Append the drivers that are not listed yet. */
  method AddDrivers(drivers: seq<Driver>, more: seq<Driver>) returns (entry: seq<Driver>)
    requires Distinct(drivers)
    ensures Distinct(entry) && forall d :: d in entry <==> d in drivers || d in more
  {
    entry := drivers;
    var j := 0;
    while j < |more|
      invariant j <= |more| && Distinct(entry)
      invariant forall d :: d in entry <==> d in drivers || d in more[..j]
    {
      if more[j] !in entry {
        DistinctAdd(entry, more[j]);
        entry := entry + [more[j]];
      }
      j := j + 1;
    }
  }

  /** An other driver met before output j of component c in the scan. */
  ghost predicate Met(comps: seq<Component>, k: nat, o: nat, net: Key, d: Driver, c: nat, j: nat) {
    exists l :: 0 <= l < |comps| && comps[l].key == d.comp && OutOn(comps, l, d.out, net) && (l != k || d.out != o) &&
                (l < c || (l == c && d.out < j))
  }

  lemma MetNext(comps: seq<Component>, k: nat, o: nat, net: Key, c: nat, j: nat)
    requires c < |comps| && j < |comps[c].outputs| && DistinctKeys(comps)
    ensures forall d :: Met(comps, k, o, net, d, c, j + 1) <==>
      Met(comps, k, o, net, d, c, j) ||
      (d == Driver(comps[c].key, j) && OutOn(comps, c, j, net) && (c != k || j != o))
  {
    forall d ensures Met(comps, k, o, net, d, c, j + 1) <==>
      Met(comps, k, o, net, d, c, j) ||
      (d == Driver(comps[c].key, j) && OutOn(comps, c, j, net) && (c != k || j != o))
    {
      if d == Driver(comps[c].key, j) && OutOn(comps, c, j, net) && (c != k || j != o) {
        assert comps[c].key == d.comp && OutOn(comps, c, d.out, net);
      }
    }
  }

  lemma MetRow(comps: seq<Component>, k: nat, o: nat, net: Key, c: nat)
    requires c < |comps|
    ensures forall d :: Met(comps, k, o, net, d, c, |comps[c].outputs|) <==> Met(comps, k, o, net, d, c + 1, 0)
  {
    forall d ensures Met(comps, k, o, net, d, c, |comps[c].outputs|) <==> Met(comps, k, o, net, d, c + 1, 0) {
      if Met(comps, k, o, net, d, c, |comps[c].outputs|) {
        var l :| 0 <= l < |comps| && comps[l].key == d.comp && OutOn(comps, l, d.out, net) && (l != k || d.out != o) &&
                 (l < c || (l == c && d.out < |comps[c].outputs|));
      }
    }
  }

  /** The pin is an output and another driver of the net, or the pin itself, is not tri-state. */
  ghost predicate NotAllowed(comps: seq<Component>, k: nat, name: string, net: Key)
    requires k < |comps|
  {
    exists o :: Denotes(comps[k], name, Some(OutPin(o))) && !MayDrive(comps, k, o, net)
  }

  /** The pin may go on the net, where the drivers listed are the other ones. */
  ghost predicate MayJoin(comps: seq<Component>, k: nat, r: PinRef, net: Key, shared: seq<Driver>)
    requires k < |comps| && HasPin(comps[k], r)
  {
    match r
    case InPin(_) => shared == []
    case OutPin(o) => MayDrive(comps, k, o, net) && forall d :: d in shared <==> OtherDriver(comps, k, o, net, d)
  }

  /** Entries of nets other than the pin's new and former net stay. */
  ghost predicate OthersKept(nets: seq<Net>, net: Key, former: Option<Key>, bus: map<nat, seq<Driver>>,
                             bus1: map<nat, seq<Driver>>)
  {
    forall id: nat :: id < |nets| && nets[id].key != net && former != Some(nets[id].key) ==>
      (id in bus1 <==> id in bus) && (id in bus ==> bus1[id] == bus[id])
  }

  class Circuit {
    var comps: seq<Component>
    var nets: seq<Net>
    var bus: map<nat, seq<Driver>>
    var nextKey: Key

    ghost predicate Valid()
      reads this
    {
      Consistent(comps, nets, bus) && Widths(comps, nets) && KeysUsed()
    }

    ghost predicate KeysUsed()
      reads this
    {
      (forall i :: 0 <= i < |nets| ==> nets[i].key < nextKey) && (forall k :: 0 <= k < |comps| ==> comps[k].key < nextKey)
    }

    constructor ()
      ensures Valid() && comps == [] && nets == [] && bus == map[]
    {
      comps, nets, bus, nextKey := [], [], map[], 0;
    }

    method CreateNet() returns (net: Key)
      requires Valid()
      modifies this
      ensures Valid() && comps == old(comps) && bus == old(bus)
      ensures !IsNet(old(nets), net) && nets == old(nets) + [Net(net, |old(nets)|, 0)]
    {
      net := nextKey;
      assert forall i :: 0 <= i < |nets| ==> nets[i].key != net;
      NewNetKeeps(comps, nets, bus, net);
      NewNetWidth(comps, nets, net);
      nets := nets + [Net(net, |nets|, 0)];
      nextKey := nextKey + 1;
    }

    /** A new component's pins are not connected yet. */
    method AddComponent(inputs: seq<Pin>, outputs: seq<Pin>) returns (key: Key)
      requires Valid() && Unconnected(Component(nextKey, inputs, outputs))
      modifies this
      ensures Valid() && nets == old(nets) && bus == old(bus)
      ensures (forall c :: c in old(comps) ==> c.key != key) && comps == old(comps) + [Component(key, inputs, outputs)]
    {
      key := nextKey;
      NewComponentKeeps(comps, nets, bus, Component(key, inputs, outputs));
      NewComponentWidth(comps, nets, Component(key, inputs, outputs));
      comps := comps + [Component(key, inputs, outputs)];
      nextKey := nextKey + 1;
    }

    method FindNet(net: Key) returns (i: Option<nat>)
      requires Numbered(nets)
      ensures i.None? <==> !IsNet(nets, net)
      ensures i.Some? ==> i.value < |nets| && nets[i.value].key == net
    {
      var j := 0;
      while j < |nets|
        invariant j <= |nets| && forall l :: 0 <= l < j ==> nets[l].key != net
      {
        if nets[j].key == net {
          return Some(j);
        }
        j := j + 1;
      }
      return None;
    }

    /** Inputs first, then outputs. */
    method FindPin(k: nat, name: string) returns (r: Option<PinRef>)
      requires k < |comps|
      ensures Denotes(comps[k], name, r)
    {
      var j := 0;
      while j < |comps[k].inputs|
        invariant j <= |comps[k].inputs| && NoneNamed(comps[k].inputs, j, name)
      {
        if comps[k].inputs[j].name == name {
          return Some(InPin(j));
        }
        j := j + 1;
      }
      j := 0;
      while j < |comps[k].outputs|
        invariant j <= |comps[k].outputs| && NoneNamed(comps[k].outputs, j, name)
      {
        if comps[k].outputs[j].name == name {
          return Some(OutPin(j));
        }
        j := j + 1;
      }
      return None;
    }

    /** Widen every net to the pins given. */
    method Widen(pins: seq<Pin>)
      requires Numbered(nets) && PinsOnNets(pins, nets)
      modifies this`nets
      ensures SameNets(old(nets), nets)
      ensures forall i :: 0 <= i < |nets| ==> nets[i].width == Max(old(nets)[i].width, PinsWidth(pins, nets[i].key))
    {
      var j := 0;
      while j < |pins|
        invariant j <= |pins| && SameNets(old(nets), nets)
        invariant forall i :: 0 <= i < |nets| ==> nets[i].width == Max(old(nets)[i].width, PinsWidth(pins[..j], nets[i].key))
      {
        WidthSnoc(pins, j);
        if pins[j].net.Some? {
          assert pins[j] in pins;
          SameNetsIsNet(old(nets), nets, pins[j].net.value);
          var i := FindNet(pins[j].net.value);
          nets := nets[i.value := nets[i.value].(width := Max(nets[i.value].width, pins[j].width))];
        }
        j := j + 1;
      }
      assert pins[..j] == pins;
    }

    /** Start again from width 0 and widen every net to every pin on it. */
    method RecomputeNetWidths()
      requires Consistent(comps, nets, bus)
      modifies this`nets
      ensures SameNets(old(nets), nets) && Consistent(comps, nets, bus) && Widths(comps, nets)
    {
      var j := 0;
      while j < |nets|
        invariant j <= |nets| && SameNets(old(nets), nets)
        invariant forall i :: 0 <= i < j ==> nets[i].width == 0
      {
        nets := nets[j := nets[j].(width := 0)];
        j := j + 1;
      }
      j := 0;
      while j < |comps|
        invariant j <= |comps| && SameNets(old(nets), nets) && Widths(comps[..j], nets)
      {
        SameNetsKeeps(comps, old(nets), bus, nets);
        assert comps[j] in comps;
        label before:
        Widen(comps[j].inputs);
        SameNetsPins(old@before(nets), nets, comps[j].outputs);
        Widen(comps[j].outputs);
        assert comps[..j + 1][..j] == comps[..j];
        j := j + 1;
      }
      assert comps[..j] == comps;
      SameNetsKeeps(comps, old(nets), bus, nets);
    }

    /** Take a pin off its net. An output leaves the table. */
    method DetachPin(k: nat, r: PinRef)
      requires Consistent(comps, nets, bus) && KeysUsed() && k < |comps| && HasPin(comps[k], r)
      modifies this`comps, this`bus
      ensures Consistent(comps, nets, bus) && KeysUsed()
      ensures Detached(old(comps), nets, old(bus), k, r, comps, bus)
    {
      hide EntrySound, NoShort, BusComplete, BusSound, OutOn, DistinctKeys;
      var pin := PinAt(comps[k], r);
      if pin.net.None? {
        MovedNowhere(comps[k], r);
        return;
      }
      PinNetIs(comps, nets, k, r);
      var i := FindNet(pin.net.value);
      var id := nets[i.value].id;
      DetachKeeps(comps, nets, bus, k, r, id);
      if r.OutPin? && id in bus {
        var drivers := Drop(bus[id], Driver(comps[k].key, r.o));
        if drivers == [] {
          bus := bus - {id};
        } else {
          bus := bus[id := drivers];
        }
      }
      comps := comps[k := SetNet(comps[k], r, None)];
    }

    /** Disconnect a pin by name; nothing happens when there is no such pin or it is not connected. */
    method Disconnect(k: nat, name: string)
      requires Valid() && k < |comps|
      modifies this
      ensures Valid() && SameNets(old(nets), nets) && nextKey == old(nextKey)
      ensures forall r :: Denotes(old(comps)[k], name, Some(r)) ==>
        Detached(old(comps), nets, old(bus), k, r, comps, bus) && TakenOff(old(comps), nets, old(bus), k, r, comps, bus)
      ensures Denotes(old(comps)[k], name, None) ==> comps == old(comps) && bus == old(bus)
    {
      hide TakenOff, OnePinMoved;
      var r := FindPin(k, name);
      if r.Some? && PinAt(comps[k], r.value).net.Some? {
        DetachPin(k, r.value);
        ghost var nets0 := nets;
        RecomputeNetWidths();
        assert Detached(old(comps), nets, old(bus), k, r.value, comps, bus);
      } else if r.Some? {
        MovedNowhere(comps[k], r.value);
      }
      forall q | Denotes(old(comps)[k], name, Some(q)) ensures r == Some(q) && TakenOff(old(comps), nets, old(bus), k, q, comps, bus) {
        DenotesOne(old(comps)[k], name, r, Some(q));
        SameNetsAttached(old(comps), old(nets), nets);
        DetachedIsTakenOff(old(comps), nets, old(bus), k, q, comps, bus);
      }
      if Denotes(old(comps)[k], name, None) {
        DenotesOne(old(comps)[k], name, r, None);
      }
    }

    /** Take every pin of a component off its net, outputs first. */
    method DetachAll(k: nat)
      requires Consistent(comps, nets, bus) && KeysUsed() && k < |comps|
      modifies this`comps, this`bus
      ensures Consistent(comps, nets, bus) && KeysUsed()
      ensures comps == old(comps)[k := Stripped(old(comps)[k])]
      ensures StrippedBus(old(bus), old(comps)[k].key, |old(comps)[k].outputs|, bus)
    {
      hide Detached, Consistent, StrippedBus;
      NothingStripped(comps, nets, bus, comps[k].key);
      StripNone(comps[k].inputs);
      StripNone(comps[k].outputs);
      var j := 0;
      while j < |comps[k].outputs|
        invariant Consistent(comps, nets, bus) && KeysUsed() && j <= |old(comps)[k].outputs|
        invariant comps == old(comps)[k := old(comps)[k].(outputs := StripTo(old(comps)[k].outputs, j))]
        invariant StrippedBus(old(bus), old(comps)[k].key, j, bus)
      {
        label before:
        DetachPin(k, OutPin(j));
        StripOutput(old(comps)[k], old@before(comps), nets, old@before(bus), k, j, comps, bus, old(bus));
        j := j + 1;
      }
      j := 0;
      while j < |comps[k].inputs|
        invariant Consistent(comps, nets, bus) && KeysUsed() && j <= |old(comps)[k].inputs|
        invariant comps == old(comps)[k := Component(old(comps)[k].key, StripTo(old(comps)[k].inputs, j),
                                                     StripTo(old(comps)[k].outputs, |old(comps)[k].outputs|))]
        invariant StrippedBus(old(bus), old(comps)[k].key, |old(comps)[k].outputs|, bus)
      {
        label before:
        DetachPin(k, InPin(j));
        StripInput(old(comps)[k], old@before(comps), nets, old@before(bus), k, j, comps, bus);
        j := j + 1;
      }
    }

    /** The component keeps its pins, all unconnected; its outputs leave the table, and nothing else does. */
    method DisconnectAll(k: nat)
      requires Valid() && k < |comps|
      modifies this
      ensures Valid() && SameNets(old(nets), nets) && nextKey == old(nextKey)
      ensures comps == old(comps)[k := Stripped(old(comps)[k])] && AllPinsFree(old(comps)[k], comps[k])
      ensures StrippedBus(old(bus), old(comps)[k].key, |old(comps)[k].outputs|, bus)
      ensures LeftTable(old(bus), old(comps)[k].key, bus)
    {
      hide AllPinsFree, LeftTable, StrippedBus;
      DetachAll(k);
      StrippedIsFree(old(comps)[k]);
      StrippedLeavesTable(old(comps), old(nets), old(bus), k, bus);
      RecomputeNetWidths();
    }

    /** The other components and the nets stay; the component's outputs leave the table. */
    method RemoveComponent(k: nat)
      requires Valid() && k < |comps|
      modifies this
      ensures Valid() && SameNets(old(nets), nets) && nextKey == old(nextKey)
      ensures |comps| == |old(comps)| - 1
      ensures forall l :: 0 <= l < |comps| ==> comps[l] == old(comps)[if l < k then l else l + 1]
      ensures LeftTable(old(bus), old(comps)[k].key, bus)
    {
      hide StrippedBus, LeftTable, OutOn, EntrySound, NoShort, BusComplete, BusSound, Attached, DistinctKeys;
      DetachAll(k);
      StrippedLeavesTable(old(comps), old(nets), old(bus), k, bus);
      StrippedUnconnected(old(comps)[k]);
      hide Stripped;
      RemoveComponentKeeps(comps, nets, bus, k);
      comps := comps[..k] + comps[k + 1..];
      assert comps == WithoutAt(old(comps), k);
      RecomputeNetWidths();
    }

    /** A net that is not in the circuit is ignored. Otherwise all pins leave it and the nets after it move down. */
    method RemoveNet(net: Key)
      requires Valid()
      modifies this
      ensures Valid()
      ensures !IsNet(old(nets), net) ==> comps == old(comps) && nets == old(nets) && bus == old(bus)
      ensures forall i :: 0 <= i < |old(nets)| && old(nets)[i].key == net ==>
        AllLeft(old(comps), net, comps) && Renumbered(old(nets), i, nets) && Shifted(old(bus), i, bus)
    {
      hide EntrySound, NoShort, Attached, BusComplete, Cleared, OutOn, Shifted, Renumbered, Widths, DistinctKeys, AllLeft;
      var found := FindNet(net);
      if found.None? {
        return;
      }
      RemoveNetAt(found.value);
      ClearedLeft(old(comps), net, comps);
    }

    method RemoveNetAt(i: nat)
      requires Valid() && i < |nets|
      modifies this
      ensures Valid()
      ensures Cleared(old(comps), old(nets)[i].key, comps) && Renumbered(old(nets), i, nets) && Shifted(old(bus), i, bus)
    {
      hide EntrySound, NoShort, Attached, BusComplete, Cleared, OutOn, Shifted, Renumbered;
      ClearNet(nets[i].key);
      bus := bus - {nets[i].id};
      var nets1, bus1 := Renumber(i);
      ShiftedWithout(old(bus), i, bus1);
      RenumberedKeys(nets, i, nets1, nextKey);
      RemoveNetKeeps(old(comps), old(nets), old(bus), i, comps, nets1, bus1);
      nets, bus := nets1, bus1;
      ClearedKeys(old(comps), old(nets)[i].key, comps);
      RecomputeNetWidths();
      RenumberedSame(old(nets), i, nets1, nets);
    }

    /** Take every pin off the net. */
    method ClearNet(net: Key)
      modifies this`comps
      ensures Cleared(old(comps), net, comps)
    {
      var k := 0;
      while k < |comps|
        invariant k <= |comps| == |old(comps)|
        invariant forall l :: 0 <= l < k ==> comps[l] == ClearComponent(old(comps)[l], net)
        invariant forall l :: k <= l < |comps| ==> comps[l] == old(comps)[l]
      {
        var outputs := ClearEach(comps[k].outputs, net);
        var inputs := ClearEach(comps[k].inputs, net);
        comps := comps[k := comps[k].(inputs := inputs, outputs := outputs)];
        k := k + 1;
      }
    }

    static method ClearEach(pins: seq<Pin>, net: Key) returns (after: seq<Pin>)
      ensures after == ClearPins(pins, net)
    {
      after := pins;
      var j := 0;
      while j < |after|
        invariant j <= |after| == |pins|
        invariant forall i :: 0 <= i < j ==> after[i] == ClearPins(pins, net)[i]
        invariant forall i :: j <= i < |pins| ==> after[i] == pins[i]
      {
        if after[j].net == Some(net) {
          after := after[j := after[j].(net := None)];
        }
        j := j + 1;
      }
    }

    /** Drop net i, number the rest from 0 and carry the table over to the new numbers. */
    method Renumber(i: nat) returns (nets1: seq<Net>, bus1: map<nat, seq<Driver>>)
      requires Numbered(nets) && i < |nets| && i !in bus && forall id :: id in bus ==> id < |nets|
      ensures Renumbered(nets, i, nets1) && Shifted(bus, i, bus1)
    {
      nets1 := nets[..i] + nets[i + 1..];
      bus1 := map[];
      var j := 0;
      while j < |nets1|
        invariant j <= |nets1| == |nets| - 1
        invariant forall l :: 0 <= l < j ==> nets1[l] == nets[OldId(i, l)].(id := l)
        invariant forall l :: j <= l < |nets1| ==> nets1[l] == nets[OldId(i, l)]
        invariant forall l: nat :: l in bus1 <==> l < j && OldId(i, l) in bus
        invariant forall l: nat :: l in bus1 ==> bus1[l] == bus[OldId(i, l)]
      {
        var oldId := nets1[j].id;
        nets1 := nets1[j := nets1[j].(id := j)];
        if oldId in bus {
          bus1 := bus1[j := bus[oldId]];
        }
        j := j + 1;
      }
    }

    /** Disconnect everything and drop all nets. */
    method RemoveAllNets()
      requires Valid()
      modifies this
      ensures Valid() && nets == [] && bus == map[] && nextKey == old(nextKey)
      ensures |comps| == |old(comps)| && forall k :: 0 <= k < |comps| ==> AllPinsFree(old(comps)[k], comps[k])
    {
      var k := 0;
      while k < |comps|
        invariant Valid() && k <= |comps| == |old(comps)| && nextKey == old(nextKey)
        invariant forall l :: 0 <= l < k ==> comps[l] == Stripped(old(comps)[l])
        invariant forall l :: k <= l < |comps| ==> comps[l] == old(comps)[l]
      {
        DisconnectAll(k);
        k := k + 1;
      }
      forall l | 0 <= l < |comps| ensures AllPinsFree(old(comps)[l], comps[l]) {
        StrippedIsFree(old(comps)[l]);
      }
      forall c | c in comps ensures PinsOnNets(c.inputs, []) && PinsOnNets(c.outputs, []) {
        var l :| 0 <= l < |comps| && comps[l] == c;
        StrippedUnconnected(old(comps)[l]);
        UnconnectedOnNets(c, []);
      }
      nets, bus := [], map[];
    }

    /** Collect the other drivers of a net, stopping at the first that may not share it. */
    method FindSharers(k: nat, o: nat, net: Key) returns (ok: bool, shared: seq<Driver>)
      requires DistinctKeys(comps) && k < |comps| && o < |comps[k].outputs|
      ensures ok <==> MayDrive(comps, k, o, net)
      ensures ok ==> forall d :: d in shared <==> OtherDriver(comps, k, o, net, d)
    {
      shared := [];
      var c := 0;
      while c < |comps|
        invariant c <= |comps|
        invariant forall d :: d in shared <==> Met(comps, k, o, net, d, c, 0)
        invariant forall l, q :: l < c && OutOn(comps, l, q, net) && (l != k || q != o) ==>
          comps[l].outputs[q].tri && comps[k].outputs[o].tri
      {
        var j := 0;
        while j < |comps[c].outputs|
          invariant j <= |comps[c].outputs|
          invariant forall d :: d in shared <==> Met(comps, k, o, net, d, c, j)
          invariant forall l, q :: (l < c || (l == c && q < j)) && OutOn(comps, l, q, net) && (l != k || q != o) ==>
            comps[l].outputs[q].tri && comps[k].outputs[o].tri
        {
          MetNext(comps, k, o, net, c, j);
          if comps[c].outputs[j].net == Some(net) && (c != k || j != o) {
            assert OutOn(comps, c, j, net);
            if !comps[k].outputs[o].tri || !comps[c].outputs[j].tri {
              return false, shared;
            }
            shared := shared + [Driver(comps[c].key, j)];
          }
          j := j + 1;
        }
        MetRow(comps, k, o, net, c);
        c := c + 1;
      }
      ok := true;
      assert forall d :: Met(comps, k, o, net, d, |comps|, 0) <==> OtherDriver(comps, k, o, net, d);
    }

    /** Connect a pin by name, leaving the net it was on. Nothing is changed when that fails. */
    method Connect(k: nat, name: string, net: Key) returns (error: Error)
      requires Valid() && k < |comps|
      modifies this
      ensures Valid()
      ensures error == InvalidNet <==> !IsNet(old(nets), net)
      ensures error == PinNotFound <==> IsNet(old(nets), net) && Denotes(old(comps)[k], name, None)
      ensures error == MultipleDrivers <==> IsNet(old(nets), net) && NotAllowed(old(comps), k, name, net)
      ensures error != Ok ==> comps == old(comps) && nets == old(nets) && bus == old(bus)
      ensures error == Ok ==> SameNets(old(nets), nets) && forall r :: Denotes(old(comps)[k], name, Some(r)) ==>
        comps == Moved(old(comps), k, r, Some(net)) && OnePinMoved(old(comps), k, r, Some(net), comps) &&
        OthersKept(old(nets), net, PinAt(old(comps)[k], r).net, old(bus), bus)
    {
      hide EntrySound, NoShort, Attached, BusComplete, OutOn, Widths, DistinctKeys, MayDrive, Numbered, OnePinMoved;
      var found := FindNet(net);
      if found.None? {
        return InvalidNet;
      }
      var i := found.value;
      var r := FindPin(k, name);
      if r.None? {
        NothingDenoted(comps[k], name, r);
        return PinNotFound;
      }
      OnlyDenoted(comps[k], name, r.value);
      var shared := [];
      if r.value.OutPin? {
        var ok;
        ok, shared := FindSharers(k, r.value.o, net);
        if !ok {
          return MultipleDrivers;
        }
      }
      Attach(k, r.value, i, shared, name);
      MovedIsOnePin(old(comps), k, r.value, Some(net));
      return Ok;
    }

    /** The part of Connect that changes the circuit: leave the former net, then join the new one. */
    method Attach(k: nat, r: PinRef, i: nat, shared: seq<Driver>, name: string)
      requires Valid() && k < |comps| && HasPin(comps[k], r) && i < |nets| && Denotes(comps[k], name, Some(r))
      requires MayJoin(comps, k, r, nets[i].key, shared)
      modifies this
      ensures Valid() && SameNets(old(nets), nets)
      ensures comps == Moved(old(comps), k, r, Some(old(nets)[i].key))
      ensures OthersKept(old(nets), old(nets)[i].key, PinAt(old(comps)[k], r).net, old(bus), bus)
    {
      hide EntrySound, NoShort, BusComplete, OutOn, Widths, DistinctKeys, MayDrive, BusSound, Denotes, Detached, SetNet, MayJoin;
      var net := nets[i].key;
      var pin := PinAt(comps[k], r);
      MovedTwice(comps, k, r, None, Some(net));
      if pin.net.Some? && pin.net.value != net {
        Disconnect(k, name);
        DetachedMayJoin(old(comps), old(nets), nets, old(bus), k, r, comps, bus, net, shared);
      }
      assert OthersKept(old(nets), net, pin.net, old(bus), bus);
      Join(k, r, i, shared);
    }

    /** A shared net's entry gets the other drivers and this one, each once. */
    method EnterTable(k: nat, r: PinRef, i: nat, shared: seq<Driver>)
      requires Valid() && k < |comps| && HasPin(comps[k], r) && i < |nets| && MayJoin(comps, k, r, nets[i].key, shared)
      modifies this`bus
      ensures BusAttached(comps, Moved(comps, k, r, Some(nets[i].key)), nets, k, r, i, old(bus), bus)
    {
      hide EntrySound, NoShort, Attached, BusComplete, OutOn, Widths, MayDrive, BusSound;
      if shared != [] {
        EntryDistinct(comps, nets, bus, i);
        var entry := AddDrivers(if i in bus then bus[i] else [], shared);
        entry := AddDrivers(entry, [Driver(comps[k].key, r.o)]);
        EntryIsAttached(comps, nets, bus, k, r.o, i, shared, entry);
        bus := bus[i := entry];
      } else if r.OutPin? {
        NoneShared(comps, k, r.o, nets[i].key);
      }
    }

    method Join(k: nat, r: PinRef, i: nat, shared: seq<Driver>)
      requires Valid() && k < |comps| && HasPin(comps[k], r) && i < |nets|
      requires PinAt(comps[k], r).net == None || PinAt(comps[k], r).net == Some(nets[i].key)
      requires MayJoin(comps, k, r, nets[i].key, shared)
      modifies this
      ensures Valid() && SameNets(old(nets), nets)
      ensures comps == Moved(old(comps), k, r, Some(old(nets)[i].key))
      ensures OthersKept(old(nets), old(nets)[i].key, None, old(bus), bus)
    {
      hide EntrySound, NoShort, Attached, BusComplete, OutOn, Widths, MayDrive, BusSound, OtherDriver, SharedWith, BusAttached;
      EnterTable(k, r, i, shared);
      assert OthersKept(nets, nets[i].key, None, old(bus), bus) by {
        AttachedOthers(comps, Moved(comps, k, r, Some(nets[i].key)), nets, k, r, i, old(bus), bus);
      }
      AttachKeeps(comps, nets, old(bus), k, r, i, bus);
      WidthsMoved(comps, nets, k, r, i);
      var width := Max(nets[i].width, PinAt(comps[k], r).width);
      comps := comps[k := SetNet(comps[k], r, Some(nets[i].key))];
      nets := nets[i := nets[i].(width := width)];
      SameNetsKeeps(comps, old(nets), bus, nets);
    }
  }

  lemma NewNetKeeps(comps: seq<Component>, nets: seq<Net>, bus: map<nat, seq<Driver>>, net: Key)
    requires Consistent(comps, nets, bus) && forall i :: 0 <= i < |nets| ==> nets[i].key != net
    ensures Consistent(comps, nets + [Net(net, |nets|, 0)], bus)
  {
    hide EntrySound, NoShort, DistinctKeys, OutOn;
    var more := nets + [Net(net, |nets|, 0)];
    forall n: Key | IsNet(nets, n) ensures IsNet(more, n) {
      var j :| 0 <= j < |nets| && nets[j].key == n;
      assert more[j].key == n;
    }
    assert !IsNet(nets, net);
    OutputsOnNets(comps, nets);
  }

  lemma NewNetWidth(comps: seq<Component>, nets: seq<Net>, net: Key)
    requires Attached(comps, nets) && Widths(comps, nets) && forall i :: 0 <= i < |nets| ==> nets[i].key != net
    ensures Widths(comps, nets + [Net(net, |nets|, 0)])
  {
    assert !IsNet(nets, net);
    forall c, p | c in comps && (p in c.inputs || p in c.outputs) ensures p.net != Some(net) {
    }
    NetWidthIsMax(comps, net);
  }

  lemma NewComponentKeeps(comps: seq<Component>, nets: seq<Net>, bus: map<nat, seq<Driver>>, c: Component)
    requires Consistent(comps, nets, bus) && Unconnected(c)
    requires forall k :: 0 <= k < |comps| ==> comps[k].key != c.key
    ensures Consistent(comps + [c], nets, bus)
  {
    var more := comps + [c];
    assert forall k, o, n: Key :: OutOn(more, k, o, n) ==> OutOn(comps, k, o, n);
    hide Unconnected;
    assert Attached(more, nets) by {
      assert PinsOnNets(c.inputs, nets) && PinsOnNets(c.outputs, nets) by { UnconnectedOnNets(c, nets); }
    }
    hide Attached;
    FewerOutputsNoShort(comps, more);
    forall id | id in bus ensures EntrySound(more, nets[id].key, bus[id]) {
      assert EntrySound(comps, nets[id].key, bus[id]);
      forall d | d in bus[id] ensures DriverOn(more, d, nets[id].key) {
        var k :| 0 <= k < |comps| && comps[k].key == d.comp && OutOn(comps, k, d.out, nets[id].key);
        assert more[k] == comps[k] && OutOn(more, k, d.out, nets[id].key);
      }
    }
  }

  // ---- Taking all pins of a component off their nets ----

  /** The first n pins unconnected. */
  function StripTo(pins: seq<Pin>, n: nat): (after: seq<Pin>)
    requires n <= |pins|
    ensures |after| == |pins|
  {
    seq(|pins|, i requires 0 <= i < |pins| => if i < n then pins[i].(net := None) else pins[i])
  }

  /** The component with every pin unconnected: names, widths and kinds stay. */
  function Stripped(c: Component): Component {
    Component(c.key, StripTo(c.inputs, |c.inputs|), StripTo(c.outputs, |c.outputs|))
  }

  /** Key, names, widths and kinds as before, every pin on no net. */
  ghost predicate AllPinsFree(c: Component, after: Component) {
    && after.key == c.key && |after.inputs| == |c.inputs| && |after.outputs| == |c.outputs|
    && (forall p :: 0 <= p < |c.inputs| ==>
          after.inputs[p] == Pin(c.inputs[p].name, c.inputs[p].width, c.inputs[p].tri, None))
    && (forall p :: 0 <= p < |c.outputs| ==>
          after.outputs[p] == Pin(c.outputs[p].name, c.outputs[p].width, c.outputs[p].tri, None))
  }

  lemma StrippedIsFree(c: Component)
    ensures AllPinsFree(c, Stripped(c))
  {
  }

  /** Every entry has lost exactly the drivers of the component, and is gone when it listed no other. */
  ghost predicate LeftTable(bus: map<nat, seq<Driver>>, comp: Key, after: map<nat, seq<Driver>>) {
    && (forall id: nat :: id in after <==> id in bus && exists d :: d in bus[id] && d.comp != comp)
    && (forall id: nat, d :: id in after ==> (d in after[id] <==> d in bus[id] && d.comp != comp))
  }

  ghost predicate ListsOnlyBelow(bus: map<nat, seq<Driver>>, comp: Key, n: nat) {
    forall id: nat, d :: id in bus && d in bus[id] && d.comp == comp ==> d.out < n
  }

  lemma StrippedLeavesTable(comps: seq<Component>, nets: seq<Net>, bus: map<nat, seq<Driver>>, k: nat, after: map<nat, seq<Driver>>)
    requires Consistent(comps, nets, bus) && k < |comps|
    requires StrippedBus(bus, comps[k].key, |comps[k].outputs|, after)
    ensures LeftTable(bus, comps[k].key, after)
  {
    hide StrippedBus, LeftTable, EntrySound, DriverOn, NoShort, BusComplete, Attached;
    forall id: nat, d | id in bus && d in bus[id] && d.comp == comps[k].key ensures d.out < |comps[k].outputs| {
      ListedIsOutput(comps, nets, bus, k, id, d);
    }
    TableIsLeft(bus, comps[k].key, |comps[k].outputs|, after);
  }

  lemma TableIsLeft(bus: map<nat, seq<Driver>>, comp: Key, n: nat, after: map<nat, seq<Driver>>)
    requires StrippedBus(bus, comp, n, after) && ListsOnlyBelow(bus, comp, n)
    ensures LeftTable(bus, comp, after)
  {
    forall id: nat | id in bus ensures Remaining(bus[id], comp, n) != [] <==> exists d :: d in bus[id] && d.comp != comp {
      RemainingIsEmpty(bus[id], comp, n);
    }
  }

  lemma ListedIsOutput(comps: seq<Component>, nets: seq<Net>, bus: map<nat, seq<Driver>>, k: nat, id: nat, d: Driver)
    requires BusSound(comps, nets, bus) && DistinctKeys(comps) && k < |comps|
    requires id in bus && d in bus[id] && d.comp == comps[k].key
    ensures d.out < |comps[k].outputs|
  {
    assert EntrySound(comps, nets[id].key, bus[id]) && DriverOn(comps, d, nets[id].key);
  }

  lemma RemainingIsEmpty(drivers: seq<Driver>, comp: Key, n: nat)
    requires forall d :: d in drivers && d.comp == comp ==> d.out < n
    ensures Remaining(drivers, comp, n) != [] <==> exists d :: d in drivers && d.comp != comp
  {
    var rest := Remaining(drivers, comp, n);
    if rest != [] {
      assert rest[0] in rest;
    }
  }

  lemma SameNetsAttached(comps: seq<Component>, nets: seq<Net>, nets1: seq<Net>)
    requires Attached(comps, nets) && SameNets(nets, nets1)
    ensures Attached(comps, nets1)
  {
    forall n: Key | IsNet(nets, n) ensures IsNet(nets1, n) {
      var j :| 0 <= j < |nets| && nets[j].key == n;
      assert nets1[j].key == n;
    }
  }

  lemma StrippedUnconnected(c: Component)
    ensures Unconnected(Stripped(c))
  {
  }

  /** The drivers left when the first n outputs of a component go. */
  function Remaining(drivers: seq<Driver>, comp: Key, n: nat): (rest: seq<Driver>)
    ensures forall d :: d in rest <==> d in drivers && !(d.comp == comp && d.out < n)
  {
    if drivers == [] then []
    else
      var init := Remaining(drivers[..|drivers| - 1], comp, n);
      var last := drivers[|drivers| - 1];
      assert drivers == drivers[..|drivers| - 1] + [last];
      if last.comp == comp && last.out < n then init else init + [last]
  }

  /** The table after the first n outputs of a component have left it; entries left empty are gone. */
  ghost predicate StrippedBus(bus: map<nat, seq<Driver>>, comp: Key, n: nat, after: map<nat, seq<Driver>>) {
    && (forall id :: id in after <==> id in bus && Remaining(bus[id], comp, n) != [])
    && (forall id :: id in after ==> after[id] == Remaining(bus[id], comp, n))
  }

  lemma {:induction false} RemainingAll(drivers: seq<Driver>, comp: Key)
    ensures Remaining(drivers, comp, 0) == drivers
  {
    if drivers != [] {
      RemainingAll(drivers[..|drivers| - 1], comp);
    }
  }

  /** Dropping the next output. */
  lemma {:induction false} RemainingNext(drivers: seq<Driver>, comp: Key, n: nat)
    ensures Remaining(drivers, comp, n + 1) == Drop(Remaining(drivers, comp, n), Driver(comp, n))
    ensures Driver(comp, n) !in drivers ==> Remaining(drivers, comp, n + 1) == Remaining(drivers, comp, n)
  {
    if drivers != [] {
      var init, last := drivers[..|drivers| - 1], drivers[|drivers| - 1];
      assert drivers == init + [last];
      RemainingNext(init, comp, n);
      var rest := Remaining(init, comp, n);
      assert (rest + [last])[..|rest|] == rest;
    }
  }

  lemma StripNone(pins: seq<Pin>)
    ensures StripTo(pins, 0) == pins
  {
  }

  lemma NothingStripped(comps: seq<Component>, nets: seq<Net>, bus: map<nat, seq<Driver>>, comp: Key)
    requires Consistent(comps, nets, bus)
    ensures StrippedBus(bus, comp, 0, bus)
  {
    forall id | id in bus ensures bus[id] != [] && Remaining(bus[id], comp, 0) == bus[id] {
      assert EntrySound(comps, nets[id].key, bus[id]);
      RemainingAll(bus[id], comp);
    }
  }

  lemma StripOutput(c: Component, comps: seq<Component>, nets: seq<Net>, bus: map<nat, seq<Driver>>, k: nat, j: nat,
                    comps1: seq<Component>, bus1: map<nat, seq<Driver>>, first: map<nat, seq<Driver>>)
    requires Consistent(comps, nets, bus) && k < |comps| && j < |c.outputs|
    requires comps[k] == c.(outputs := StripTo(c.outputs, j)) && StrippedBus(first, c.key, j, bus)
    requires Detached(comps, nets, bus, k, OutPin(j), comps1, bus1)
    ensures comps1 == comps[k := c.(outputs := StripTo(c.outputs, j + 1))]
    ensures StrippedBus(first, c.key, j + 1, bus1)
  {
    assert comps1[k].outputs == StripTo(c.outputs, j + 1);
    forall id: nat ensures id in bus1 <==> id in first && Remaining(first[id], c.key, j + 1) != []
      ensures id in bus1 ==> bus1[id] == Remaining(first[id], c.key, j + 1)
    {
      StripEntry(c, comps, nets, bus, k, j, comps1, bus1, first, id);
    }
  }

  lemma StripEntry(c: Component, comps: seq<Component>, nets: seq<Net>, bus: map<nat, seq<Driver>>, k: nat, j: nat,
                   comps1: seq<Component>, bus1: map<nat, seq<Driver>>, first: map<nat, seq<Driver>>, id: nat)
    requires Consistent(comps, nets, bus) && k < |comps| && j < |c.outputs|
    requires comps[k] == c.(outputs := StripTo(c.outputs, j)) && StrippedBus(first, c.key, j, bus)
    requires Detached(comps, nets, bus, k, OutPin(j), comps1, bus1)
    ensures id in bus1 <==> id in first && Remaining(first[id], c.key, j + 1) != []
    ensures id in bus1 ==> bus1[id] == Remaining(first[id], c.key, j + 1)
  {
    DetachedEntry(comps, nets, bus, k, j, comps1, bus1, id);
    hide Consistent, Remaining, Detached, Drop;
    if id in first {
      RemainingNext(first[id], c.key, j);
      DropNothing(Driver(c.key, j));
    }
  }

  lemma DropNothing(d: Driver)
    ensures Drop([], d) == []
  {
  }

  lemma {:induction false} DropAbsent(drivers: seq<Driver>, d: Driver)
    requires d !in drivers
    ensures Drop(drivers, d) == drivers
  {
    if drivers != [] {
      var init := drivers[..|drivers| - 1];
      assert drivers == init + [drivers[|drivers| - 1]];
      DropAbsent(init, d);
    }
  }

  /** Taking an output off its net drops it from every entry: it was listed for its own net only. */
  lemma DetachedEntry(comps: seq<Component>, nets: seq<Net>, bus: map<nat, seq<Driver>>, k: nat, j: nat,
                      comps1: seq<Component>, bus1: map<nat, seq<Driver>>, id: nat)
    requires Consistent(comps, nets, bus) && k < |comps| && j < |comps[k].outputs|
    requires Detached(comps, nets, bus, k, OutPin(j), comps1, bus1)
    ensures var d := Driver(comps[k].key, j);
      && (id in bus1 <==> id in bus && Drop(bus[id], d) != [])
      && (id in bus1 ==> bus1[id] == Drop(bus[id], d))
  {
    var d := Driver(comps[k].key, j);
    if id in bus {
      EntryNotEmpty(comps, nets, bus, id);
      if d in bus[id] {
        ListedIsOn(comps, nets, bus, k, j, id);
      } else {
        DropAbsent(bus[id], d);
      }
    }
    if comps[k].outputs[j].net.Some? {
      OutputNetIs(comps, nets, bus, k, j);
      var i: nat :| i < |nets| && comps[k].outputs[j].net == Some(nets[i].key);
      hide Consistent, Drop;
      assert bus1 == BusDetached(comps, bus, k, OutPin(j), i);
    }
  }

  lemma EntryNotEmpty(comps: seq<Component>, nets: seq<Net>, bus: map<nat, seq<Driver>>, id: nat)
    requires Consistent(comps, nets, bus) && id in bus
    ensures bus[id] != []
  {
    assert EntrySound(comps, nets[id].key, bus[id]);
  }

  lemma OutputNetIs(comps: seq<Component>, nets: seq<Net>, bus: map<nat, seq<Driver>>, k: nat, j: nat)
    requires Consistent(comps, nets, bus) && k < |comps| && j < |comps[k].outputs| && comps[k].outputs[j].net.Some?
    ensures IsNet(nets, comps[k].outputs[j].net.value)
  {
    PinNetIs(comps, nets, k, OutPin(j));
  }

  /** A listed driver is on the net. */
  lemma ListedIsOn(comps: seq<Component>, nets: seq<Net>, bus: map<nat, seq<Driver>>, k: nat, j: nat, id: nat)
    requires Consistent(comps, nets, bus) && k < |comps| && j < |comps[k].outputs| && id in bus
    requires Driver(comps[k].key, j) in bus[id]
    ensures id < |nets| && comps[k].outputs[j].net == Some(nets[id].key)
  {
    assert EntrySound(comps, nets[id].key, bus[id]);
    assert DriverOn(comps, Driver(comps[k].key, j), nets[id].key);
  }

  lemma StripInput(c: Component, comps: seq<Component>, nets: seq<Net>, bus: map<nat, seq<Driver>>, k: nat, j: nat,
                   comps1: seq<Component>, bus1: map<nat, seq<Driver>>)
    requires Consistent(comps, nets, bus) && k < |comps| && j < |c.inputs|
    requires comps[k] == Component(c.key, StripTo(c.inputs, j), StripTo(c.outputs, |c.outputs|))
    requires Detached(comps, nets, bus, k, InPin(j), comps1, bus1)
    ensures comps1 == comps[k := Component(c.key, StripTo(c.inputs, j + 1), StripTo(c.outputs, |c.outputs|))]
    ensures bus1 == bus
  {
    assert comps1[k].inputs == StripTo(c.inputs, j + 1);
    var pin := comps[k].inputs[j];
    if pin.net.Some? {
      assert comps[k] in comps && pin in comps[k].inputs;
      var i: nat :| i < |nets| && nets[i].key == pin.net.value;
      assert bus1 == BusDetached(comps, bus, k, InPin(j), i);
    }
  }

  lemma UnconnectedOnNets(c: Component, nets: seq<Net>)
    requires Unconnected(c)
    ensures PinsOnNets(c.inputs, nets) && PinsOnNets(c.outputs, nets)
  {
  }

  lemma NewComponentWidth(comps: seq<Component>, nets: seq<Net>, c: Component)
    requires Widths(comps, nets) && Unconnected(c)
    ensures Widths(comps + [c], nets)
  {
    var more := comps + [c];
    forall i | 0 <= i < |nets| ensures NetWidth(more, nets[i].key) == NetWidth(comps, nets[i].key) {
      assert more[..|more| - 1] == comps;
      PinsWidthIsMax(c.inputs, nets[i].key);
      PinsWidthIsMax(c.outputs, nets[i].key);
    }
  }

  lemma WidthSnoc(pins: seq<Pin>, j: nat)
    requires j < |pins|
    ensures forall net: Key ::
      (pins[j].net == Some(net) ==> PinsWidth(pins[..j + 1], net) == Max(PinsWidth(pins[..j], net), pins[j].width)) &&
      (pins[j].net != Some(net) ==> PinsWidth(pins[..j + 1], net) == PinsWidth(pins[..j], net))
  {
    assert pins[..j + 1][..j] == pins[..j];
  }

  lemma SameNetsIsNet(a: seq<Net>, b: seq<Net>, net: Key)
    requires SameNets(a, b) && IsNet(a, net)
    ensures IsNet(b, net)
  {
    var i :| 0 <= i < |a| && a[i].key == net;
    assert b[i].key == net;
  }

  lemma SameNetsPins(a: seq<Net>, b: seq<Net>, pins: seq<Pin>)
    requires SameNets(a, b) && PinsOnNets(pins, a)
    ensures PinsOnNets(pins, b)
  {
    forall p | p in pins && p.net.Some? ensures IsNet(b, p.net.value) {
      SameNetsIsNet(a, b, p.net.value);
    }
  }

  lemma PinNetIs(comps: seq<Component>, nets: seq<Net>, k: nat, r: PinRef)
    requires Attached(comps, nets) && k < |comps| && HasPin(comps[k], r) && PinAt(comps[k], r).net.Some?
    ensures IsNet(nets, PinAt(comps[k], r).net.value)
  {
    assert comps[k] in comps;
    assert match r case InPin(i) => comps[k].inputs[i] in comps[k].inputs case OutPin(o) => comps[k].outputs[o] in comps[k].outputs;
  }

  lemma ShiftedWithout(bus: map<nat, seq<Driver>>, i: nat, after: map<nat, seq<Driver>>)
    requires Shifted(bus - {i}, i, after)
    ensures Shifted(bus, i, after)
  {
    forall j: nat | OldId(i, j) in bus ensures j in after {
      assert OldId(i, j) in bus - {i};
    }
  }

  lemma RenumberedKeys(nets: seq<Net>, i: nat, after: seq<Net>, bound: Key)
    requires Renumbered(nets, i, after) && forall j :: 0 <= j < |nets| ==> nets[j].key < bound
    ensures forall j :: 0 <= j < |after| ==> after[j].key < bound
  {
  }

  lemma RenumberedSame(nets: seq<Net>, i: nat, a: seq<Net>, b: seq<Net>)
    requires Renumbered(nets, i, a) && SameNets(a, b)
    ensures Renumbered(nets, i, b)
  {
  }

  lemma ClearedKeys(comps: seq<Component>, net: Key, after: seq<Component>)
    requires Cleared(comps, net, after)
    ensures |after| == |comps| && forall k :: 0 <= k < |comps| ==> after[k].key == comps[k].key
  {
  }

  /** A name denotes at most one pin. */
  lemma DenotesOne(c: Component, name: string, r: Option<PinRef>, q: Option<PinRef>)
    requires Denotes(c, name, r) && Denotes(c, name, q)
    ensures r == q
  {
  }

  lemma NothingDenoted(c: Component, name: string, r: Option<PinRef>)
    requires Denotes(c, name, None)
    ensures forall q :: !Denotes(c, name, Some(q))
  {
    forall q ensures !Denotes(c, name, Some(q)) {
      if Denotes(c, name, Some(q)) {
        DenotesOne(c, name, None, Some(q));
      }
    }
  }

  lemma OnlyDenoted(c: Component, name: string, r: PinRef)
    requires Denotes(c, name, Some(r))
    ensures !Denotes(c, name, None) && forall q :: Denotes(c, name, Some(q)) ==> q == r
  {
    forall q | Denotes(c, name, Some(q)) ensures q == r {
      DenotesOne(c, name, Some(r), Some(q));
    }
  }

  lemma MovedTwice(comps: seq<Component>, k: nat, r: PinRef, a: Option<Key>, b: Option<Key>)
    requires k < |comps| && HasPin(comps[k], r)
    ensures Moved(Moved(comps, k, r, a), k, r, b) == Moved(comps, k, r, b)
    ensures PinAt(Moved(comps, k, r, a)[k], r) == PinAt(comps[k], r).(net := a)
  {
    var c := comps[k];
    match r
    case InPin(i) => assert SetNet(SetNet(c, r, a), r, b).inputs == SetNet(c, r, b).inputs;
    case OutPin(o) => assert SetNet(SetNet(c, r, a), r, b).outputs == SetNet(c, r, b).outputs;
  }

  lemma DetachedOthers(comps: seq<Component>, nets: seq<Net>, nets1: seq<Net>, bus: map<nat, seq<Driver>>, k: nat,
                       r: PinRef, comps1: seq<Component>, bus1: map<nat, seq<Driver>>, net: Key)
    requires k < |comps| && HasPin(comps[k], r) && SameNets(nets, nets1) && Attached(comps, nets)
    requires Detached(comps, nets1, bus, k, r, comps1, bus1)
    ensures OthersKept(nets, net, PinAt(comps[k], r).net, bus, bus1)
  {
    if PinAt(comps[k], r).net.Some? {
      PinNetIs(comps, nets, k, r);
      var id :| 0 <= id < |nets| && nets[id].key == PinAt(comps[k], r).net.value;
      assert nets1[id].key == nets[id].key;
      assert bus1 == BusDetached(comps, bus, k, r, id);
    }
  }

  /** After leaving its former net the pin may still join the new one. */
  lemma DetachedMayJoin(comps: seq<Component>, nets: seq<Net>, nets1: seq<Net>, bus: map<nat, seq<Driver>>, k: nat,
                        r: PinRef, comps1: seq<Component>, bus1: map<nat, seq<Driver>>, net: Key, shared: seq<Driver>)
    requires k < |comps| && HasPin(comps[k], r) && SameNets(nets, nets1) && Attached(comps, nets)
    requires Detached(comps, nets1, bus, k, r, comps1, bus1) && MayJoin(comps, k, r, net, shared)
    ensures comps1 == Moved(comps, k, r, None) && HasPin(comps1[k], r) && MayJoin(comps1, k, r, net, shared)
    ensures OthersKept(nets, net, PinAt(comps[k], r).net, bus, bus1)
  {
    DetachedOthers(comps, nets, nets1, bus, k, r, comps1, bus1, net);
    if r.OutPin? {
      OthersMoved(comps, k, r.o, None, net);
    }
  }

  lemma EntryDistinct(comps: seq<Component>, nets: seq<Net>, bus: map<nat, seq<Driver>>, i: nat)
    requires BusSound(comps, nets, bus)
    ensures i in bus ==> Distinct(bus[i])
  {
    if i in bus {
      assert EntrySound(comps, nets[i].key, bus[i]);
    }
  }

  lemma AttachedOthers(comps: seq<Component>, after: seq<Component>, nets: seq<Net>, k: nat, r: PinRef, i: nat,
                       bus: map<nat, seq<Driver>>, bus1: map<nat, seq<Driver>>)
    requires i < |nets| && BusAttached(comps, after, nets, k, r, i, bus, bus1)
    ensures OthersKept(nets, nets[i].key, None, bus, bus1)
  {
    forall id: nat | id < |nets| && id != i ensures (id in bus1 <==> id in bus) && (id in bus ==> bus1[id] == bus[id]) {
      if bus1 != bus {
        assert id in bus1 <==> id in bus1 - {i};
        assert id in bus <==> id in bus - {i};
        assert id in bus - {i} ==> (bus1 - {i})[id] == (bus - {i})[id];
      }
    }
  }

  lemma NoneShared(comps: seq<Component>, k: nat, o: nat, net: Key)
    requires forall d :: !OtherDriver(comps, k, o, net, d)
    ensures !SharedWith(comps, k, o, net)
  {
    forall l, q | OutOn(comps, l, q, net) && (l != k || q != o) ensures OtherDriver(comps, k, o, net, Driver(comps[l].key, q)) {
      assert OutOn(comps, l, Driver(comps[l].key, q).out, net);
    }
  }
}
