/** Editing a netlist: net numbers, net widths and the table of shared tri-state nets stay consistent. */
module NetlistEdit {
  import opened Wrappers

  /** Components and nets are referred to by a key that never changes, whatever their position or number. */
  type Key = nat

  datatype Pin = Pin(name: string, width: nat, tri: bool, net: Option<Key>)

  datatype Component = Component(key: Key, inputs: seq<Pin>, outputs: seq<Pin>)

  datatype Net = Net(key: Key, id: nat, width: nat)

  /** A driver of a shared net: a component and which of its outputs. */
  datatype Driver = Driver(comp: Key, out: nat)

  datatype PinRef = InPin(i: nat) | OutPin(o: nat)

  datatype Error = Ok | InvalidNet | PinNotFound | MultipleDrivers

  // ---- Pins ----

  predicate HasPin(c: Component, r: PinRef) {
    match r
    case InPin(i) => i < |c.inputs|
    case OutPin(o) => o < |c.outputs|
  }

  function PinAt(c: Component, r: PinRef): Pin
    requires HasPin(c, r)
  {
    match r
    case InPin(i) => c.inputs[i]
    case OutPin(o) => c.outputs[o]
  }

  function SetNet(c: Component, r: PinRef, net: Option<Key>): Component
    requires HasPin(c, r)
  {
    match r
    case InPin(i) => c.(inputs := c.inputs[i := c.inputs[i].(net := net)])
    case OutPin(o) => c.(outputs := c.outputs[o := c.outputs[o].(net := net)])
  }

  /** The components with one pin moved to another net, or to none. */
  function Moved(comps: seq<Component>, k: nat, r: PinRef, net: Option<Key>): seq<Component>
    requires k < |comps| && HasPin(comps[k], r)
  {
    comps[k := SetNet(comps[k], r, net)]
  }

  /** Pin i, if it is one of the list, is on the net given; every other pin, and every other property of pin i, is as it
      was. */
  ghost predicate PinMoved(pins: seq<Pin>, i: int, net: Option<Key>, after: seq<Pin>) {
    |after| == |pins| && forall p :: 0 <= p < |pins| ==>
      after[p] == Pin(pins[p].name, pins[p].width, pins[p].tri, if p == i then net else pins[p].net)
  }

  /** Only the pin r of component k has moved, to the net given. */
  ghost predicate OnePinMoved(comps: seq<Component>, k: nat, r: PinRef, net: Option<Key>, after: seq<Component>) {
    |after| == |comps| && forall l :: 0 <= l < |comps| ==>
      && after[l].key == comps[l].key
      && PinMoved(comps[l].inputs, if l == k && r.InPin? then r.i else -1, net, after[l].inputs)
      && PinMoved(comps[l].outputs, if l == k && r.OutPin? then r.o else -1, net, after[l].outputs)
  }

  lemma MovedIsOnePin(comps: seq<Component>, k: nat, r: PinRef, net: Option<Key>)
    requires k < |comps| && HasPin(comps[k], r)
    ensures OnePinMoved(comps, k, r, net, Moved(comps, k, r, net))
  {
    var after := Moved(comps, k, r, net);
    forall l | 0 <= l < |comps|
      ensures after[l].key == comps[l].key
      ensures PinMoved(comps[l].inputs, if l == k && r.InPin? then r.i else -1, net, after[l].inputs)
      ensures PinMoved(comps[l].outputs, if l == k && r.OutPin? then r.o else -1, net, after[l].outputs)
    {
      if l == k {
        assert after[l] == SetNet(comps[k], r, net);
      }
    }
  }

  ghost predicate NoneNamed(pins: seq<Pin>, n: nat, name: string) {
    forall k :: 0 <= k < n <= |pins| ==> pins[k].name != name
  }

  /** r is the pin a name denotes: the first input of that name, else the first output. */
  ghost predicate Denotes(c: Component, name: string, r: Option<PinRef>) {
    match r
    case None => NoneNamed(c.inputs, |c.inputs|, name) && NoneNamed(c.outputs, |c.outputs|, name)
    case Some(InPin(i)) => i < |c.inputs| && c.inputs[i].name == name && NoneNamed(c.inputs, i, name)
    case Some(OutPin(o)) =>
      NoneNamed(c.inputs, |c.inputs|, name) && o < |c.outputs| && c.outputs[o].name == name && NoneNamed(c.outputs, o, name)
  }

  // ---- Widths ----

  function Max(a: nat, b: nat): nat {
    if a < b then b else a
  }

  /** The widest of the pins that are on a net. */
  function PinsWidth(pins: seq<Pin>, net: Key): nat {
    if pins == [] then 0
    else
      var rest := PinsWidth(pins[..|pins| - 1], net);
      if pins[|pins| - 1].net == Some(net) then Max(rest, pins[|pins| - 1].width) else rest
  }

  function ComponentWidth(c: Component, net: Key): nat {
    Max(PinsWidth(c.inputs, net), PinsWidth(c.outputs, net))
  }

  function NetWidth(comps: seq<Component>, net: Key): nat {
    if comps == [] then 0
    else Max(NetWidth(comps[..|comps| - 1], net), ComponentWidth(comps[|comps| - 1], net))
  }

  // ---- The invariant ----

  ghost predicate OutOn(comps: seq<Component>, k: int, o: int, net: Key) {
    0 <= k < |comps| && 0 <= o < |comps[k].outputs| && comps[k].outputs[o].net == Some(net)
  }

  ghost predicate IsNet(nets: seq<Net>, net: Key) {
    exists i :: 0 <= i < |nets| && nets[i].key == net
  }

  ghost predicate Numbered(nets: seq<Net>) {
    && (forall i :: 0 <= i < |nets| ==> nets[i].id == i)
    && (forall i, j :: 0 <= i < j < |nets| ==> nets[i].key != nets[j].key)
  }

  ghost predicate DistinctKeys(comps: seq<Component>) {
    forall i, j :: 0 <= i < j < |comps| ==> comps[i].key != comps[j].key
  }

  ghost predicate PinsOnNets(pins: seq<Pin>, nets: seq<Net>) {
    forall p :: p in pins && p.net.Some? ==> IsNet(nets, p.net.value)
  }

  /** Every connected pin is on a net of the circuit. */
  ghost predicate Attached(comps: seq<Component>, nets: seq<Net>) {
    forall c :: c in comps ==> PinsOnNets(c.inputs, nets) && PinsOnNets(c.outputs, nets)
  }

  ghost predicate Widths(comps: seq<Component>, nets: seq<Net>) {
    forall i :: 0 <= i < |nets| ==> nets[i].width == NetWidth(comps, nets[i].key)
  }

  /** Two outputs share a net only when both are tri-state. */
  ghost predicate NoShort(comps: seq<Component>) {
    forall k, o, l, q, net: Key :: OutOn(comps, k, o, net) && OutOn(comps, l, q, net) && (k != l || o != q) ==>
      comps[k].outputs[o].tri && comps[l].outputs[q].tri
  }

  ghost predicate DriverOn(comps: seq<Component>, d: Driver, net: Key) {
    exists k :: 0 <= k < |comps| && comps[k].key == d.comp && OutOn(comps, k, d.out, net)
  }

  ghost predicate Distinct(drivers: seq<Driver>) {
    forall i, j :: 0 <= i < j < |drivers| ==> drivers[i] != drivers[j]
  }

  /** Table entries belong to nets, are not empty, and list outputs that really are on the net, each once. */
  ghost predicate BusSound(comps: seq<Component>, nets: seq<Net>, bus: map<nat, seq<Driver>>) {
    forall id :: id in bus ==> id < |nets| && EntrySound(comps, nets[id].key, bus[id])
  }

  ghost predicate EntrySound(comps: seq<Component>, net: Key, drivers: seq<Driver>) {
    drivers != [] && Distinct(drivers) && forall d :: d in drivers ==> DriverOn(comps, d, net)
  }

  /** Outputs that share a net are in its entry. */
  ghost predicate BusComplete(comps: seq<Component>, nets: seq<Net>, bus: map<nat, seq<Driver>>) {
    forall i, k, o, l, q ::
      0 <= i < |nets| && OutOn(comps, k, o, nets[i].key) && OutOn(comps, l, q, nets[i].key) && (k != l || o != q) ==>
      i in bus && Driver(comps[k].key, o) in bus[i]
  }

  ghost predicate Consistent(comps: seq<Component>, nets: seq<Net>, bus: map<nat, seq<Driver>>) {
    && Numbered(nets) && DistinctKeys(comps) && Attached(comps, nets) && NoShort(comps)
    && BusSound(comps, nets, bus) && BusComplete(comps, nets, bus)
  }

  /** The same nets, up to their widths. */
  ghost predicate SameNets(a: seq<Net>, b: seq<Net>) {
    |a| == |b| && forall i :: 0 <= i < |a| ==> a[i].key == b[i].key && a[i].id == b[i].id
  }

  // ---- What the invariant means ----

  lemma {:induction false} PinsWidthIsMax(pins: seq<Pin>, net: Key)
    ensures forall p :: p in pins && p.net == Some(net) ==> p.width <= PinsWidth(pins, net)
    ensures PinsWidth(pins, net) == 0 || exists p :: p in pins && p.net == Some(net) && p.width == PinsWidth(pins, net)
  {
    if pins != [] {
      var init, last := pins[..|pins| - 1], pins[|pins| - 1];
      PinsWidthIsMax(init, net);
      assert pins == init + [last];
      if PinsWidth(pins, net) == PinsWidth(init, net) && PinsWidth(init, net) != 0 {
        var p :| p in init && p.net == Some(net) && p.width == PinsWidth(init, net);
        assert p in pins;
      }
    }
  }

  /** A net is as wide as its widest pin. */
  lemma {:induction false} NetWidthIsMax(comps: seq<Component>, net: Key)
    ensures forall c, p :: c in comps && (p in c.inputs || p in c.outputs) && p.net == Some(net) ==>
      p.width <= NetWidth(comps, net)
    ensures NetWidth(comps, net) == 0 ||
      exists c, p :: c in comps && (p in c.inputs || p in c.outputs) && p.net == Some(net) && p.width == NetWidth(comps, net)
  {
    if comps != [] {
      var init, c := comps[..|comps| - 1], comps[|comps| - 1];
      NetWidthIsMax(init, net);
      PinsWidthIsMax(c.inputs, net);
      PinsWidthIsMax(c.outputs, net);
      assert comps == init + [c];
      var w := NetWidth(comps, net);
      if w == NetWidth(init, net) && w != 0 {
        var e, p :| e in init && (p in e.inputs || p in e.outputs) && p.net == Some(net) && p.width == w;
        assert e in comps;
      } else if w == PinsWidth(c.inputs, net) && w != 0 {
        var p :| p in c.inputs && p.net == Some(net) && p.width == w;
      } else if w != 0 {
        var p :| p in c.outputs && p.net == Some(net) && p.width == w;
      }
    }
  }

  /** When two outputs share a net, the table lists exactly the outputs that are on it. */
  lemma TableIsExact(comps: seq<Component>, nets: seq<Net>, bus: map<nat, seq<Driver>>, i: nat, k: nat, o: nat, l: nat, q: nat)
    requires Consistent(comps, nets, bus) && i < |nets|
    requires OutOn(comps, k, o, nets[i].key) && OutOn(comps, l, q, nets[i].key) && (k != l || o != q)
    ensures i in bus && forall d :: d in bus[i] <==> DriverOn(comps, d, nets[i].key)
  {
    forall d | DriverOn(comps, d, nets[i].key) ensures d in bus[i] {
      var m :| 0 <= m < |comps| && comps[m].key == d.comp && OutOn(comps, m, d.out, nets[i].key);
      if m == k && d.out == o {
        assert d == Driver(comps[k].key, o);
      } else {
        assert OutOn(comps, m, d.out, nets[i].key) && OutOn(comps, k, o, nets[i].key);
        assert d == Driver(comps[m].key, d.out);
      }
    }
  }

  // ---- Moving one pin ----

  lemma {:induction false} PinsWidthMoved(pins: seq<Pin>, i: nat, to: Option<Key>, net: Key)
    requires i < |pins|
    ensures var after := pins[i := pins[i].(net := to)];
      && (to == Some(net) && (pins[i].net == None || pins[i].net == to) ==>
            PinsWidth(after, net) == Max(PinsWidth(pins, net), pins[i].width))
      && (to != Some(net) && pins[i].net != Some(net) ==> PinsWidth(after, net) == PinsWidth(pins, net))
  {
    var n := |pins| - 1;
    var after := pins[i := pins[i].(net := to)];
    if i < n {
      PinsWidthMoved(pins[..n], i, to, net);
      assert after[..n] == pins[..n][i := pins[i].(net := to)];
    } else {
      assert after[..n] == pins[..n];
    }
  }

  /** Putting an unconnected pin on a net widens that net and no other. */
  lemma {:induction false} NetWidthMoved(comps: seq<Component>, k: nat, r: PinRef, to: Option<Key>, net: Key)
    requires k < |comps| && HasPin(comps[k], r)
    ensures var after := Moved(comps, k, r, to); var pin := PinAt(comps[k], r);
      && (to == Some(net) && (pin.net == None || pin.net == to) ==>
            NetWidth(after, net) == Max(NetWidth(comps, net), pin.width))
      && (to != Some(net) && pin.net != Some(net) ==> NetWidth(after, net) == NetWidth(comps, net))
  {
    hide PinsWidth, SetNet;
    var n := |comps| - 1;
    var after := Moved(comps, k, r, to);
    if k < n {
      NetWidthMoved(comps[..n], k, r, to, net);
      assert after[..n] == Moved(comps[..n], k, r, to);
      assert after[n] == comps[n];
    } else {
      assert after[..n] == comps[..n];
      OneWidthMoved(comps[n], r, to, net);
    }
  }

  lemma OneWidthMoved(c: Component, r: PinRef, to: Option<Key>, net: Key)
    requires HasPin(c, r)
    ensures var after := SetNet(c, r, to); var pin := PinAt(c, r);
      && (to == Some(net) && (pin.net == None || pin.net == to) ==>
            ComponentWidth(after, net) == Max(ComponentWidth(c, net), pin.width))
      && (to != Some(net) && pin.net != Some(net) ==> ComponentWidth(after, net) == ComponentWidth(c, net))
  {
    match r
    case InPin(i) => PinsWidthMoved(c.inputs, i, to, net);
    case OutPin(o) => PinsWidthMoved(c.outputs, o, to, net);
  }

  lemma WidthsMoved(comps: seq<Component>, nets: seq<Net>, k: nat, r: PinRef, i: nat)
    requires k < |comps| && HasPin(comps[k], r) && Numbered(nets) && Widths(comps, nets) && i < |nets|
    requires PinAt(comps[k], r).net == None || PinAt(comps[k], r).net == Some(nets[i].key)
    ensures var width := Max(nets[i].width, PinAt(comps[k], r).width);
      Widths(Moved(comps, k, r, Some(nets[i].key)), nets[i := nets[i].(width := width)])
  {
    forall j | 0 <= j < |nets|
      ensures NetWidth(Moved(comps, k, r, Some(nets[i].key)), nets[j].key) ==
              if j == i then Max(nets[i].width, PinAt(comps[k], r).width) else nets[j].width
    {
      NetWidthMoved(comps, k, r, Some(nets[i].key), nets[j].key);
    }
  }

  ghost predicate IsOut(r: PinRef, q: int) {
    r.OutPin? && r.o == q
  }

  /** Where outputs are after a pin has moved. */
  lemma OutOnMoved(comps: seq<Component>, k: nat, r: PinRef, to: Option<Key>)
    requires k < |comps| && HasPin(comps[k], r)
    ensures forall l, q, net: Key :: OutOn(Moved(comps, k, r, to), l, q, net) <==>
      if l == k && IsOut(r, q) then to == Some(net) else OutOn(comps, l, q, net)
  {
  }

  lemma AttachedMoved(comps: seq<Component>, nets: seq<Net>, k: nat, r: PinRef, to: Option<Key>)
    requires k < |comps| && HasPin(comps[k], r) && Attached(comps, nets) && (to.Some? ==> IsNet(nets, to.value))
    ensures Attached(Moved(comps, k, r, to), nets)
  {
    var after := Moved(comps, k, r, to);
    assert comps[k] in comps;
    forall c | c in after ensures PinsOnNets(c.inputs, nets) && PinsOnNets(c.outputs, nets) {
      if c != after[k] {
        assert c in comps;
      }
    }
  }

  // ---- The table of shared nets ----

  function Drop(drivers: seq<Driver>, d: Driver): (rest: seq<Driver>)
    ensures forall e :: e in rest <==> e in drivers && e != d
  {
    if drivers == [] then []
    else
      var init := Drop(drivers[..|drivers| - 1], d);
      assert drivers == drivers[..|drivers| - 1] + [drivers[|drivers| - 1]];
      if drivers[|drivers| - 1] == d then init else init + [drivers[|drivers| - 1]]
  }

  lemma {:induction false} DropDistinct(drivers: seq<Driver>, d: Driver)
    requires Distinct(drivers)
    ensures Distinct(Drop(drivers, d))
  {
    if drivers != [] {
      var init, last := drivers[..|drivers| - 1], drivers[|drivers| - 1];
      DropDistinct(init, d);
      assert last !in init;
      assert last !in Drop(init, d);
      DistinctSnoc(Drop(init, d), last);
    }
  }

  lemma DistinctSnoc(drivers: seq<Driver>, d: Driver)
    requires Distinct(drivers) && d !in drivers
    ensures Distinct(drivers + [d])
  {
  }

  /** The table without one driver of one net; an entry that becomes empty goes. */
  function BusWithout(bus: map<nat, seq<Driver>>, id: nat, d: Driver): map<nat, seq<Driver>> {
    if id !in bus then bus
    else if Drop(bus[id], d) == [] then bus - {id}
    else bus[id := Drop(bus[id], d)]
  }

  function BusDetached(comps: seq<Component>, bus: map<nat, seq<Driver>>, k: nat, r: PinRef, id: nat): map<nat, seq<Driver>>
    requires k < |comps|
  {
    if r.OutPin? then BusWithout(bus, id, Driver(comps[k].key, r.o)) else bus
  }

  /** The entry of a net has lost the driver, and is gone when no other was listed; all other entries are as they were. */
  ghost predicate EntryLost(bus: map<nat, seq<Driver>>, id: nat, d: Driver, after: map<nat, seq<Driver>>) {
    && (forall j: nat :: j != id ==> (j in after <==> j in bus) && (j in bus ==> after[j] == bus[j]))
    && (id in after <==> id in bus && exists e :: e in bus[id] && e != d)
    && (id in after ==> forall e :: e in after[id] <==> e in bus[id] && e != d)
  }

  lemma WithoutLosesEntry(bus: map<nat, seq<Driver>>, id: nat, d: Driver)
    ensures EntryLost(bus, id, d, BusWithout(bus, id, d))
  {
    if id in bus {
      var rest := Drop(bus[id], d);
      assert rest != [] ==> rest[0] in rest;
    }
  }

  /** What taking a pin off its net means: only that pin has moved, and only an output's entry has lost it. */
  ghost predicate TakenOff(comps: seq<Component>, nets: seq<Net>, bus: map<nat, seq<Driver>>, k: nat, r: PinRef,
                           after: seq<Component>, bus1: map<nat, seq<Driver>>)
    requires k < |comps| && HasPin(comps[k], r)
  {
    && OnePinMoved(comps, k, r, None, after)
    && (r.InPin? || PinAt(comps[k], r).net == None ==> bus1 == bus)
    && (r.OutPin? ==> forall id: nat :: id < |nets| && PinAt(comps[k], r).net == Some(nets[id].key) ==>
          EntryLost(bus, id, Driver(comps[k].key, r.o), bus1))
  }

  lemma DetachedIsTakenOff(comps: seq<Component>, nets: seq<Net>, bus: map<nat, seq<Driver>>, k: nat, r: PinRef,
                           after: seq<Component>, bus1: map<nat, seq<Driver>>)
    requires k < |comps| && HasPin(comps[k], r) && Attached(comps, nets) && Detached(comps, nets, bus, k, r, after, bus1)
    ensures TakenOff(comps, nets, bus, k, r, after, bus1)
  {
    MovedIsOnePin(comps, k, r, None);
    hide OnePinMoved, Moved, BusWithout, EntryLost;
    if r.OutPin? {
      forall id: nat | id < |nets| && PinAt(comps[k], r).net == Some(nets[id].key)
        ensures EntryLost(bus, id, Driver(comps[k].key, r.o), bus1)
      {
        WithoutLosesEntry(bus, id, Driver(comps[k].key, r.o));
      }
    } else if PinAt(comps[k], r).net.Some? {
      assert comps[k] in comps && comps[k].inputs[r.i] in comps[k].inputs;
      assert IsNet(nets, PinAt(comps[k], r).net.value);
    }
  }

  lemma DriverOnMoved(comps: seq<Component>, k: nat, r: PinRef, to: Option<Key>, d: Driver, net: Key)
    requires k < |comps| && HasPin(comps[k], r) && DistinctKeys(comps)
    ensures DriverOn(Moved(comps, k, r, to), d, net) <==>
      if r.OutPin? && d == Driver(comps[k].key, r.o) then to == Some(net) else DriverOn(comps, d, net)
  {
    OutOnMoved(comps, k, r, to);
    var after := Moved(comps, k, r, to);
    if DriverOn(after, d, net) {
      var m :| 0 <= m < |after| && after[m].key == d.comp && OutOn(after, m, d.out, net);
      assert comps[m].key == d.comp;
    }
    if DriverOn(comps, d, net) {
      var m :| 0 <= m < |comps| && comps[m].key == d.comp && OutOn(comps, m, d.out, net);
      assert after[m].key == d.comp;
    }
    if r.OutPin? && d == Driver(comps[k].key, r.o) && to == Some(net) {
      assert OutOn(after, k, d.out, net) && after[k].key == d.comp;
    }
  }

  /** An output is a driver of the one net it is on. */
  lemma DriverOnOne(comps: seq<Component>, k: nat, o: nat, net: Key)
    requires k < |comps| && o < |comps[k].outputs| && DistinctKeys(comps)
    ensures DriverOn(comps, Driver(comps[k].key, o), net) <==> OutOn(comps, k, o, net)
  {
  }

  /** The state after a pin was taken off its net, if it was on one. */
  ghost predicate Detached(comps: seq<Component>, nets: seq<Net>, bus: map<nat, seq<Driver>>, k: nat, r: PinRef,
                           comps1: seq<Component>, bus1: map<nat, seq<Driver>>)
    requires k < |comps| && HasPin(comps[k], r)
  {
    && comps1 == Moved(comps, k, r, None)
    && (PinAt(comps[k], r).net == None ==> bus1 == bus)
    && forall id: nat :: id < |nets| && PinAt(comps[k], r).net == Some(nets[id].key) ==>
         bus1 == BusDetached(comps, bus, k, r, id)
  }

  lemma MovedNowhere(c: Component, r: PinRef)
    requires HasPin(c, r) && PinAt(c, r).net == None
    ensures SetNet(c, r, None) == c
  {
    match r
    case InPin(i) => assert c.inputs[i := c.inputs[i].(net := None)] == c.inputs;
    case OutPin(o) => assert c.outputs[o := c.outputs[o].(net := None)] == c.outputs;
  }

  lemma OutputsOnNets(comps: seq<Component>, nets: seq<Net>)
    requires Attached(comps, nets)
    ensures forall k, o, net: Key :: OutOn(comps, k, o, net) ==> IsNet(nets, net)
  {
    forall k, o, net: Key | OutOn(comps, k, o, net) ensures IsNet(nets, net) {
      assert comps[k] in comps && comps[k].outputs[o] in comps[k].outputs;
    }
  }

  lemma DetachKeepsBusSound(comps: seq<Component>, nets: seq<Net>, bus: map<nat, seq<Driver>>, k: nat, r: PinRef, id: nat)
    requires Consistent(comps, nets, bus) && k < |comps| && HasPin(comps[k], r) && id < |nets|
    requires PinAt(comps[k], r).net == Some(nets[id].key)
    ensures BusSound(Moved(comps, k, r, None), nets, BusDetached(comps, bus, k, r, id))
  {
    var after, bus1 := Moved(comps, k, r, None), BusDetached(comps, bus, k, r, id);
    forall i | i in bus1 ensures i < |nets| && EntrySound(after, nets[i].key, bus1[i]) {
      assert EntrySound(comps, nets[i].key, bus[i]);
      DropDistinct(bus[i], Driver(comps[k].key, if r.OutPin? then r.o else 0));
      forall d | d in bus1[i] ensures DriverOn(after, d, nets[i].key) {
        assert d in bus[i] && DriverOn(comps, d, nets[i].key);
        DriverOnMoved(comps, k, r, None, d, nets[i].key);
        if r.OutPin? {
          DriverOnOne(comps, k, r.o, nets[i].key);
        }
      }
    }
  }

  lemma DetachKeepsBusComplete(comps: seq<Component>, nets: seq<Net>, bus: map<nat, seq<Driver>>, k: nat, r: PinRef, id: nat)
    requires Consistent(comps, nets, bus) && k < |comps| && HasPin(comps[k], r) && id < |nets|
    requires PinAt(comps[k], r).net == Some(nets[id].key)
    ensures BusComplete(Moved(comps, k, r, None), nets, BusDetached(comps, bus, k, r, id))
  {
    hide NoShort, Attached, BusSound, Numbered;
    var after, bus1 := Moved(comps, k, r, None), BusDetached(comps, bus, k, r, id);
    OutOnMoved(comps, k, r, None);
    forall i, l, o, m, q |
      0 <= i < |nets| && OutOn(after, l, o, nets[i].key) && OutOn(after, m, q, nets[i].key) && (l != m || o != q)
      ensures i in bus1 && Driver(after[l].key, o) in bus1[i]
    {
      assert OutOn(comps, l, o, nets[i].key) && OutOn(comps, m, q, nets[i].key);
      assert i in bus && Driver(comps[l].key, o) in bus[i];
      assert !(l == k && IsOut(r, o));
    }
  }

  /** Taking a pin off its net keeps everything consistent. */
  lemma DetachKeeps(comps: seq<Component>, nets: seq<Net>, bus: map<nat, seq<Driver>>, k: nat, r: PinRef, id: nat)
    requires Consistent(comps, nets, bus) && k < |comps| && HasPin(comps[k], r) && id < |nets|
    requires PinAt(comps[k], r).net == Some(nets[id].key)
    ensures Consistent(Moved(comps, k, r, None), nets, BusDetached(comps, bus, k, r, id))
  {
    DetachKeepsBusSound(comps, nets, bus, k, r, id);
    DetachKeepsBusComplete(comps, nets, bus, k, r, id);
    AttachedMoved(comps, nets, k, r, None);
    OutOnMoved(comps, k, r, None);
    FewerOutputsNoShort(comps, Moved(comps, k, r, None));
  }

  lemma FewerOutputsNoShort(comps: seq<Component>, fewer: seq<Component>)
    requires NoShort(comps) && forall l, q, net: Key :: OutOn(fewer, l, q, net) ==> OutOn(comps, l, q, net)
    requires forall l, q :: 0 <= l < |fewer| && l < |comps| && 0 <= q < |fewer[l].outputs| && q < |comps[l].outputs| ==>
      fewer[l].outputs[q].tri == comps[l].outputs[q].tri
    ensures NoShort(fewer)
  {
  }

  // ---- Putting a pin on a net ----

  /** Some other output is on the net. */
  ghost predicate SharedWith(comps: seq<Component>, k: nat, o: nat, net: Key) {
    exists l, q :: OutOn(comps, l, q, net) && (l != k || q != o)
  }

  /** Every other output on the net is tri-state, and so is this one if there are any. */
  ghost predicate MayDrive(comps: seq<Component>, k: nat, o: nat, net: Key)
    requires k < |comps| && o < |comps[k].outputs|
  {
    forall l, q :: OutOn(comps, l, q, net) && (l != k || q != o) ==>
      comps[l].outputs[q].tri && comps[k].outputs[o].tri
  }

  /** The table after a pin was put on net i: if the net is shared its entry lists exactly the outputs on it. */
  ghost predicate BusAttached(comps: seq<Component>, after: seq<Component>, nets: seq<Net>, k: nat, r: PinRef, i: nat,
                              bus: map<nat, seq<Driver>>, bus1: map<nat, seq<Driver>>)
    requires i < |nets|
  {
    if r.OutPin? && SharedWith(comps, k, r.o, nets[i].key) then
      && i in bus1 && bus1[i] != [] && Distinct(bus1[i])
      && bus1 - {i} == bus - {i}
      && forall d :: d in bus1[i] <==> DriverOn(after, d, nets[i].key)
    else bus1 == bus
  }

  lemma AttachKeepsBusSound(comps: seq<Component>, nets: seq<Net>, bus: map<nat, seq<Driver>>, k: nat, r: PinRef, i: nat,
                            bus1: map<nat, seq<Driver>>)
    requires Consistent(comps, nets, bus) && k < |comps| && HasPin(comps[k], r) && i < |nets|
    requires PinAt(comps[k], r).net == None || PinAt(comps[k], r).net == Some(nets[i].key)
    requires BusAttached(comps, Moved(comps, k, r, Some(nets[i].key)), nets, k, r, i, bus, bus1)
    ensures BusSound(Moved(comps, k, r, Some(nets[i].key)), nets, bus1)
  {
    var after := Moved(comps, k, r, Some(nets[i].key));
    forall id | id in bus1 ensures id < |nets| && EntrySound(after, nets[id].key, bus1[id]) {
      if id == i && r.OutPin? && SharedWith(comps, k, r.o, nets[i].key) {
      } else {
        assert id in bus && bus1[id] == bus[id] by {
          if bus1 != bus { assert id in bus1 - {i}; }
        }
        assert EntrySound(comps, nets[id].key, bus[id]);
        forall d | d in bus1[id] ensures DriverOn(after, d, nets[id].key) {
          DriverOnMoved(comps, k, r, Some(nets[i].key), d, nets[id].key);
          if r.OutPin? && d == Driver(comps[k].key, r.o) {
            DriverOnOne(comps, k, r.o, nets[id].key);
          }
        }
      }
    }
  }

  lemma AttachKeepsBusComplete(comps: seq<Component>, nets: seq<Net>, bus: map<nat, seq<Driver>>, k: nat, r: PinRef,
                               i: nat, bus1: map<nat, seq<Driver>>)
    requires Consistent(comps, nets, bus) && k < |comps| && HasPin(comps[k], r) && i < |nets|
    requires PinAt(comps[k], r).net == None || PinAt(comps[k], r).net == Some(nets[i].key)
    requires BusAttached(comps, Moved(comps, k, r, Some(nets[i].key)), nets, k, r, i, bus, bus1)
    ensures BusComplete(Moved(comps, k, r, Some(nets[i].key)), nets, bus1)
  {
    hide NoShort, Attached, BusSound;
    var after := Moved(comps, k, r, Some(nets[i].key));
    OutOnMoved(comps, k, r, Some(nets[i].key));
    forall id, l, o, m, q |
      0 <= id < |nets| && OutOn(after, l, o, nets[id].key) && OutOn(after, m, q, nets[id].key) && (l != m || o != q)
      ensures id in bus1 && Driver(after[l].key, o) in bus1[id]
    {
      if id == i && r.OutPin? && SharedWith(comps, k, r.o, nets[i].key) {
        assert DriverOn(after, Driver(after[l].key, o), nets[i].key);
      } else {
        assert OutOn(comps, l, o, nets[id].key) && OutOn(comps, m, q, nets[id].key);
        assert id in bus && Driver(comps[l].key, o) in bus[id];
        if bus1 != bus { assert id in bus - {i}; }
      }
    }
  }

  /** Putting a pin on a net it may drive keeps everything consistent. */
  lemma AttachKeeps(comps: seq<Component>, nets: seq<Net>, bus: map<nat, seq<Driver>>, k: nat, r: PinRef, i: nat,
                    bus1: map<nat, seq<Driver>>)
    requires Consistent(comps, nets, bus) && k < |comps| && HasPin(comps[k], r) && i < |nets|
    requires PinAt(comps[k], r).net == None || PinAt(comps[k], r).net == Some(nets[i].key)
    requires r.OutPin? ==> MayDrive(comps, k, r.o, nets[i].key)
    requires BusAttached(comps, Moved(comps, k, r, Some(nets[i].key)), nets, k, r, i, bus, bus1)
    ensures Consistent(Moved(comps, k, r, Some(nets[i].key)), nets, bus1)
  {
    AttachKeepsBusSound(comps, nets, bus, k, r, i, bus1);
    AttachKeepsBusComplete(comps, nets, bus, k, r, i, bus1);
    AttachedMoved(comps, nets, k, r, Some(nets[i].key));
    OutOnMoved(comps, k, r, Some(nets[i].key));
    assert NoShort(Moved(comps, k, r, Some(nets[i].key)));
  }

  /** A driver other than the output being connected. */
  ghost predicate OtherDriver(comps: seq<Component>, k: nat, o: nat, net: Key, d: Driver) {
    exists l :: 0 <= l < |comps| && comps[l].key == d.comp && OutOn(comps, l, d.out, net) && (l != k || d.out != o)
  }

  /** The outputs on the net afterwards are the others and the new one. */
  lemma DriversAfter(comps: seq<Component>, k: nat, o: nat, net: Key, d: Driver)
    requires k < |comps| && o < |comps[k].outputs| && DistinctKeys(comps)
    ensures DriverOn(Moved(comps, k, OutPin(o), Some(net)), d, net) <==>
      OtherDriver(comps, k, o, net, d) || d == Driver(comps[k].key, o)
  {
    DriverOnMoved(comps, k, OutPin(o), Some(net), d, net);
    if DriverOn(comps, d, net) && d != Driver(comps[k].key, o) {
      var l :| 0 <= l < |comps| && comps[l].key == d.comp && OutOn(comps, l, d.out, net);
    }
  }

  /** The other drivers do not depend on where the output itself is. */
  lemma OthersMoved(comps: seq<Component>, k: nat, o: nat, to: Option<Key>, net: Key)
    requires k < |comps| && o < |comps[k].outputs|
    ensures var after := Moved(comps, k, OutPin(o), to);
      && (MayDrive(comps, k, o, net) <==> MayDrive(after, k, o, net))
      && (SharedWith(comps, k, o, net) <==> SharedWith(after, k, o, net))
      && forall d :: OtherDriver(comps, k, o, net, d) <==> OtherDriver(after, k, o, net, d)
  {
    var after := Moved(comps, k, OutPin(o), to);
    OutOnMoved(comps, k, OutPin(o), to);
    if SharedWith(comps, k, o, net) {
      var l, q :| OutOn(comps, l, q, net) && (l != k || q != o);
      assert OutOn(after, l, q, net);
    }
    forall d ensures OtherDriver(comps, k, o, net, d) <==> OtherDriver(after, k, o, net, d) {
      if OtherDriver(comps, k, o, net, d) {
        var l :| 0 <= l < |comps| && comps[l].key == d.comp && OutOn(comps, l, d.out, net) && (l != k || d.out != o);
        assert after[l].key == d.comp && OutOn(after, l, d.out, net);
      }
      if OtherDriver(after, k, o, net, d) {
        var l :| 0 <= l < |after| && after[l].key == d.comp && OutOn(after, l, d.out, net) && (l != k || d.out != o);
        assert comps[l].key == d.comp && OutOn(comps, l, d.out, net);
      }
    }
  }

  /** The entry made of the earlier entry, the other drivers and the new one is what the table needs. */
  lemma EntryIsAttached(comps: seq<Component>, nets: seq<Net>, bus: map<nat, seq<Driver>>, k: nat, o: nat, i: nat,
                        shared: seq<Driver>, entry: seq<Driver>)
    requires Consistent(comps, nets, bus) && k < |comps| && o < |comps[k].outputs| && i < |nets|
    requires forall d :: d in shared <==> OtherDriver(comps, k, o, nets[i].key, d)
    requires shared != [] && Distinct(entry)
    requires forall d :: d in entry <==> (i in bus && d in bus[i]) || d in shared || d == Driver(comps[k].key, o)
    ensures BusAttached(comps, Moved(comps, k, OutPin(o), Some(nets[i].key)), nets, k, OutPin(o), i, bus, bus[i := entry])
  {
    var net := nets[i].key;
    var after := Moved(comps, k, OutPin(o), Some(net));
    assert OtherDriver(comps, k, o, net, shared[0]);
    assert SharedWith(comps, k, o, net);
    assert Driver(comps[k].key, o) in entry;
    forall d ensures d in entry <==> DriverOn(after, d, net) {
      DriversAfter(comps, k, o, net, d);
      if i in bus && d in bus[i] {
        assert EntrySound(comps, nets[i].key, bus[i]);
        DriverOnMoved(comps, k, OutPin(o), Some(net), d, net);
      }
    }
    assert bus[i := entry] - {i} == bus - {i};
  }

  // ---- Removing a component or a net ----

  ghost predicate Unconnected(c: Component) {
    (forall p :: p in c.inputs ==> p.net == None) && (forall p :: p in c.outputs ==> p.net == None)
  }

  function WithoutAt<T>(s: seq<T>, i: nat): seq<T>
    requires i < |s|
  {
    s[..i] + s[i + 1..]
  }

  lemma RemoveDrivers(comps: seq<Component>, k: nat, d: Driver, net: Key)
    requires k < |comps| && Unconnected(comps[k])
    ensures DriverOn(WithoutAt(comps, k), d, net) <==> DriverOn(comps, d, net)
  {
    var rest := WithoutAt(comps, k);
    if DriverOn(comps, d, net) {
      var m :| 0 <= m < |comps| && comps[m].key == d.comp && OutOn(comps, m, d.out, net);
      var m1 := if m < k then m else m - 1;
      assert rest[m1] == comps[m] && OutOn(rest, m1, d.out, net);
    }
    if DriverOn(rest, d, net) {
      var m :| 0 <= m < |rest| && rest[m].key == d.comp && OutOn(rest, m, d.out, net);
      var m1 := if m < k then m else m + 1;
      assert rest[m] == comps[m1] && OutOn(comps, m1, d.out, net);
    }
  }

  lemma RemoveOutOn(comps: seq<Component>, k: nat)
    requires k < |comps|
    ensures forall m, q, net: Key :: OutOn(WithoutAt(comps, k), m, q, net) <==>
      0 <= m < |comps| - 1 && OutOn(comps, if m < k then m else m + 1, q, net)
  {
  }

  /** Removing a component whose pins are all off their nets keeps everything consistent. */
  lemma RemoveComponentKeeps(comps: seq<Component>, nets: seq<Net>, bus: map<nat, seq<Driver>>, k: nat)
    requires Consistent(comps, nets, bus) && k < |comps| && Unconnected(comps[k])
    ensures Consistent(WithoutAt(comps, k), nets, bus)
  {
    var rest := WithoutAt(comps, k);
    RemoveOutOn(comps, k);
    forall id | id in bus ensures EntrySound(rest, nets[id].key, bus[id]) {
      assert EntrySound(comps, nets[id].key, bus[id]);
      forall d | d in bus[id] ensures DriverOn(rest, d, nets[id].key) {
        RemoveDrivers(comps, k, d, nets[id].key);
      }
    }
    RemoveKeepsOthers(comps, nets, bus, k);
    forall c | c in rest ensures c in comps {
    }
  }

  lemma RemoveKeepsOthers(comps: seq<Component>, nets: seq<Net>, bus: map<nat, seq<Driver>>, k: nat)
    requires NoShort(comps) && BusComplete(comps, nets, bus) && k < |comps|
    ensures NoShort(WithoutAt(comps, k)) && BusComplete(WithoutAt(comps, k), nets, bus)
  {
    var rest := WithoutAt(comps, k);
    RemoveOutOn(comps, k);
    forall l, o, m, q, net: Key | OutOn(rest, l, o, net) && OutOn(rest, m, q, net) && (l != m || o != q)
      ensures rest[l].outputs[o].tri && rest[m].outputs[q].tri
    {
      var l1, m1 := if l < k then l else l + 1, if m < k then m else m + 1;
      assert OutOn(comps, l1, o, net) && OutOn(comps, m1, q, net) && rest[l] == comps[l1] && rest[m] == comps[m1];
    }
    forall i, l, o, m, q |
      0 <= i < |nets| && OutOn(rest, l, o, nets[i].key) && OutOn(rest, m, q, nets[i].key) && (l != m || o != q)
      ensures i in bus && Driver(rest[l].key, o) in bus[i]
    {
      var l1, m1 := if l < k then l else l + 1, if m < k then m else m + 1;
      assert OutOn(comps, l1, o, nets[i].key) && OutOn(comps, m1, q, nets[i].key);
      assert rest[l] == comps[l1] && rest[m] == comps[m1];
    }
  }

  function ClearPins(pins: seq<Pin>, net: Key): (r: seq<Pin>)
    ensures |r| == |pins|
    ensures forall j :: 0 <= j < |r| ==> r[j] == if pins[j].net == Some(net) then pins[j].(net := None) else pins[j]
  {
    if pins == [] then []
    else ClearPins(pins[..|pins| - 1], net) +
         [if pins[|pins| - 1].net == Some(net) then pins[|pins| - 1].(net := None) else pins[|pins| - 1]]
  }

  /** The components with every pin taken off the net. */
  ghost predicate Cleared(comps: seq<Component>, net: Key, after: seq<Component>) {
    |after| == |comps| && forall k :: 0 <= k < |comps| ==> after[k] == ClearComponent(comps[k], net)
  }

  function ClearComponent(c: Component, net: Key): Component {
    Component(c.key, ClearPins(c.inputs, net), ClearPins(c.outputs, net))
  }

  /** The pins on the net are on none; all else is as it was. */
  ghost predicate PinsLeft(pins: seq<Pin>, net: Key, after: seq<Pin>) {
    |after| == |pins| && forall p :: 0 <= p < |pins| ==>
      after[p] == Pin(pins[p].name, pins[p].width, pins[p].tri, if pins[p].net == Some(net) then None else pins[p].net)
  }

  ghost predicate AllLeft(comps: seq<Component>, net: Key, after: seq<Component>) {
    |after| == |comps| && forall k :: 0 <= k < |comps| ==>
      && after[k].key == comps[k].key
      && PinsLeft(comps[k].inputs, net, after[k].inputs) && PinsLeft(comps[k].outputs, net, after[k].outputs)
  }

  lemma ClearedLeft(comps: seq<Component>, net: Key, after: seq<Component>)
    requires Cleared(comps, net, after)
    ensures AllLeft(comps, net, after)
  {
  }

  /** The nets without net i, numbered again from 0. */
  ghost predicate Renumbered(nets: seq<Net>, i: nat, after: seq<Net>) {
    && i < |nets| && |after| == |nets| - 1
    && forall j :: 0 <= j < |after| ==> after[j].id == j && after[j].key == nets[OldId(i, j)].key
  }

  function OldId(i: nat, j: nat): nat {
    if j < i then j else j + 1
  }

  /** The table entries under their new numbers. */
  ghost predicate Shifted(bus: map<nat, seq<Driver>>, i: nat, after: map<nat, seq<Driver>>) {
    && (forall j :: j in after ==> OldId(i, j) in bus && after[j] == bus[OldId(i, j)])
    && (forall j: nat :: OldId(i, j) in bus ==> j in after)
  }

  lemma ClearedOutOn(comps: seq<Component>, net: Key, after: seq<Component>)
    requires Cleared(comps, net, after)
    ensures forall k, o, n: Key :: OutOn(after, k, o, n) <==> OutOn(comps, k, o, n) && n != net
  {
  }

  lemma ClearedDrivers(comps: seq<Component>, net: Key, after: seq<Component>, d: Driver, n: Key)
    requires Cleared(comps, net, after) && n != net && DriverOn(comps, d, n)
    ensures DriverOn(after, d, n)
  {
    ClearedOutOn(comps, net, after);
    var k :| 0 <= k < |comps| && comps[k].key == d.comp && OutOn(comps, k, d.out, n);
    assert OutOn(after, k, d.out, n) && after[k].key == d.comp;
  }

  lemma ClearedAttached(comps: seq<Component>, nets: seq<Net>, i: nat, after: seq<Component>, nets1: seq<Net>)
    requires Attached(comps, nets) && i < |nets| && Cleared(comps, nets[i].key, after) && Renumbered(nets, i, nets1)
    ensures Attached(after, nets1)
  {
    forall n: Key | IsNet(nets, n) && n != nets[i].key ensures IsNet(nets1, n) {
      var j :| 0 <= j < |nets| && nets[j].key == n;
      assert nets1[if j < i then j else j - 1].key == n;
    }
    forall c | c in after ensures PinsOnNets(c.inputs, nets1) && PinsOnNets(c.outputs, nets1) {
      var k :| 0 <= k < |after| && after[k] == c;
      assert comps[k] in comps;
      ClearedPinsOnNets(comps[k].inputs, nets, i, nets1);
      ClearedPinsOnNets(comps[k].outputs, nets, i, nets1);
    }
  }

  lemma ClearedPinsOnNets(pins: seq<Pin>, nets: seq<Net>, i: nat, nets1: seq<Net>)
    requires PinsOnNets(pins, nets) && i < |nets|
    requires forall n: Key :: IsNet(nets, n) && n != nets[i].key ==> IsNet(nets1, n)
    ensures PinsOnNets(ClearPins(pins, nets[i].key), nets1)
  {
    var after := ClearPins(pins, nets[i].key);
    forall p | p in after && p.net.Some? ensures IsNet(nets1, p.net.value) {
      var j :| 0 <= j < |after| && after[j] == p;
      assert pins[j] in pins;
    }
  }

  lemma RemoveNetKeepsBusSound(comps: seq<Component>, nets: seq<Net>, bus: map<nat, seq<Driver>>, i: nat,
                               after: seq<Component>, nets1: seq<Net>, bus1: map<nat, seq<Driver>>)
    requires Consistent(comps, nets, bus)
    requires i < |nets| && Cleared(comps, nets[i].key, after) && Renumbered(nets, i, nets1) && Shifted(bus, i, bus1)
    ensures BusSound(after, nets1, bus1)
  {
    hide NoShort, Attached, BusComplete, Cleared, DriverOn;
    forall j | j in bus1 ensures j < |nets1| && EntrySound(after, nets1[j].key, bus1[j]) {
      assert EntrySound(comps, nets[OldId(i, j)].key, bus[OldId(i, j)]);
      forall d | d in bus1[j] ensures DriverOn(after, d, nets1[j].key) {
        ClearedDrivers(comps, nets[i].key, after, d, nets1[j].key);
      }
    }
  }

  lemma RemoveNetKeepsBusComplete(comps: seq<Component>, nets: seq<Net>, bus: map<nat, seq<Driver>>, i: nat,
                                  after: seq<Component>, nets1: seq<Net>, bus1: map<nat, seq<Driver>>)
    requires BusComplete(comps, nets, bus) && |after| == |comps|
    requires forall l :: 0 <= l < |comps| ==> after[l].key == comps[l].key
    requires forall k, o, n: Key :: OutOn(after, k, o, n) ==> OutOn(comps, k, o, n)
    requires Renumbered(nets, i, nets1) && Shifted(bus, i, bus1)
    ensures BusComplete(after, nets1, bus1)
  {
    forall j, l, o, m, q |
      0 <= j < |nets1| && OutOn(after, l, o, nets1[j].key) && OutOn(after, m, q, nets1[j].key) && (l != m || o != q)
      ensures j in bus1 && Driver(after[l].key, o) in bus1[j]
    {
      assert OutOn(comps, l, o, nets1[j].key) && OutOn(comps, m, q, nets1[j].key);
      Listed(comps, nets, bus, OldId(i, j), l, o, m, q);
    }
  }

  lemma Listed(comps: seq<Component>, nets: seq<Net>, bus: map<nat, seq<Driver>>, i: nat, k: nat, o: nat, l: nat, q: nat)
    requires BusComplete(comps, nets, bus) && i < |nets|
    requires OutOn(comps, k, o, nets[i].key) && OutOn(comps, l, q, nets[i].key) && (k != l || o != q)
    ensures i in bus && Driver(comps[k].key, o) in bus[i]
  {
  }

  /** Removing a net keeps everything consistent under the new numbers. */
  lemma RemoveNetKeeps(comps: seq<Component>, nets: seq<Net>, bus: map<nat, seq<Driver>>, i: nat, after: seq<Component>,
                       nets1: seq<Net>, bus1: map<nat, seq<Driver>>)
    requires Consistent(comps, nets, bus)
    requires i < |nets| && Cleared(comps, nets[i].key, after) && Renumbered(nets, i, nets1) && Shifted(bus, i, bus1)
    ensures Consistent(after, nets1, bus1)
  {
    hide BusSound, BusComplete, Attached, NoShort;
    RemoveNetKeepsBusSound(comps, nets, bus, i, after, nets1, bus1);
    ClearedAttached(comps, nets, i, after, nets1);
    ClearedOutOn(comps, nets[i].key, after);
    RemoveNetKeepsBusComplete(comps, nets, bus, i, after, nets1, bus1);
    FewerOutputsNoShort(comps, after);
  }

  lemma SameNetsKeeps(comps: seq<Component>, nets: seq<Net>, bus: map<nat, seq<Driver>>, nets1: seq<Net>)
    requires Consistent(comps, nets, bus) && SameNets(nets, nets1)
    ensures Consistent(comps, nets1, bus)
  {
    forall n: Key | IsNet(nets, n) ensures IsNet(nets1, n) {
      var j :| 0 <= j < |nets| && nets[j].key == n;
      assert nets1[j].key == n;
    }
    assert forall id :: id in bus ==> nets1[id].key == nets[id].key;
  }
}
