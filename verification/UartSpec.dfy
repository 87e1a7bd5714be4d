/** The 16550-style UART, one clock edge at a time: its idle fast path, and what software reads from its FIFO. */
module UartSpec {
  import opened Serial
  import opened SerialLink

  const RBR: bv32 := 0x00
  const IER: bv32 := 0x04
  const IIR: bv32 := 0x08
  const LCR: bv32 := 0x0C
  const MCR: bv32 := 0x10
  const LSR: bv32 := 0x14
  const MSR: bv32 := 0x18
  const SCR: bv32 := 0x1C
  const DLAB: bv32 := 0x80
  const FIFO: nat := 16

  /** The receive FIFO: sixteen slots addressed by the low bits of two 8-bit counters. */
  datatype Fifo = Fifo(slots: seq<bv32>, head: nat, tail: nat, count: nat)

  /** The programmable registers. */
  datatype Regs = Regs(ier: bv32, lcr: bv32, mcr: bv32, fcr: bv32, scr: bv32, dll: bv32, dlm: bv32)
  {
    predicate Dlab() {
      lcr & DLAB != 0
    }
  }

  /** The whole state. tx.ch is the transmit shift register; rx also counts frames and framing errors and holds the last
      byte, which the UART itself keeps only as a flag and in its FIFO. */
  datatype Uart = Uart(tx: Tx, rx: Rx, fifo: Fifo, overrun: bool, fe: bool, thre: bool, prevStb: bool, regs: Regs, latched: bv32)
  {
    predicate Irq() {
      (fifo.count > 0 && regs.ier & 0x01 != 0) || (thre && regs.ier & 0x02 != 0)
    }
  }

  /** The four output wires. */
  datatype Outs = Outs(dat: bv32, ack: bool, tx: bool, irq: bool)

  /** What one clock edge samples. */
  datatype Bus = Bus(adr: bv32, dat: bv32, we: bool, stb: bool, cyc: bool, rx: bool)
  {
    predicate Active() {
      stb && cyc
    }

    function Offset(): bv32 {
      adr & 0x1F & !3
    }
  }

  const FIFO_RESET := Fifo([0, 0, 0, 0, 0, 0, 0, 0, 0, 0, 0, 0, 0, 0, 0, 0], 0, 0, 0)
  const UART_RESET := Uart(TX_RESET, RX_RESET, FIFO_RESET, false, false, true, false, Regs(0, 0x03, 0, 0, 0, 0, 0), 0)
  const OUTS_RESET := Outs(0, false, true, false)

  // ---- The FIFO ----

  ghost predicate FifoOk(f: Fifo) {
    |f.slots| == FIFO && f.head < 256 && f.tail < 256 && f.count <= FIFO && f.head == (f.tail + f.count) % 256
  }

  function NextCounter(i: nat): nat {
    (i + 1) % 256
  }

  function Put(f: Fifo, b: bv32): Fifo
    requires |f.slots| == FIFO
  {
    Fifo(f.slots[f.head % FIFO := b], NextCounter(f.head), f.tail, f.count + 1)
  }

  function Oldest(f: Fifo): bv32
    requires |f.slots| == FIFO
  {
    f.slots[f.tail % FIFO]
  }

  function Drop(f: Fifo): Fifo
    requires f.count > 0
  {
    f.(tail := NextCounter(f.tail), count := f.count - 1)
  }

  /** The bytes waiting in the FIFO, oldest first. */
  ghost function InFifo(f: Fifo): seq<bv32>
    requires FifoOk(f)
  {
    seq(f.count, i requires 0 <= i < f.count => f.slots[(f.tail + i) % FIFO])
  }

  /** The slot of an 8-bit counter does not notice its wrap. */
  lemma SlotOfCounter(x: nat)
    ensures x % 256 % FIFO == x % FIFO
  {
  }

  lemma SlotsDiffer(t: nat, i: nat, c: nat)
    requires i < c < FIFO
    ensures (t + i) % FIFO != (t + c) % FIFO
  {
  }

  lemma SlotShifts(t: nat, i: nat)
    ensures ((t + 1) % 256 + i) % FIFO == (t + (i + 1)) % FIFO
  {
  }

  lemma CountersAdd(t: nat, c: nat)
    ensures ((t + c) % 256 + 1) % 256 == (t + (c + 1)) % 256
    ensures ((t + 1) % 256 + c) % 256 == (t + (c + 1)) % 256
  {
    WrapThenAdd(t + c, 1);
    WrapThenAdd(t + 1, c);
  }

  lemma WrapThenAdd(x: nat, y: nat)
    ensures (x % 256 + y) % 256 == (x + y) % 256
  {
    var q := x / 256;
    assert x + y == 256 * q + (x % 256 + y);
    WholeWraps(q, x % 256 + y);
  }

  lemma WholeWraps(q: nat, z: nat)
    ensures (256 * q + z) % 256 == z % 256
  {
  }

  lemma PutWaits(f: Fifo, b: bv32)
    requires FifoOk(f) && f.count < FIFO
    ensures FifoOk(Put(f, b)) && InFifo(Put(f, b)) == InFifo(f) + [b]
  {
    var g := Put(f, b);
    CountersAdd(f.tail, f.count);
    SlotOfCounter(f.tail + f.count);
    forall i | 0 <= i < g.count ensures InFifo(g)[i] == (InFifo(f) + [b])[i] {
      if i < f.count {
        SlotsDiffer(f.tail, i, f.count);
      }
    }
  }

  lemma DropKeepsOrder(f: Fifo, i: nat)
    requires FifoOk(f) && i + 1 < f.count && FifoOk(Drop(f))
    ensures InFifo(Drop(f))[i] == InFifo(f)[i + 1]
  {
    SlotShifts(f.tail, i);
  }

  lemma DropIsOk(f: Fifo)
    requires FifoOk(f) && f.count > 0
    ensures FifoOk(Drop(f)) && Drop(f).count == f.count - 1
  {
    CountersAdd(f.tail, f.count - 1);
  }

  lemma InFifoIs(f: Fifo)
    requires FifoOk(f)
    ensures |InFifo(f)| == f.count && (f.count > 0 ==> InFifo(f)[0] == Oldest(f))
  {
  }

  lemma DropTakesOldest(f: Fifo)
    requires FifoOk(f) && f.count > 0
    ensures FifoOk(Drop(f)) && InFifo(f) == [Oldest(f)] + InFifo(Drop(f))
  {
    DropIsOk(f);
    var g := Drop(f);
    InFifoIs(f);
    InFifoIs(g);
    forall i: nat | i + 1 < f.count ensures InFifo(g)[i] == InFifo(f)[i + 1] {
      DropKeepsOrder(f, i);
    }
    hide FifoOk, InFifo, Drop, Oldest;
  }

  // ---- One edge ----

  function Transmit(n: nat, u: Uart): Uart {
    var tx := Advance(n, u.tx);
    u.(tx := tx, thre := u.thre || (u.tx.busy && !tx.busy))
  }

  /** The receiver is the one of the link; a good frame enters the FIFO or is dropped, a bad one sets a flag. */
  function Receive(n: nat, u: Uart, level: bool): (v: Uart)
    requires |u.fifo.slots| == FIFO
    ensures |v.fifo.slots| == FIFO && v.rx == RxEdge(n, u.rx, level).0
  {
    var (rx, valid) := RxEdge(n, u.rx, level);
    if valid then
      (if u.fifo.count < FIFO then u.(rx := rx, fifo := Put(u.fifo, rx.last)) else u.(rx := rx, overrun := true))
    else u.(rx := rx, fe := u.fe || rx.errors != u.rx.errors)
  }

  function LineStatus(u: Uart): bv32 {
    (if u.fifo.count > 0 then 0x01 else 0) | (if u.overrun then 0x02 else 0) | (if u.fe then 0x08 else 0) |
    (if !u.tx.busy then 0x60 else 0)
  }

  function ReadBuffer(u: Uart): (Uart, bv32)
    requires |u.fifo.slots| == FIFO
  {
    if u.regs.Dlab() then (u, u.regs.dll)
    else if u.fifo.count > 0 then (u.(fifo := Drop(u.fifo)), Oldest(u.fifo))
    else (u, 0)
  }

  function ReadIir(u: Uart): (Uart, bv32) {
    if u.fifo.count > 0 && u.regs.ier & 0x01 != 0 then (u, 0x4)
    else if u.thre && u.regs.ier & 0x02 != 0 then (u.(thre := false), 0x2)
    else (u, 0x1)
  }

  function ReadRegister(u: Uart, off: bv32): (r: (Uart, bv32))
    requires |u.fifo.slots| == FIFO
    ensures off != RBR ==> r.0.fifo == u.fifo
    ensures r.0.rx == u.rx
  {
    if off == RBR then ReadBuffer(u)
    else if off == IER then (u, if u.regs.Dlab() then u.regs.dlm else u.regs.ier)
    else if off == IIR then ReadIir(u)
    else if off == LCR then (u, u.regs.lcr)
    else if off == MCR then (u, u.regs.mcr)
    else if off == LSR then (u.(overrun := false, fe := false), LineStatus(u))
    else if off == MSR then (u, 0x30)
    else if off == SCR then (u, u.regs.scr)
    else (u, 0)
  }

  function WriteBuffer(u: Uart, dat: bv32): (v: Uart)
    ensures v.fifo == u.fifo && v.rx == u.rx
  {
    if u.regs.Dlab() then u.(regs := u.regs.(dll := dat & 0xFF))
    else if !u.tx.busy then u.(tx := Tx(true, dat & 0xFF, 0, 0), thre := false)
    else u
  }

  function WriteSetting(r: Regs, off: bv32, dat: bv32): Regs {
    if off == IER then (if r.Dlab() then r.(dlm := dat & 0xFF) else r.(ier := dat & 0x0F))
    else if off == IIR then r.(fcr := dat & 0xC9)
    else if off == LCR then r.(lcr := dat & 0xFF)
    else if off == MCR then r.(mcr := dat & 0x1F)
    else if off == SCR then r.(scr := dat & 0xFF)
    else r
  }

  function WriteRegister(u: Uart, off: bv32, dat: bv32): (v: Uart)
    ensures v.fifo == u.fifo && v.rx == u.rx
  {
    if off == RBR then WriteBuffer(u, dat) else u.(regs := WriteSetting(u.regs, off, dat))
  }

  /** Whether an access takes a byte from the FIFO. */
  predicate Takes(u: Uart, b: Bus, rise: bool) {
    rise && !b.we && b.Offset() == RBR && !u.regs.Dlab() && u.fifo.count > 0
  }

  /** A bus access happens when the strobe rises; while it stays up the answer is repeated. */
  function Access(u: Uart, b: Bus, rise: bool): (r: (Uart, bv32, bool))
    requires |u.fifo.slots| == FIFO
    ensures r.0.fifo == if Takes(u, b, rise) then Drop(u.fifo) else u.fifo
    ensures Takes(u, b, rise) ==> r.1 == Oldest(u.fifo)
    ensures r.0.rx == u.rx
  {
    if rise then
      var (v, dout) := if b.we then (WriteRegister(u, b.Offset(), b.dat), 0) else ReadRegister(u, b.Offset());
      (v.(latched := dout), dout, true)
    else if b.Active() then (u, u.latched, true)
    else (u.(latched := 0), 0, false)
  }

  function FullStep(n: nat, u: Uart, b: Bus): (r: (Uart, Outs))
    requires |u.fifo.slots| == FIFO
    ensures |r.0.fifo.slots| == FIFO && r.0.rx == RxEdge(n, u.rx, b.rx).0
  {
    var t := Transmit(n, u.(prevStb := b.Active()));
    var v := Receive(n, t, b.rx);
    var (w, dout, ack) := Access(v, b, b.Active() && !u.prevStb);
    (w, Outs(dout, ack, TxLevel(w.tx), w.Irq()))
  }

  /** The test that lets an edge skip everything. */
  predicate Idle(u: Uart, b: Bus) {
    !b.Active() && !u.prevStb && !u.tx.busy && !u.rx.active && b.rx == u.rx.prev
  }

  /** The step as it is emitted: with the fast path, which leaves the registers and the output wires alone. */
  function Step(n: nat, u: Uart, o: Outs, b: Bus): (r: (Uart, Outs))
    requires |u.fifo.slots| == FIFO
    ensures |r.0.fifo.slots| == FIFO
  {
    if Idle(u, b) then (u, o) else FullStep(n, u, b)
  }

  function Run(n: nat, u: Uart, o: Outs, script: seq<Bus>): (r: (Uart, Outs))
    requires |u.fifo.slots| == FIFO
    ensures |r.0.fifo.slots| == FIFO
    decreases |script|
  {
    if script == [] then (u, o)
    else
      var (v, p) := Step(n, u, o, script[0]);
      Run(n, v, p, script[1..])
  }

  // ---- The fast path ----

  /** The output wires agree with the registers. */
  ghost predicate Settled(u: Uart, o: Outs) {
    && FifoOk(u.fifo) && o.irq == u.Irq() && o.tx == TxLevel(u.tx)
    && (!u.prevStb ==> o.dat == 0 && !o.ack && u.latched == 0)
  }

  /** In a settled state the fast path does exactly what the full step would. */
  lemma SettledFastPath(n: nat, u: Uart, o: Outs, b: Bus)
    requires Settled(u, o)
    ensures Step(n, u, o, b) == FullStep(n, u, b)
  {
  }

  lemma ResetIsSettled()
    ensures Settled(UART_RESET, OUTS_RESET)
  {
  }

  /** What an access leaves in the strobe and answer registers. */
  lemma AccessAnswers(u: Uart, b: Bus, rise: bool)
    requires FifoOk(u.fifo) && u.prevStb == b.Active() && (rise ==> b.Active())
    ensures var (w, dout, ack) := Access(u, b, rise);
      FifoOk(w.fifo) && w.prevStb == b.Active() && (!w.prevStb ==> dout == 0 && !ack && w.latched == 0)
  {
    hide ReadBuffer, LineStatus, ReadIir, WriteSetting, WriteBuffer, Oldest;
    if Takes(u, b, rise) {
      DropTakesOldest(u.fifo);
    }
    hide FifoOk, Drop;
    AccessKeepsStrobe(u, b, rise);
  }

  lemma AccessKeepsStrobe(u: Uart, b: Bus, rise: bool)
    requires |u.fifo.slots| == FIFO
    ensures Access(u, b, rise).0.prevStb == u.prevStb
  {
    hide LineStatus, WriteSetting, Oldest;
  }

  lemma FullStepSettles(n: nat, u: Uart, b: Bus)
    requires FifoOk(u.fifo)
    ensures var (v, o) := FullStep(n, u, b); Settled(v, o)
  {
    var t := Transmit(n, u.(prevStb := b.Active()));
    ReceiveWaits(n, t, b.rx);
    var v := Receive(n, t, b.rx);
    assert v.prevStb == b.Active();
    AccessAnswers(v, b, b.Active() && !u.prevStb);
    hide Receive, Transmit, Access, FifoOk, TxLevel;
  }

  /** Every reachable state is settled. */
  lemma {:induction false} RunSettles(n: nat, u: Uart, o: Outs, script: seq<Bus>)
    requires Settled(u, o)
    ensures var (v, p) := Run(n, u, o, script); Settled(v, p)
    decreases |script|
  {
    if script != [] {
      FullStepSettles(n, u, script[0]);
      var (v, p) := Step(n, u, o, script[0]);
      RunSettles(n, v, p, script[1..]);
    }
  }

  /** Main result: in every reachable state the fast path leaves the registers and all four wires exactly as the full
      step would. */
  lemma FastPathIsFullStep(n: nat, script: seq<Bus>, b: Bus)
    ensures var (u, o) := Run(n, UART_RESET, OUTS_RESET, script);
      Step(n, u, o, b) == FullStep(n, u, b)
  {
    ResetIsSettled();
    RunSettles(n, UART_RESET, OUTS_RESET, script);
    var (u, o) := Run(n, UART_RESET, OUTS_RESET, script);
    SettledFastPath(n, u, o, b);
  }

  // ---- What software reads ----

  /** The good frame that ends at this edge, if any. */
  function GoodFrame(n: nat, u: Uart, level: bool): seq<bv32> {
    var (rx, valid) := RxEdge(n, u.rx, level);
    if valid then [rx.last] else []
  }

  /** The good frame that ends at this edge, unless 16 bytes were waiting. */
  function KeptFrame(n: nat, u: Uart, level: bool): seq<bv32> {
    if u.fifo.count < FIFO then GoodFrame(n, u, level) else []
  }

  /** The byte software reads from the receive buffer at this edge: what the data wires show. */
  function ReadByte(n: nat, u: Uart, b: Bus): seq<bv32>
    requires |u.fifo.slots| == FIFO
  {
    var v := Receive(n, Transmit(n, u.(prevStb := b.Active())), b.rx);
    if Takes(v, b, b.Active() && !u.prevStb) then [FullStep(n, u, b).1.dat] else []
  }

  /** Receiving puts the frame kept at the end. */
  lemma ReceiveWaits(n: nat, u: Uart, level: bool)
    requires FifoOk(u.fifo)
    ensures FifoOk(Receive(n, u, level).fifo)
    ensures InFifo(Receive(n, u, level).fifo) == InFifo(u.fifo) + KeptFrame(n, u, level)
  {
    var (rx, valid) := RxEdge(n, u.rx, level);
    if valid && u.fifo.count < FIFO {
      PutWaits(u.fifo, rx.last);
    }
    hide InFifo, FifoOk, RxEdge, Put;
    assert InFifo(u.fifo) + [] == InFifo(u.fifo);
  }

  /** One edge: the frame kept goes in at the end, the byte read comes from the front. */
  lemma StepConserves(n: nat, u: Uart, b: Bus)
    requires FifoOk(u.fifo)
    ensures var v := FullStep(n, u, b).0;
      FifoOk(v.fifo) && InFifo(u.fifo) + KeptFrame(n, u, b.rx) == ReadByte(n, u, b) + InFifo(v.fifo)
  {
    var t := Transmit(n, u.(prevStb := b.Active()));
    ReceiveWaits(n, t, b.rx);
    var v := Receive(n, t, b.rx);
    if Takes(v, b, b.Active() && !u.prevStb) {
      DropTakesOldest(v.fifo);
    }
    hide InFifo, FifoOk, Receive, Takes, Drop, Oldest, Access, RxEdge;
    assert [] + InFifo(v.fifo) == InFifo(v.fifo);
  }

  function KeptFrames(n: nat, u: Uart, o: Outs, script: seq<Bus>): seq<bv32>
    requires |u.fifo.slots| == FIFO
    decreases |script|
  {
    if script == [] then []
    else
      var (v, p) := Step(n, u, o, script[0]);
      KeptFrame(n, u, script[0].rx) + KeptFrames(n, v, p, script[1..])
  }

  function ReadBytes(n: nat, u: Uart, o: Outs, script: seq<Bus>): seq<bv32>
    requires |u.fifo.slots| == FIFO
    decreases |script|
  {
    if script == [] then []
    else
      var (v, p) := Step(n, u, o, script[0]);
      ReadByte(n, u, script[0]) + ReadBytes(n, v, p, script[1..])
  }

  /** Main result: the bytes read, followed by those still waiting, are the good frames in order, without those that
      found 16 bytes waiting; the 8-bit counters wrap unnoticed. */
  lemma {:induction false} FifoConserves(n: nat, u: Uart, o: Outs, script: seq<Bus>)
    requires Settled(u, o)
    ensures FifoOk(Run(n, u, o, script).0.fifo)
    ensures InFifo(u.fifo) + KeptFrames(n, u, o, script) ==
            ReadBytes(n, u, o, script) + InFifo(Run(n, u, o, script).0.fifo)
    decreases |script|
  {
    if script != [] {
      var b := script[0];
      SettledFastPath(n, u, o, b);
      FullStepSettles(n, u, b);
      StepConserves(n, u, b);
      var (v, p) := Step(n, u, o, b);
      FifoConserves(n, v, p, script[1..]);
      var kept, read := KeptFrames(n, v, p, script[1..]), ReadBytes(n, v, p, script[1..]);
      hide InFifo, FullStep, KeptFrame, ReadByte, FifoOk, Idle;
      Reassociate(InFifo(u.fifo), KeptFrame(n, u, b.rx), kept, ReadByte(n, u, b), InFifo(v.fifo), read,
        InFifo(Run(n, v, p, script[1..]).0.fifo));
    }
  }

  lemma Reassociate(w: seq<bv32>, k: seq<bv32>, kept: seq<bv32>, r: seq<bv32>, w1: seq<bv32>, read: seq<bv32>, w2: seq<bv32>)
    requires w + k == r + w1 && w1 + kept == read + w2
    ensures w + (k + kept) == (r + read) + w2
  {
    assert w + (k + kept) == (w + k) + kept;
    assert (r + w1) + kept == r + (w1 + kept);
    assert r + (read + w2) == (r + read) + w2;
  }

  // ---- From the feed to software ----

  /** One edge of feed, line and UART: the bytes offered to the feed before it, and the bus access. */
  datatype Slot = Slot(offered: seq<Byte>, bus: Bus)

  function Offered(script: seq<Slot>): seq<seq<Byte>> {
    if script == [] then [] else [script[0].offered] + Offered(script[1..])
  }

  /** What the UART samples: the bus accesses with the levels of the line. */
  function Sampled(n: nat, late: bool, l: Link, script: seq<Slot>): seq<Bus>
    decreases |script|
  {
    if script == [] then []
    else
      var p := PushAll(l, script[0].offered);
      var level := if late then p.line else TxEdge(n, p.tx, p.queue).2;
      [script[0].bus.(rx := level)] + Sampled(n, late, Edge(n, late, p), script[1..])
  }

  /** A good frame that ended, and whether fewer than 16 bytes were waiting then. */
  datatype Arrival = Arrival(byte: bv32, room: bool)

  function Arrivals(n: nat, u: Uart, o: Outs, script: seq<Bus>): seq<Arrival>
    requires |u.fifo.slots| == FIFO
    decreases |script|
  {
    if script == [] then []
    else
      var frame := GoodFrame(n, u, script[0].rx);
      var (v, p) := Step(n, u, o, script[0]);
      seq(|frame|, i requires 0 <= i < |frame| => Arrival(frame[i], u.fifo.count < FIFO)) + Arrivals(n, v, p, script[1..])
  }

  function AllBytes(arrivals: seq<Arrival>): seq<bv32> {
    seq(|arrivals|, i requires 0 <= i < |arrivals| => arrivals[i].byte)
  }

  /** The bytes that found room. */
  function WithRoom(arrivals: seq<Arrival>): seq<bv32> {
    if arrivals == [] then []
    else (if arrivals[0].room then [arrivals[0].byte] else []) + WithRoom(arrivals[1..])
  }

  lemma {:induction false} AllHaveRoom(arrivals: seq<Arrival>)
    requires forall i :: 0 <= i < |arrivals| ==> arrivals[i].room
    ensures WithRoom(arrivals) == AllBytes(arrivals)
  {
    if arrivals != [] {
      AllHaveRoom(arrivals[1..]);
    }
  }

  /** The frames the UART keeps are the arrivals that found room. */
  lemma {:induction false} KeptFoundRoom(n: nat, u: Uart, o: Outs, script: seq<Bus>)
    requires |u.fifo.slots| == FIFO
    ensures KeptFrames(n, u, o, script) == WithRoom(Arrivals(n, u, o, script))
    decreases |script|
  {
    hide Step, GoodFrame, WithRoom;
    if script != [] {
      var (v, p) := Step(n, u, o, script[0]);
      KeptFoundRoom(n, v, p, script[1..]);
      var frame := GoodFrame(n, u, script[0].rx);
      OneFrameAtMost(n, u, script[0].rx);
      FirstWithRoom(frame, u.fifo.count < FIFO, Arrivals(n, v, p, script[1..]));
    } else {
      assert WithRoom([]) == [] by {
        AllHaveRoom([]);
      }
    }
  }

  lemma FirstWithRoom(frame: seq<bv32>, room: bool, rest: seq<Arrival>)
    requires |frame| <= 1
    ensures WithRoom(seq(|frame|, i requires 0 <= i < |frame| => Arrival(frame[i], room)) + rest) ==
            (if room then frame else []) + WithRoom(rest)
  {
    var first := seq(|frame|, i requires 0 <= i < |frame| => Arrival(frame[i], room));
    if frame == [] {
      assert first + rest == rest;
    } else {
      assert (first + rest)[1..] == rest && frame == [frame[0]];
    }
  }

  lemma OneFrameAtMost(n: nat, u: Uart, level: bool)
    ensures |GoodFrame(n, u, level)| <= 1
  {
  }

  lemma {:induction false} PushingKeeps(l: Link, bytes: seq<Byte>)
    ensures var p := PushAll(l, bytes); p.rx == l.rx && p.delivered == l.delivered && p.line == l.line && p.tx == l.tx
    decreases |bytes|
  {
    if bytes != [] {
      PushingKeeps(Push(l, bytes[0]), bytes[1..]);
    }
  }

  lemma Associate(a: seq<bv32>, b: seq<bv32>, c: seq<bv32>)
    ensures (a + b) + c == a + (b + c)
  {
  }

  lemma NoArrivals(n: nat, u: Uart, o: Outs)
    requires |u.fifo.slots| == FIFO
    ensures AllBytes(Arrivals(n, u, o, [])) == []
  {
  }

  lemma FirstArrival(n: nat, u: Uart, o: Outs, buses: seq<Bus>)
    requires |u.fifo.slots| == FIFO && buses != []
    ensures var (v, q) := Step(n, u, o, buses[0]);
      AllBytes(Arrivals(n, u, o, buses)) == GoodFrame(n, u, buses[0].rx) + AllBytes(Arrivals(n, v, q, buses[1..]))
  {
    hide Step, GoodFrame;
  }

  /** The good frames that end at the UART are the bytes the link delivers, whether or not they find room. */
  lemma {:induction false} ArrivalsAreDelivered(n: nat, late: bool, l: Link, u: Uart, o: Outs, script: seq<Slot>)
    requires u.rx == l.rx && Settled(u, o)
    ensures RunFrom(n, late, l, Offered(script)).delivered ==
            l.delivered + AllBytes(Arrivals(n, u, o, Sampled(n, late, l, script)))
    decreases |script|
  {
    assert |u.fifo.slots| == FIFO;
    hide Settled, FullStep, Step, PushAll, Edge, TxEdge, RxEdge, GoodFrame, AllBytes, Arrivals;
    if script == [] {
      NoArrivals(n, u, o);
      assert l.delivered + [] == l.delivered;
    } else {
      var p := PushAll(l, script[0].offered);
      var buses := Sampled(n, late, l, script);
      var b := buses[0];
      assert buses[1..] == Sampled(n, late, Edge(n, late, p), script[1..]);
      assert Offered(script)[1..] == Offered(script[1..]);
      OneEdge(n, late, l, u, o, script[0].offered, b);
      var (v, q) := Step(n, u, o, b);
      ArrivalsAreDelivered(n, late, Edge(n, late, p), v, q, script[1..]);
      FirstArrival(n, u, o, buses);
      Associate(l.delivered, GoodFrame(n, u, b.rx), AllBytes(Arrivals(n, v, q, buses[1..])));
    }
  }

  /** Link and UART take one edge together. */
  lemma OneEdge(n: nat, late: bool, l: Link, u: Uart, o: Outs, offered: seq<Byte>, b: Bus)
    requires u.rx == l.rx && Settled(u, o)
    requires var p := PushAll(l, offered); b.rx == if late then p.line else TxEdge(n, p.tx, p.queue).2
    ensures var m := Edge(n, late, PushAll(l, offered)); var (v, q) := Step(n, u, o, b);
      Settled(v, q) && v.rx == m.rx && m.delivered == l.delivered + GoodFrame(n, u, b.rx)
  {
    PushingKeeps(l, offered);
    SettledFastPath(n, u, o, b);
    FullStepSettles(n, u, b);
    hide FullStep, TxEdge, RxEdge, Step, PushAll, Idle;
    OneFrame(n, late, l, PushAll(l, offered), u, b);
  }

  lemma OneFrame(n: nat, late: bool, l: Link, p: Link, u: Uart, b: Bus)
    requires u.rx == l.rx == p.rx && p.delivered == l.delivered && FifoOk(u.fifo)
    requires b.rx == if late then p.line else TxEdge(n, p.tx, p.queue).2
    ensures FullStep(n, u, b).0.rx == Edge(n, late, p).rx
    ensures Edge(n, late, p).delivered == l.delivered + GoodFrame(n, u, b.rx)
  {
    hide TxEdge, RxEdge;
    assert l.delivered + [] == l.delivered;
  }
}
