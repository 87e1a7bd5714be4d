/** A byte's whole way: from the feed's queue over the line and through the UART's FIFO to software. */
module UartDelivery {
  import opened Serial
  import opened SerialLink
  import opened SerialRuns
  import opened UartSpec

  /** Main result: for every bit time, order of the steps, power-on level and schedule of pushes and bus accesses, the
      frames that arrive are, in order, a prefix of the bytes the feed accepted; and the bytes software reads, followed by
      those waiting in the FIFO, are the arrivals except those that found 16 bytes waiting. */
  lemma SoftwareReadsInOrder(n: nat, late: bool, line: bool, script: seq<Slot>)
    requires n >= 2
    ensures FifoOk(Run(n, UART_RESET, OUTS_RESET, Sampled(n, late, Start(line), script)).0.fifo)
    ensures var buses := Sampled(n, late, Start(line), script);
      var arrivals := Arrivals(n, UART_RESET, OUTS_RESET, buses);
      var received := ReadBytes(n, UART_RESET, OUTS_RESET, buses) + InFifo(Run(n, UART_RESET, OUTS_RESET, buses).0.fifo);
      && AllBytes(arrivals) <= RunFrom(n, late, Start(line), Offered(script)).accepted
      && received == WithRoom(arrivals)
      && ((forall i :: 0 <= i < |arrivals| ==> arrivals[i].room) ==>
            received <= RunFrom(n, late, Start(line), Offered(script)).accepted)
  {
    hide Run, ReadBytes, KeptFrames, Arrivals, AllBytes, WithRoom, RunFrom, Sampled;
    ResetIsSettled();
    var buses := Sampled(n, late, Start(line), script);
    var arrivals := Arrivals(n, UART_RESET, OUTS_RESET, buses);
    ArrivalsAreDelivered(n, late, Start(line), UART_RESET, OUTS_RESET, script);
    FifoConserves(n, UART_RESET, OUTS_RESET, buses);
    KeptFoundRoom(n, UART_RESET, OUTS_RESET, buses);
    DeliversInOrder(n, late, line, Offered(script));
    assert InFifo(UART_RESET.fifo) == [];
    assert [] + KeptFrames(n, UART_RESET, OUTS_RESET, buses) == KeptFrames(n, UART_RESET, OUTS_RESET, buses);
    assert [] + AllBytes(arrivals) == AllBytes(arrivals);
    if forall i :: 0 <= i < |arrivals| ==> arrivals[i].room {
      AllHaveRoom(arrivals);
    }
  }

  // ---- From software to a terminal ----

  /** The byte the transmitter takes from software at this edge: a write to the holding register while it is idle. */
  function Written(n: nat, u: Uart, b: Bus): seq<Byte> {
    if b.Active() && !u.prevStb && b.we && b.Offset() == RBR && !u.regs.Dlab() && !Advance(n, u.tx).busy then [b.dat & 0xFF]
    else []
  }

  /** The bytes taken, edge by edge. */
  function Writes(n: nat, u: Uart, o: Outs, script: seq<Bus>): seq<seq<Byte>>
    requires |u.fifo.slots| == FIFO
    decreases |script|
  {
    if script == [] then []
    else
      var (v, p) := Step(n, u, o, script[0]);
      [Written(n, u, script[0])] + Writes(n, v, p, script[1..])
  }

  function Joined(bytes: seq<seq<Byte>>): seq<Byte> {
    if bytes == [] then [] else bytes[0] + Joined(bytes[1..])
  }

  /** The link's transmitter is one count ahead of the UART's, and its queue is empty. */
  ghost predicate SameLine(n: nat, l: Link, u: Uart, o: Outs) {
    l.tx == Advance(n, u.tx) && l.queue == [] && l.line == o.tx
  }

  /** What one step does to the transmit registers. */
  lemma StepTransmits(n: nat, u: Uart, b: Bus)
    requires |u.fifo.slots| == FIFO
    ensures var (v, o) := FullStep(n, u, b);
      && v.tx == (if Written(n, u, b) != [] then Tx(true, Written(n, u, b)[0], 0, 0) else Advance(n, u.tx))
      && o.tx == TxLevel(v.tx)
  {
    var t := Transmit(n, u.(prevStb := b.Active()));
    assert t.tx == Advance(n, u.tx) && t.regs == u.regs;
    ReceiveKeepsTransmitter(n, t, b.rx);
    var v := Receive(n, t, b.rx);
    var rise := b.Active() && !u.prevStb;
    AccessTransmits(v, b, rise);
    hide Receive, Transmit, Access, Advance, TxLevel;
  }

  lemma ReceiveKeepsTransmitter(n: nat, u: Uart, level: bool)
    requires |u.fifo.slots| == FIFO
    ensures Receive(n, u, level).tx == u.tx && Receive(n, u, level).regs == u.regs
  {
    hide RxEdge, Put;
  }

  lemma AccessTransmits(u: Uart, b: Bus, rise: bool)
    requires |u.fifo.slots| == FIFO
    ensures var w := Access(u, b, rise).0;
      w.tx == if rise && b.we && b.Offset() == RBR && !u.regs.Dlab() && !u.tx.busy then Tx(true, b.dat & 0xFF, 0, 0) else u.tx
  {
    hide Put, Drop, Oldest, LineStatus, WriteSetting;
  }

  lemma EdgeOnLine(n: nat, late: bool, l: Link, u: Uart, o: Outs, b: Bus)
    requires SameLine(n, l, u, o) && Settled(u, o)
    ensures var (v, q) := Step(n, u, o, b); var m := Edge(n, late, PushAll(l, Written(n, u, b)));
      SameLine(n, m, v, q) && m.accepted == l.accepted + Written(n, u, b)
  {
    SettledFastPath(n, u, o, b);
    StepTransmits(n, u, b);
    hide FullStep, Step, RxEdge, Advance, TxLevel, Settled;
    PushWritten(l, Written(n, u, b));
  }

  lemma PushWritten(l: Link, bytes: seq<Byte>)
    requires l.queue == [] && |bytes| <= 1
    ensures PushAll(l, bytes) == l.(queue := bytes, accepted := l.accepted + bytes)
  {
    if bytes != [] {
      assert bytes[1..] == [] && bytes == [bytes[0]];
    } else {
      assert l.accepted + [] == l.accepted;
    }
  }

  lemma {:induction false} WritesOnLine(n: nat, late: bool, l: Link, u: Uart, o: Outs, script: seq<Bus>)
    requires |u.fifo.slots| == FIFO && SameLine(n, l, u, o) && Settled(u, o)
    ensures var m := RunFrom(n, late, l, Writes(n, u, o, script)); var (v, q) := Run(n, u, o, script);
      SameLine(n, m, v, q) && m.accepted == l.accepted + Joined(Writes(n, u, o, script))
    decreases |script|
  {
    hide SameLine, Settled, Step, Edge, PushAll, Written;
    if script == [] {
      assert l.accepted + [] == l.accepted;
    } else {
      var b := script[0];
      EdgeOnLine(n, late, l, u, o, b);
      StepSettles(n, u, o, b);
      var (v, q) := Step(n, u, o, b);
      var m := Edge(n, late, PushAll(l, Written(n, u, b)));
      var writes := Writes(n, u, o, script);
      assert writes[1..] == Writes(n, v, q, script[1..]);
      WritesOnLine(n, late, m, v, q, script[1..]);
      assert l.accepted + (writes[0] + Joined(writes[1..])) == (l.accepted + writes[0]) + Joined(writes[1..]);
    }
  }

  lemma StepSettles(n: nat, u: Uart, o: Outs, b: Bus)
    requires Settled(u, o)
    ensures var (v, q) := Step(n, u, o, b); Settled(v, q)
  {
    FullStepSettles(n, u, b);
    hide FullStep;
  }

  /** Main result: the UART's transmit wire is the line of a link into which exactly the written bytes were fed, so a
      terminal on that wire reports a prefix of them, in order, and counts no error. */
  lemma TerminalReadsInOrder(n: nat, late: bool, script: seq<Bus>)
    requires n >= 2
    ensures var writes := Writes(n, UART_RESET, OUTS_RESET, script);
      var l := RunFrom(n, late, Start(true), writes);
      && l.line == Run(n, UART_RESET, OUTS_RESET, script).1.tx
      && l.accepted == Joined(writes) && l.delivered <= Joined(writes) && l.rx.errors == 0
  {
    ResetIsSettled();
    WritesOnLine(n, late, Start(true), UART_RESET, OUTS_RESET, script);
    var writes := Writes(n, UART_RESET, OUTS_RESET, script);
    DeliversInOrder(n, late, true, writes);
    assert [] + Joined(writes) == Joined(writes);
    hide Run, Writes;
  }
}
