/** The UART's registers and output wires, updated in place at each clock edge. Its receiver is that of UartFeed. */
module UartDevice {
  import opened Serial
  import opened UartSpec
  import UartFeed

  class Transmitter {
    var busy: bool
    var shift: Byte
    var bit: nat
    var cnt: nat

    function Registers(): Tx
      reads this
    {
      Tx(busy, shift, bit, cnt)
    }

    constructor ()
      ensures Registers() == TX_RESET
    {
      busy, shift, bit, cnt := false, 0, 0, 0;
    }

    /** Count one edge; done tells that the frame has just ended. */
    method Count(n: nat) returns (done: bool)
      modifies this
      ensures Registers() == Advance(n, old(Registers())) && done == (old(busy) && !busy)
    {
      done := false;
      if busy {
        cnt := cnt + 1;
        if cnt >= n {
          cnt := 0;
          bit := bit + 1;
          if bit > 9 {
            busy, done := false, true;
          }
        }
      }
    }

    method Load(b: Byte)
      modifies this
      ensures Registers() == Tx(true, b, 0, 0)
    {
      shift := b;
      busy, bit, cnt := true, 0, 0;
    }

    method Level() returns (level: bool)
      ensures level == TxLevel(Registers())
    {
      level := true;
      if busy {
        if bit == 0 {
          level := false;
        } else if bit <= 8 {
          level := BitAt(shift, bit - 1);
        }
      }
    }
  }

  class ByteFifo {
    const slots: array<bv32>
    var head: nat
    var tail: nat
    var count: nat

    /** The 8-bit counters are as far apart as there are bytes waiting. */
    ghost predicate Valid()
      reads this, slots
    {
      slots.Length == FIFO && FifoOk(Value())
    }

    ghost function Value(): (f: Fifo)
      reads this, slots
    {
      Fifo(slots[..], head, tail, count)
    }

    /** The bytes waiting, oldest first. */
    ghost function Contents(): seq<bv32>
      requires Valid()
      reads this, slots
    {
      InFifo(Value())
    }

    constructor ()
      ensures Valid() && fresh(slots) && Value() == FIFO_RESET && Contents() == []
    {
      slots := new bv32[FIFO](_ => 0);
      head, tail, count := 0, 0, 0;
      new;
      assert slots[..] == seq(FIFO, i => 0);
    }

    method Append(b: bv32)
      requires Valid() && count < FIFO
      modifies this, slots
      ensures Valid() && Value() == Put(old(Value()), b) && Contents() == old(Contents()) + [b]
    {
      PutWaits(Value(), b);
      slots[head % 16] := b;
      head := (head + 1) % 256;
      count := count + 1;
    }

    method Take() returns (b: bv32)
      requires Valid() && count > 0
      modifies this
      ensures Valid() && Value() == Drop(old(Value())) && b == Oldest(old(Value()))
      ensures old(Contents()) == [b] + Contents()
    {
      DropTakesOldest(Value());
      b := slots[tail % 16];
      tail := (tail + 1) % 256;
      count := count - 1;
    }
  }

  class Device {
    const n: nat
    const txr: Transmitter
    const rxr: UartFeed.Term
    const fifo: ByteFifo
    var overrun: bool
    var fe: bool
    var thre: bool
    var prevStb: bool
    var regs: Regs
    var latched: bv32
    var wires: Outs

    ghost predicate Shaped()
      reads this, fifo, fifo.slots
    {
      fifo.Valid() && rxr.n == n
    }

    /** Between edges the wires agree with the registers, which is what makes the fast path safe. */
    ghost predicate Valid()
      reads this, txr, rxr, fifo, fifo.slots
    {
      Shaped() && Settled(State(), wires)
    }

    ghost function State(): (u: Uart)
      requires Shaped()
      reads this, txr, rxr, fifo, fifo.slots
      ensures |u.fifo.slots| == FIFO && FifoOk(u.fifo)
    {
      Uart(txr.Registers(), rxr.Registers(), fifo.Value(), overrun, fe, thre, prevStb, regs, latched)
    }

    constructor (n: nat)
      ensures Valid() && fresh(txr) && fresh(rxr) && fresh(fifo) && fresh(fifo.slots)
      ensures this.n == n && State() == UART_RESET && wires == OUTS_RESET
    {
      this.n := n;
      txr := new Transmitter();
      rxr := new UartFeed.Term(n);
      fifo := new ByteFifo();
      overrun, fe, thre, prevStb := false, false, true, false;
      regs, latched := Regs(0, 0x03, 0, 0, 0, 0, 0), 0;
      wires := Outs(0, false, true, false);
    }

    method StepTransmitter()
      requires Shaped()
      modifies this`thre, txr
      ensures Shaped() && State() == Transmit(n, old(State()))
    {
      hide Advance;
      var done := txr.Count(n);
      if done {
        thre := true;
      }
    }

    method StepReceiver(level: bool)
      requires Shaped()
      modifies this`overrun, this`fe, rxr, fifo, fifo.slots
      ensures Shaped() && State() == Receive(n, old(State()), level)
    {
      hide RxEdge, Put;
      var errors := rxr.errors;
      var data, valid := rxr.Edge(level);
      if valid {
        if fifo.count < 16 {
          fifo.Append(data);
        } else {
          overrun := true;
        }
      } else if rxr.errors != errors {
        fe := true;
      }
    }

    method ReadRbr() returns (dout: bv32)
      requires Shaped()
      modifies fifo
      ensures Shaped() && (State(), dout) == ReadBuffer(old(State()))
    {
      hide Drop, Oldest;
      dout := 0;
      if regs.Dlab() {
        dout := regs.dll;
      } else if fifo.count > 0 {
        dout := fifo.Take();
      }
    }

    method Read(off: bv32) returns (dout: bv32)
      requires Shaped()
      modifies this`thre, this`overrun, this`fe, fifo
      ensures Shaped() && (State(), dout) == ReadRegister(old(State()), off)
    {
      hide ReadBuffer;
      dout := 0;
      if off == RBR {
        dout := ReadRbr();
      } else if off == IER {
        dout := if regs.Dlab() then regs.dlm else regs.ier;
      } else if off == IIR {
        dout := 0x1;
        if fifo.count > 0 && regs.ier & 0x01 != 0 {
          dout := 0x4;
        } else if thre && regs.ier & 0x02 != 0 {
          dout := 0x2;
          thre := false;
        }
      } else if off == LCR {
        dout := regs.lcr;
      } else if off == MCR {
        dout := regs.mcr;
      } else if off == LSR {
        dout := (if fifo.count > 0 then 0x01 else 0) | (if overrun then 0x02 else 0) | (if fe then 0x08 else 0) |
                (if !txr.busy then 0x60 else 0);
        overrun := false;
        fe := false;
      } else if off == MSR {
        dout := 0x30;
      } else if off == SCR {
        dout := regs.scr;
      }
    }

    method WriteThr(wdat: bv32)
      requires Shaped()
      modifies this`thre, this`regs, txr
      ensures Shaped() && State() == WriteBuffer(old(State()), wdat)
    {
      if regs.Dlab() {
        regs := regs.(dll := wdat & 0xFF);
      } else if !txr.busy {
        txr.Load(wdat & 0xFF);
        thre := false;
      }
    }

    method Write(off: bv32, wdat: bv32)
      requires Shaped()
      modifies this`thre, this`regs, txr
      ensures Shaped() && State() == WriteRegister(old(State()), off, wdat)
    {
      hide WriteBuffer;
      if off == RBR {
        WriteThr(wdat);
      } else if off == IER {
        regs := if regs.Dlab() then regs.(dlm := wdat & 0xFF) else regs.(ier := wdat & 0x0F);
      } else if off == IIR {
        regs := regs.(fcr := wdat & 0xC9);
      } else if off == LCR {
        regs := regs.(lcr := wdat & 0xFF);
      } else if off == MCR {
        regs := regs.(mcr := wdat & 0x1F);
      } else if off == SCR {
        regs := regs.(scr := wdat & 0xFF);
      }
    }

    method BusAccess(b: Bus, rise: bool) returns (dout: bv32, acked: bool)
      requires Shaped()
      modifies this`thre, this`overrun, this`fe, this`regs, this`latched, txr, fifo
      ensures Shaped() && (State(), dout, acked) == Access(old(State()), b, rise)
    {
      hide ReadRegister, WriteRegister, Takes;
      dout, acked := 0, false;
      if rise {
        if !b.we {
          dout := Read(b.Offset());
        } else {
          Write(b.Offset(), b.dat);
        }
        acked := true;
        latched := dout;
      } else if b.Active() {
        dout := latched;
        acked := true;
      } else {
        latched := 0;
      }
    }

    /** One rising clock edge: the frame kept goes in at the end of the FIFO, the byte read comes from its front. */
    method Edge(b: Bus)
      requires Valid()
      modifies this, txr, rxr, fifo, fifo.slots
      ensures Valid() && (State(), wires) == Step(n, old(State()), old(wires), b)
      ensures old(fifo.Contents()) + KeptFrame(n, old(State()), b.rx) == ReadByte(n, old(State()), b) + fifo.Contents()
    {
      hide FullStep, KeptFrame, ReadByte, InFifo, FifoOk;
      StepConserves(n, State(), b);
      SettledFastPath(n, State(), wires, b);
      FullStepSettles(n, State(), b);
      if !b.Active() && !prevStb && !txr.busy && !rxr.active && b.rx == rxr.prev {
        return;
      }
      FullEdge(b);
    }

    /** The edge without the fast path. */
    method FullEdge(b: Bus)
      requires Shaped()
      modifies this, txr, rxr, fifo, fifo.slots
      ensures Shaped() && (State(), wires) == FullStep(n, old(State()), b)
    {
      hide Transmit, Receive, Access, TxLevel;
      var rise := b.Active() && !prevStb;
      MachinesStep(b.Active(), b.rx);
      var dout, acked := BusAccess(b, rise);
      DriveWires(dout, acked);
    }

    method MachinesStep(strobe: bool, level: bool)
      requires Shaped()
      modifies this, txr, rxr, fifo, fifo.slots
      ensures Shaped() && State() == Receive(n, Transmit(n, old(State()).(prevStb := strobe)), level)
    {
      hide Transmit, Receive;
      prevStb := strobe;
      assert State() == old(State()).(prevStb := strobe);
      StepTransmitter();
      StepReceiver(level);
    }

    method DriveWires(dout: bv32, acked: bool)
      requires Shaped()
      modifies this`wires
      ensures wires == Outs(dout, acked, TxLevel(State().tx), State().Irq())
    {
      hide TxLevel;
      var irq := (fifo.count > 0 && regs.ier & 0x01 != 0) || (thre && regs.ier & 0x02 != 0);
      var level := txr.Level();
      wires := Outs(dout, acked, level, irq);
    }
  }
}
