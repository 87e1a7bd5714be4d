/** The controller and the slave as the registers and the byte array they update in place. */
module BlockCopyDevices {
  import opened Words
  import opened BlockCopy
  import opened BlockCopyProof

  class DmaController {
    var src: Word
    var dst: Word
    var len: Word
    var remain: Word
    var rdVal: Data
    var latched: Word
    var adr: Word
    var dat: Data
    var busy: bool
    var done: bool
    var we: bool
    var stb: bool
    var cyc: bool
    var st: Stage
    var prevStb: bool

    function Registers(): Dma
      reads this
    {
      Dma(src, dst, len, remain, rdVal, latched, adr, dat, busy, done, we, stb, cyc, st, prevStb)
    }

    constructor ()
      ensures Registers() == DMA_RESET
    {
      src, dst, len, remain, rdVal, latched, adr, dat := 0, 0, 0, 0, 0, 0, 0, 0;
      busy, done, we, stb, cyc, st, prevStb := false, false, false, false, false, StIdle, false;
    }

    /** One rising clock edge: the data and acknowledge presented to the configuring master. */
    method Edge(c: Config, mdat: Data, mack: bool) returns (dout: Word, ack: bool)
      modifies this
      ensures (Registers(), dout, ack) == DmaEdge(old(Registers()), c, mdat, mack)
    {
      dout, ack := ServeConfig(c);
      Move(mdat, mack);
    }

    method ServeConfig(c: Config) returns (dout: Word, ack: bool)
      modifies this
      ensures (Registers(), dout, ack) == Configure(old(Registers()), c)
    {
      hide Access;
      dout, ack := 0, false;
      var active := c.stb && c.cyc;
      var rise := active && !prevStb;
      prevStb := active;
      ghost var e := old(Registers()).(prevStb := active);
      assert Registers() == e;
      if rise {
        dout := AccessRegister(c);
        ack := true;
        ghost var f := Registers();
        latched := dout;
        assert Registers() == f.(latched := dout);
      } else if active {
        dout := latched;
        ack := true;
      }
      if !active {
        latched := 0;
      }
    }

    method AccessRegister(c: Config) returns (dout: Word)
      modifies this
      ensures (Registers(), dout) == Access(old(Registers()), c)
    {
      dout := AccessOffset(c.adr % 32, c.we, c.dat, c.dat % 2 == 1, c.dat - c.dat % 4);
    }

    method AccessOffset(r: nat, write: bool, value: Word, start: bool, length: Word) returns (dout: Word)
      modifies this
      ensures (Registers(), dout) == AccessAt(old(Registers()), r, write, value, start, length)
    {
      dout := 0;
      if r == 0x00 {
        if !write { dout := src; } else if !busy { src := value; }
      } else if r == 0x04 {
        if !write { dout := dst; } else if !busy { dst := value; }
      } else if r == 0x08 {
        if !write { dout := len; } else if !busy { len := length; }
      } else if r == 0x0C {
        if write && start && !busy && len != 0 {
          remain, busy, done, st := len, true, false, StReadReq;
        }
      } else if r == 0x10 {
        dout := (if busy then 1 else 0) + (if done then 2 else 0);
      }
    }

    method Move(mdat: Data, mack: bool)
      modifies this
      ensures Registers() == Advance(old(Registers()), mdat, mack)
    {
      hide WordDone;
      match st
      case StIdle => Release();
      case StDone => Release();
      case StReadReq => RequestRead();
      case StReadWait =>
        if mack {
          rdVal, st := mdat, StWriteReq;
          Release();
        }
      case StWriteReq => RequestWrite();
      case StWriteWait =>
        if mack {
          FinishWord();
        }
    }

    method Release()
      modifies this`stb, this`cyc
      ensures Registers() == old(Registers()).(stb := false, cyc := false)
    {
      stb, cyc := false, false;
    }

    method RequestRead()
      modifies this
      ensures Registers() == old(Registers()).(adr := old(src), we := false, stb := true, cyc := true, st := StReadWait)
    {
      adr, we, stb, cyc, st := src, false, true, true, StReadWait;
    }

    method RequestWrite()
      modifies this
      ensures Registers() ==
        old(Registers()).(adr := old(dst), dat := old(rdVal), we := true, stb := true, cyc := true, st := StWriteWait)
    {
      adr, dat, we, stb, cyc, st := dst, rdVal, true, true, true, StWriteWait;
    }

    method FinishWord()
      modifies this
      ensures Registers() == WordDone(old(Registers()))
    {
      hide Conclude, Add4;
      stb, cyc, src, dst := false, false, Add4(src), Add4(dst);
      if remain >= 4 {
        remain := remain - 4;
      }
      NextOrDone();
    }

    method NextOrDone()
      modifies this
      ensures Registers() == Conclude(old(Registers()))
    {
      if remain == 0 {
        busy, done, st := false, true, StDone;
      } else {
        st := StReadReq;
      }
    }
  }

  class WishboneMemory {
    const port: Port
    const mem: array<Octet>
    var prevStb: bool
    var prevWe: bool
    var ackPending: bool
    var latchedAddr: nat
    var latchedOut: Data
    var dat: Data
    var ack: bool

    ghost predicate Valid()
      reads this
    {
      PortOk(port) && mem.Length == port.Depth()
    }

    function Registers(): Slave
      reads this
    {
      Slave(prevStb, prevWe, ackPending, latchedAddr, latchedOut, dat, ack)
    }

    constructor (port: Port)
      requires PortOk(port)
      ensures Valid() && fresh(mem) && this.port == port && Registers() == SLAVE_RESET
      ensures forall i :: 0 <= i < mem.Length ==> mem[i] == 0
    {
      this.port := port;
      mem := new Octet[port.Depth()](_ => 0);
      prevStb, prevWe, ackPending, latchedAddr, latchedOut, dat, ack := false, false, false, 0, 0, 0, false;
    }

    /** One rising clock edge. */
    method Edge(q: Request)
      requires Valid() && |q.sel| == 4
      modifies this, mem
      ensures Valid() && (Registers(), mem[..]) == SlaveEdge(port, old(Registers()), old(mem[..]), q)
    {
      var active := q.stb && q.cyc;
      if !active && !prevStb && !ackPending {
        return;
      }
      var rise := active && !prevStb;
      var weRise := active && q.we && !prevWe;
      prevStb := active;
      prevWe := active && q.we;
      dat, ack := 0, false;
      if rise {
        var a := FoldAddress(port, q.adr);
        latchedAddr := a;
        if !q.we {
          latchedOut := ReadWord(port, mem[..], a);
        } else {
          Store(a, q.dat, q.sel);
          latchedOut := 0;
        }
        ackPending := true;
      } else if weRise {
        Store(latchedAddr, q.dat, q.sel);
      }
      if ackPending {
        if !active {
          ackPending := false;
        } else {
          dat, ack := latchedOut, true;
        }
      }
    }

    /** Writes the selected bytes in place. */
    method Store(a: nat, v: Data, sel: seq<bool>)
      requires Valid() && |sel| == 4
      modifies mem
      ensures mem[..] == WriteWord(port, old(mem[..]), a, v, sel)
    {
      if a + port.bytes <= mem.Length {
        for b := 0 to port.bytes
          invariant forall i :: 0 <= i < mem.Length ==>
            mem[i] == if a <= i < a + b && sel[i - a] then ByteOf(v, i - a) else old(mem[i])
        {
          if sel[b] {
            mem[a + b] := ByteOf(v, b);
          }
        }
      }
    }
  }

  /** Both on one bus; the circuit fixes which of the two steps first on a clock edge. */
  class System {
    const dmaFirst: bool
    const dma: DmaController
    const memory: WishboneMemory

    /** Nothing is being copied, or some job is, exactly so far as its edges say. */
    ghost predicate Valid()
      reads this, dma, memory, memory.mem
    {
      memory.Valid() && Reached(memory.port, dmaFirst, Now())
    }

    ghost function Now(): Bus
      reads this, dma, memory, memory.mem
    {
      Bus(dma.Registers(), memory.Registers(), memory.mem[..])
    }

    constructor (port: Port, dmaFirst: bool)
      requires PortOk(port)
      ensures Valid() && fresh(dma) && fresh(memory) && fresh(memory.mem)
      ensures memory.port == port && this.dmaFirst == dmaFirst && Now() == Bus(DMA_RESET, SLAVE_RESET, memory.mem[..])
    {
      this.dmaFirst := dmaFirst;
      dma := new DmaController();
      memory := new WishboneMemory(port);
    }

    /** One clock edge; a job gets one edge further, and after four edges a word it is done, its words copied. */
    method Edge(c: Config)
      requires Valid()
      modifies dma, memory, memory.mem
      ensures Valid() && Now() == BlockCopy.Edge(memory.port, dmaFirst, old(Now()), c)
      ensures forall j: Job, edges: nat :: edges < 4 * j.words && Progress(memory.port, dmaFirst, old(Now()), j, edges) ==>
        Progress(memory.port, dmaFirst, Now(), j, edges + 1)
    {
      hide SlaveEdge, DmaEdge, Reached, Progress;
      if dmaFirst {
        var _, _ := dma.Edge(c, memory.dat, memory.ack);
        memory.Edge(RequestOf(dma.Registers()));
      } else {
        memory.Edge(RequestOf(dma.Registers()));
        var _, _ := dma.Edge(c, memory.dat, memory.ack);
      }
      ReachedStep(memory.port, dmaFirst, old(Now()), c);
      forall j: Job, edges: nat | edges < 4 * j.words && Progress(memory.port, dmaFirst, old(Now()), j, edges)
        ensures Progress(memory.port, dmaFirst, Now(), j, edges + 1)
      {
        ProgressStep(memory.port, dmaFirst, old(Now()), c, j, edges);
      }
    }
  }
}
