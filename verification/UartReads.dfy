/** The UART's interrupt, what reads other than that of the line status answer, and the strobe held up. */
module UartReads {
  import opened Serial
  import opened UartSpec
  import opened UartRegisters

  // ---- The interrupt, and what the other reads answer ----

  /** The frame being sent ends at edge k. */
  ghost predicate SentAt(n: nat, script: seq<Bus>, k: nat) {
    k < |script| && After(n, script[..k]).tx.busy && !FoundAt(n, script, k).tx.busy
  }

  /** Bytes wait when the access of edge k comes, one that ended at that edge included. */
  ghost predicate WaitingAt(n: nat, script: seq<Bus>, k: nat) {
    k < |script| && FifoOk(FoundAt(n, script, k).fifo) && InFifo(FoundAt(n, script, k).fifo) != []
  }

  /** A byte to send is written while none is being sent. */
  ghost predicate LoadsAt(n: nat, script: seq<Bus>, k: nat) {
    WritesAt(script, k, 0x00) && !Divisor(script[..k]) && !FoundAt(n, script, k).tx.busy
  }

  /** The transmitter's interrupt is pending before edge k: at first, and from the end of a frame on, until a byte is written
      to be sent or a read of the interrupt identification has told of it. */
  ghost predicate Pending(n: nat, script: seq<Bus>, k: nat)
    decreases k, 0
  {
    k == 0 || (OfferedAt(n, script, k - 1) && !LoadsAt(n, script, k - 1) && !ToldAt(n, script, k - 1))
  }

  ghost predicate OfferedAt(n: nat, script: seq<Bus>, k: nat)
    decreases k, 1
  {
    Pending(n, script, k) || SentAt(n, script, k)
  }

  /** A read of the interrupt identification tells of the transmitter, because the receiver has nothing to tell. */
  ghost predicate ToldAt(n: nat, script: seq<Bus>, k: nat)
    decreases k, 2
  {
    && ReadsAt(script, k, 0x08) && OfferedAt(n, script, k) && Ier(script[..k]) & 0x02 != 0
    && !(WaitingAt(n, script, k) && Ier(script[..k]) & 0x01 != 0)
  }

  lemma WaitingIs(n: nat, script: seq<Bus>, k: nat)
    requires k < |script|
    ensures WaitingAt(n, script, k) <==> FoundAt(n, script, k).fifo.count > 0
  {
    FoundFifo(n, script, k);
    hide FoundAt, After, FifoOk;
    assert |InFifo(FoundAt(n, script, k).fifo)| == FoundAt(n, script, k).fifo.count;
  }

  lemma FoundThre(n: nat, u: Uart, b: Bus)
    requires |u.fifo.slots| == FIFO
    ensures var v := Found(n, u, b); v.thre <==> u.thre || (u.tx.busy && !v.tx.busy)
  {
    hide RxEdge, Put, Serial.Advance;
  }

  lemma ReadThre(u: Uart, offset: bv32)
    requires |u.fifo.slots| == FIFO
    ensures ReadRegister(u, offset).0.thre ==
      (u.thre && !(offset == 0x08 && u.regs.ier & 0x02 != 0 && !(u.fifo.count > 0 && u.regs.ier & 0x01 != 0)))
  {
    hide Drop, Oldest, LineStatus;
  }

  lemma WriteThre(u: Uart, offset: bv32, dat: bv32)
    ensures WriteRegister(u, offset, dat).thre == (u.thre && !(offset == 0x00 && u.regs.lcr & 0x80 == 0 && !u.tx.busy))
  {
    hide WriteSetting;
  }

  lemma AccessThre(u: Uart, b: Bus, rise: bool)
    requires |u.fifo.slots| == FIFO
    ensures var off := b.adr & 0x1C;
      var loads := rise && b.we && off == 0x00 && u.regs.lcr & 0x80 == 0 && !u.tx.busy;
      var told := rise && !b.we && off == 0x08 && u.regs.ier & 0x02 != 0 && !(u.fifo.count > 0 && u.regs.ier & 0x01 != 0);
      Access(u, b, rise).0.thre == (u.thre && !loads && !told)
  {
    OffsetIs(b);
    ReadThre(u, b.Offset());
    WriteThre(u, b.Offset(), b.dat);
    hide ReadRegister, WriteRegister;
  }

  /** The latch holds exactly while the transmitter's interrupt is pending. */
  lemma {:induction false} LatchIsPending(n: nat, script: seq<Bus>, k: nat)
    requires k <= |script|
    ensures After(n, script[..k]).thre <==> Pending(n, script, k)
    ensures k < |script| ==> (FoundAt(n, script, k).thre <==> OfferedAt(n, script, k))
  {
    if k == 0 {
      assert script[..0] == [];
      PendingAtFirst(n);
    } else {
      LatchIsPending(n, script, k - 1);
      LatchNext(n, script, k - 1);
    }
    if k < |script| {
      FoundThre(n, After(n, script[..k]), script[k]);
      hide After, Found, Pending;
    }
  }

  lemma PendingAtFirst(n: nat)
    ensures After(n, []).thre
  {
  }

  lemma LatchNext(n: nat, script: seq<Bus>, k: nat)
    requires k < |script| && (FoundAt(n, script, k).thre <==> OfferedAt(n, script, k))
    ensures After(n, script[..k + 1]).thre <==> OfferedAt(n, script, k) && !LoadsAt(n, script, k) && !ToldAt(n, script, k)
  {
    EdgeIs(n, script, k);
    var u, b := After(n, script[..k]), script[k];
    StepIs(n, u, b);
    FoundRegs(n, u, b);
    AccessThre(Found(n, u, b), b, Up(b) && !u.prevStb);
    WaitingIs(n, script, k);
    hide After, Wires, Found, FullStep, Access, FifoOk, WaitingAt, OfferedAt, Lcr, Kept;
  }

  /** Main result: the interrupt wire is up exactly while bytes wait and their interrupt is enabled, or the transmitter's
      interrupt is pending and enabled. */
  lemma InterruptWire(n: nat, script: seq<Bus>)
    ensures var u := After(n, script);
      && FifoOk(u.fifo)
      && (Wires(n, script).irq <==>
            (InFifo(u.fifo) != [] && Ier(script) & 0x01 != 0) || (Pending(n, script, |script|) && Ier(script) & 0x02 != 0))
  {
    Next(n, script);
    RegistersHoldWritten(n, script);
    LatchIsPending(n, script, |script|);
    assert script[..|script|] == script;
    var u := After(n, script);
    hide After, Wires, Kept, Pending;
    assert |InFifo(u.fifo)| == u.fifo.count;
  }

  function Identification(receiver: bool, transmitter: bool): bv32 {
    if receiver then 0x4 else if transmitter then 0x2 else 0x1
  }

  /** Main result: what the other reads answer, from the history of the run. A read of 0x00 takes the oldest byte waiting,
      or the divisor; 0x08 tells of the receiver before the transmitter; the settings are read back as written. */
  lemma RegisterReads(n: nat, script: seq<Bus>, k: nat, offset: bv32)
    requires ReadsAt(script, k, offset) && offset != 0x14
    ensures var w := Wires(n, script[..k + 1]);
      var before := script[..k];
      var v := FoundAt(n, script, k);
      && w.ack && FifoOk(v.fifo)
      && (offset == 0x00 ==> w.dat == if Divisor(before) then Dll(before) else if InFifo(v.fifo) != [] then InFifo(v.fifo)[0] else 0)
      && (offset == 0x04 ==> w.dat == if Divisor(before) then Dlm(before) else Ier(before))
      && (offset == 0x08 ==> w.dat == Identification(WaitingAt(n, script, k) && Ier(before) & 0x01 != 0,
                                                     OfferedAt(n, script, k) && Ier(before) & 0x02 != 0))
      && (offset == 0x0C ==> w.dat == Lcr(before))
      && (offset == 0x10 ==> w.dat == Mcr(before))
      && (offset == 0x18 ==> w.dat == 0x30)
      && (offset == 0x1C ==> w.dat == Scr(before))
  {
    ReadIs(n, script, k, offset);
    FoundFifo(n, script, k);
    WaitingIs(n, script, k);
    LatchIsPending(n, script, k);
    var v := FoundAt(n, script, k);
    InFifoIs(v.fifo);
    ReadTable(v, offset);
    hide ReadRegister, Identification, After, Wires, FoundAt, ReadsAt, WaitingAt, OfferedAt, Kept, Lcr, FifoOk, InFifo, Drop, Oldest, LineStatus, Ier, Dll, Dlm, Mcr, Scr;
  }

  /** The answers in terms of the state. */
  lemma ReadTable(u: Uart, offset: bv32)
    requires |u.fifo.slots| == FIFO && offset != 0x14
    ensures var dat := ReadRegister(u, offset).1;
      && (offset == 0x00 ==> dat == if u.regs.lcr & 0x80 != 0 then u.regs.dll else if u.fifo.count > 0 then Oldest(u.fifo) else 0)
      && (offset == 0x04 ==> dat == if u.regs.lcr & 0x80 != 0 then u.regs.dlm else u.regs.ier)
      && (offset == 0x08 ==> dat == Identification(u.fifo.count > 0 && u.regs.ier & 0x01 != 0, u.thre && u.regs.ier & 0x02 != 0))
      && (offset == 0x0C ==> dat == u.regs.lcr) && (offset == 0x10 ==> dat == u.regs.mcr)
      && (offset == 0x18 ==> dat == 0x30) && (offset == 0x1C ==> dat == u.regs.scr)
  {
    hide Drop, Oldest, LineStatus;
  }

  // ---- The strobe held up ----

  lemma {:induction false} AnswerIsKept(n: nat, script: seq<Bus>)
    requires script != [] && Up(script[|script| - 1])
    ensures After(n, script).latched == Wires(n, script).dat && Wires(n, script).ack
    ensures |script| > 1 && Up(script[|script| - 2]) ==> Wires(n, script).dat == After(n, script[..|script| - 1]).latched
    decreases |script|
  {
    var init, b := script[..|script| - 1], script[|script| - 1];
    Next(n, init);
    Next(n, script);
    var u := After(n, init);
    StepIs(n, u, b);
    AccessAnswer(Found(n, u, b), b, Up(b) && !u.prevStb);
    FoundLatched(n, u, b);
    hide After, Wires, Found, FullStep, Access, Settled;
    if |script| > 1 {
      assert init[|init| - 1] == script[|script| - 2];
    }
  }

  lemma FoundLatched(n: nat, u: Uart, b: Bus)
    requires |u.fifo.slots| == FIFO
    ensures Found(n, u, b).latched == u.latched
  {
    hide RxEdge, Put, Serial.Advance;
  }

  lemma AccessAnswer(u: Uart, b: Bus, rise: bool)
    requires |u.fifo.slots| == FIFO
    ensures var (w, dat, ack) := Access(u, b, rise);
      && (rise || Up(b) ==> w.latched == dat && ack)
      && (!rise && Up(b) ==> dat == u.latched)
      && (!rise && !Up(b) ==> dat == 0 && !ack)
  {
    hide ReadRegister, WriteRegister;
  }

  /** Main result: while the strobe stays up the first answer is repeated with the acknowledge, whatever else is on the bus;
      without a strobe there is no acknowledge and the data is zero. A write answers zero. */
  lemma HeldStrobeRepeats(n: nat, script: seq<Bus>)
    requires script != []
    ensures var w := Wires(n, script);
      && w.ack == Up(script[|script| - 1])
      && (!Up(script[|script| - 1]) ==> w.dat == 0)
      && (|script| > 1 && Up(script[|script| - 1]) && Up(script[|script| - 2]) ==> w.dat == Wires(n, script[..|script| - 1]).dat)
      && (Begins(script, |script| - 1) && script[|script| - 1].we ==> w.dat == 0)
  {
    var init, b := script[..|script| - 1], script[|script| - 1];
    LastAnswer(n, script);
    if Up(b) {
      AnswerIsKept(n, script);
      if |script| > 1 && Up(script[|script| - 2]) {
        assert init[|init| - 1] == script[|script| - 2];
        AnswerIsKept(n, init);
      }
    }
    hide *;
  }

  lemma LastAnswer(n: nat, script: seq<Bus>)
    requires script != []
    ensures var w, b := Wires(n, script), script[|script| - 1];
      && w.ack == Up(b) && (!Up(b) ==> w.dat == 0) && (Begins(script, |script| - 1) && b.we ==> w.dat == 0)
  {
    var init, b := script[..|script| - 1], script[|script| - 1];
    Next(n, init);
    Next(n, script);
    BeginsIs(script);
    var u := After(n, init);
    StepIs(n, u, b);
    AccessAnswer(Found(n, u, b), b, Up(b) && !u.prevStb);
    WriteAnswersZero(Found(n, u, b), b);
    hide After, Wires, Found, FullStep, Access, Settled, Begins;
  }

  lemma WriteAnswersZero(u: Uart, b: Bus)
    requires |u.fifo.slots| == FIFO
    ensures b.we ==> Access(u, b, true).1 == 0
  {
    hide WriteRegister, ReadRegister;
  }
}
