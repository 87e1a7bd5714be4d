/** The UART's registers as software sees them, over every run from reset: the settings and the line status. */
module UartRegisters {
  import opened Serial
  import opened SerialLink
  import opened UartSpec

  // ---- Transfers ----

  predicate Up(b: Bus) {
    b.stb && b.cyc
  }

  /** A transfer begins at edge j: the strobe is up and was not at the edge before. */
  predicate Begins(script: seq<Bus>, j: nat) {
    j < |script| && Up(script[j]) && (j == 0 || !Up(script[j - 1]))
  }

  predicate WritesAt(script: seq<Bus>, j: nat, offset: bv32) {
    Begins(script, j) && script[j].we && script[j].adr & 0x1C == offset
  }

  predicate ReadsAt(script: seq<Bus>, j: nat, offset: bv32) {
    Begins(script, j) && !script[j].we && script[j].adr & 0x1C == offset
  }

  // ---- Runs from reset ----

  function After(n: nat, script: seq<Bus>): (u: Uart)
    ensures |u.fifo.slots| == FIFO
  {
    Run(n, UART_RESET, OUTS_RESET, script).0
  }

  function Wires(n: nat, script: seq<Bus>): Outs {
    Run(n, UART_RESET, OUTS_RESET, script).1
  }

  lemma {:induction false} RunOneMore(n: nat, u: Uart, o: Outs, script: seq<Bus>, b: Bus)
    requires |u.fifo.slots| == FIFO
    ensures var (v, p) := Run(n, u, o, script); Run(n, u, o, script + [b]) == Step(n, v, p, b)
    decreases |script|
  {
    hide Step;
    if script == [] {
      assert script + [b] == [b] && [b][1..] == [];
    } else {
      var (v, p) := Step(n, u, o, script[0]);
      assert (script + [b])[1..] == script[1..] + [b];
      RunOneMore(n, v, p, script[1..], b);
    }
  }

  /** The state in which an access at this edge finds the device: transmitter and receiver have moved already. */
  function Found(n: nat, u: Uart, b: Bus): (v: Uart)
    requires |u.fifo.slots| == FIFO
    ensures |v.fifo.slots| == FIFO
  {
    UartSpec.Receive(n, Transmit(n, u.(prevStb := Up(b))), b.rx)
  }

  lemma StepIs(n: nat, u: Uart, b: Bus)
    requires |u.fifo.slots| == FIFO
    ensures var (w, dat, ack) := Access(Found(n, u, b), b, Up(b) && !u.prevStb);
      FullStep(n, u, b) == (w, Outs(dat, ack, TxLevel(w.tx), w.Irq()))
  {
    hide Access, RxEdge, Put;
  }

  lemma OffsetIs(b: Bus)
    ensures b.Offset() == b.adr & 0x1C
  {
  }

  lemma FoundStrobe(n: nat, u: Uart, b: Bus)
    requires |u.fifo.slots| == FIFO
    ensures Found(n, u, b).prevStb == Up(b)
  {
    hide RxEdge, Put, Serial.Advance;
  }

  lemma StepStrobe(n: nat, u: Uart, b: Bus)
    requires |u.fifo.slots| == FIFO
    ensures FullStep(n, u, b).0.prevStb == Up(b)
  {
    StepIs(n, u, b);
    FoundStrobe(n, u, b);
    AccessKeepsStrobe(Found(n, u, b), b, Up(b) && !u.prevStb);
    hide Found, Access, FullStep;
  }

  /** Every edge from reset is a full step, from a settled state that knows whether the strobe was up. */
  lemma {:induction false} Next(n: nat, script: seq<Bus>)
    ensures Settled(After(n, script), Wires(n, script))
    ensures After(n, script).prevStb == (script != [] && Up(script[|script| - 1]))
    ensures script != [] ==>
      (After(n, script), Wires(n, script)) == FullStep(n, After(n, script[..|script| - 1]), script[|script| - 1])
    decreases |script|
  {
    hide Settled, FullStep, Step;
    if script == [] {
      ResetIsSettled();
    } else {
      var init, b := script[..|script| - 1], script[|script| - 1];
      Next(n, init);
      assert script == init + [b];
      RunOneMore(n, UART_RESET, OUTS_RESET, init, b);
      SettledFastPath(n, After(n, init), Wires(n, init), b);
      SettledFifo(After(n, init), Wires(n, init));
      FullStepSettles(n, After(n, init), b);
      StepStrobe(n, After(n, init), b);
    }
  }

  lemma SettledFifo(u: Uart, o: Outs)
    requires Settled(u, o)
    ensures FifoOk(u.fifo)
  {
  }

  // ---- The programmable registers hold what was written last ----

  /** The line control register: what was written to 0x0C last, 0x03 at first. */
  function Lcr(script: seq<Bus>): bv32 {
    if script == [] then 0x03
    else if WritesAt(script, |script| - 1, 0x0C) then script[|script| - 1].dat & 0xFF
    else Lcr(script[..|script| - 1])
  }

  /** The divisor latch is reached. */
  predicate Divisor(script: seq<Bus>) {
    Lcr(script) & 0x80 != 0
  }

  /** When a write to an offset counts: at any time, or while the divisor is reached or not. */
  datatype When = Always | WithDivisor(on: bool)

  predicate Counts(when: When, script: seq<Bus>) {
    when.Always? || when.on == Divisor(script)
  }

  /** What was written last to the offset when it counts, and zero at first. */
  function Kept(script: seq<Bus>, offset: bv32, when: When, mask: bv32): bv32 {
    if script == [] then 0
    else if WritesAt(script, |script| - 1, offset) && Counts(when, script[..|script| - 1]) then script[|script| - 1].dat & mask
    else Kept(script[..|script| - 1], offset, when, mask)
  }

  function Ier(script: seq<Bus>): bv32 {
    Kept(script, 0x04, WithDivisor(false), 0x0F)
  }

  function Dll(script: seq<Bus>): bv32 {
    Kept(script, 0x00, WithDivisor(true), 0xFF)
  }

  function Dlm(script: seq<Bus>): bv32 {
    Kept(script, 0x04, WithDivisor(true), 0xFF)
  }

  function Mcr(script: seq<Bus>): bv32 {
    Kept(script, 0x10, Always, 0x1F)
  }

  function Scr(script: seq<Bus>): bv32 {
    Kept(script, 0x1C, Always, 0xFF)
  }

  ghost predicate HoldsWritten(r: Regs, script: seq<Bus>) {
    && r.lcr == Lcr(script) && r.ier == Ier(script) && r.dll == Dll(script) && r.dlm == Dlm(script)
    && r.mcr == Mcr(script) && r.scr == Scr(script)
  }

  /** What a write makes of the programmable registers. */
  ghost predicate Written(r: Regs, offset: bv32, dat: bv32, t: Regs) {
    var divisor := r.lcr & 0x80 != 0;
    && t.lcr == (if offset == 0x0C then dat & 0xFF else r.lcr)
    && t.ier == (if offset == 0x04 && !divisor then dat & 0x0F else r.ier)
    && t.dll == (if offset == 0x00 && divisor then dat & 0xFF else r.dll)
    && t.dlm == (if offset == 0x04 && divisor then dat & 0xFF else r.dlm)
    && t.mcr == (if offset == 0x10 then dat & 0x1F else r.mcr)
    && t.scr == (if offset == 0x1C then dat & 0xFF else r.scr)
  }

  lemma SettingIsWritten(r: Regs, offset: bv32, dat: bv32)
    requires offset != 0x00
    ensures Written(r, offset, dat, WriteSetting(r, offset, dat))
  {
  }

  lemma BufferIsWritten(u: Uart, dat: bv32)
    ensures Written(u.regs, 0x00, dat, WriteBuffer(u, dat).regs)
  {
  }

  lemma ReadKeepsRegs(u: Uart, offset: bv32)
    requires |u.fifo.slots| == FIFO
    ensures ReadRegister(u, offset).0.regs == u.regs
  {
    hide Drop, Oldest, LineStatus;
  }

  lemma WriteIsWritten(u: Uart, offset: bv32, dat: bv32)
    ensures Written(u.regs, offset, dat, WriteRegister(u, offset, dat).regs)
  {
    hide WriteBuffer, WriteSetting, Written;
    if offset == RBR {
      BufferIsWritten(u, dat);
    } else {
      SettingIsWritten(u.regs, offset, dat);
    }
  }

  lemma AccessRegs(u: Uart, b: Bus, rise: bool)
    requires |u.fifo.slots| == FIFO
    ensures var r := Access(u, b, rise).0.regs;
      if rise && b.we then Written(u.regs, b.adr & 0x1C, b.dat, r) else r == u.regs
  {
    OffsetIs(b);
    ReadKeepsRegs(u, b.Offset());
    WriteIsWritten(u, b.Offset(), b.dat);
    hide ReadRegister, WriteRegister, Written;
  }

  lemma FoundRegs(n: nat, u: Uart, b: Bus)
    requires |u.fifo.slots| == FIFO
    ensures Found(n, u, b).regs == u.regs
  {
    hide RxEdge, Put, Serial.Advance;
  }

  lemma StepRegs(n: nat, u: Uart, b: Bus)
    requires |u.fifo.slots| == FIFO
    ensures var r := FullStep(n, u, b).0.regs;
      if Up(b) && !u.prevStb && b.we then Written(u.regs, b.adr & 0x1C, b.dat, r) else r == u.regs
  {
    StepIs(n, u, b);
    FoundRegs(n, u, b);
    AccessRegs(Found(n, u, b), b, Up(b) && !u.prevStb);
    hide Found, Access, FullStep, Written;
  }

  lemma KeptNext(script: seq<Bus>, offset: bv32, when: When, mask: bv32)
    requires script != []
    ensures var init, b := script[..|script| - 1], script[|script| - 1];
      Kept(script, offset, when, mask) ==
        if Begins(script, |script| - 1) && b.we && b.adr & 0x1C == offset && (when.Always? || when.on == (Lcr(init) & 0x80 != 0))
        then b.dat & mask else Kept(init, offset, when, mask)
  {
    hide Lcr;
  }

  lemma LcrNext(script: seq<Bus>)
    requires script != []
    ensures var init, b := script[..|script| - 1], script[|script| - 1];
      Lcr(script) == if Begins(script, |script| - 1) && b.we && b.adr & 0x1C == 0x0C then b.dat & 0xFF else Lcr(init)
  {
  }

  /** The edge that ends the script moves the registers as its write says, or not at all. */
  ghost predicate Moves(r: Regs, script: seq<Bus>, t: Regs) {
    script != [] &&
    var b := script[|script| - 1];
    if Begins(script, |script| - 1) && b.we then Written(r, b.adr & 0x1C, b.dat, t) else t == r
  }

  lemma IerNext(r: Regs, script: seq<Bus>, t: Regs)
    requires Moves(r, script, t) && r.lcr == Lcr(script[..|script| - 1]) && r.ier == Ier(script[..|script| - 1])
    ensures t.ier == Ier(script)
  {
    KeptNext(script, 0x04, WithDivisor(false), 0x0F);
    hide Begins, Kept, Lcr;
  }

  lemma DllNext(r: Regs, script: seq<Bus>, t: Regs)
    requires Moves(r, script, t) && r.lcr == Lcr(script[..|script| - 1]) && r.dll == Dll(script[..|script| - 1])
    ensures t.dll == Dll(script)
  {
    KeptNext(script, 0x00, WithDivisor(true), 0xFF);
    hide Begins, Kept, Lcr;
  }

  lemma DlmNext(r: Regs, script: seq<Bus>, t: Regs)
    requires Moves(r, script, t) && r.lcr == Lcr(script[..|script| - 1]) && r.dlm == Dlm(script[..|script| - 1])
    ensures t.dlm == Dlm(script)
  {
    KeptNext(script, 0x04, WithDivisor(true), 0xFF);
    hide Begins, Kept, Lcr;
  }

  lemma McrNext(r: Regs, script: seq<Bus>, t: Regs)
    requires Moves(r, script, t) && r.lcr == Lcr(script[..|script| - 1]) && r.mcr == Mcr(script[..|script| - 1])
    ensures t.mcr == Mcr(script)
  {
    KeptNext(script, 0x10, Always, 0x1F);
    hide Begins, Kept, Lcr;
  }

  lemma ScrNext(r: Regs, script: seq<Bus>, t: Regs)
    requires Moves(r, script, t) && r.lcr == Lcr(script[..|script| - 1]) && r.scr == Scr(script[..|script| - 1])
    ensures t.scr == Scr(script)
  {
    KeptNext(script, 0x1C, Always, 0xFF);
    hide Begins, Kept, Lcr;
  }

  lemma HoldsNext(r: Regs, script: seq<Bus>, t: Regs)
    requires Moves(r, script, t) && HoldsWritten(r, script[..|script| - 1])
    ensures HoldsWritten(t, script)
  {
    LcrNext(script);
    assert t.lcr == Lcr(script) by {
      hide Begins, Kept, Lcr;
    }
    hide Moves, Lcr, Ier, Dll, Dlm, Mcr, Scr;
    IerNext(r, script, t);
    DllNext(r, script, t);
    DlmNext(r, script, t);
    McrNext(r, script, t);
    ScrNext(r, script, t);
  }

  /** Main result: the programmable registers hold what was written to them last, masked to their bits. Bit 7 of the line
      control register decides whether 0x00 and 0x04 reach the divisor. */
  lemma {:induction false} RegistersHoldWritten(n: nat, script: seq<Bus>)
    ensures HoldsWritten(After(n, script).regs, script)
    decreases |script|
  {
    if script != [] {
      var init, b := script[..|script| - 1], script[|script| - 1];
      RegistersHoldWritten(n, init);
      Next(n, init);
      Next(n, script);
      StepRegs(n, After(n, init), b);
      BeginsIs(script);
      assert Moves(After(n, init).regs, script, After(n, script).regs) by {
        hide Written, Begins, After, Wires, Settled, FullStep;
      }
      hide *;
      HoldsNext(After(n, init).regs, script, After(n, script).regs);
    } else {
      NothingWritten(n);
    }
  }

  lemma NothingWritten(n: nat)
    ensures HoldsWritten(After(n, []).regs, [])
  {
  }

  lemma BeginsIs(script: seq<Bus>)
    requires script != []
    ensures var init, b := script[..|script| - 1], script[|script| - 1];
      Begins(script, |script| - 1) <==> Up(b) && !(init != [] && Up(init[|init| - 1]))
  {
  }

  // ---- One edge of a run ----

  /** Edge k of the script, from what the edges before it left. */
  lemma EdgeIs(n: nat, script: seq<Bus>, k: nat)
    requires k < |script|
    ensures var u := After(n, script[..k]);
      && FifoOk(u.fifo) && HoldsWritten(u.regs, script[..k])
      && (Begins(script, k) <==> Up(script[k]) && !u.prevStb)
      && (After(n, script[..k + 1]), Wires(n, script[..k + 1])) == FullStep(n, u, script[k])
  {
    var before, now := script[..k], script[..k + 1];
    Next(n, before);
    Next(n, now);
    assert now[..|now| - 1] == before && now[|now| - 1] == script[k];
    SettledFifo(After(n, before), Wires(n, before));
    RegistersHoldWritten(n, before);
    hide HoldsWritten, After, Wires, Settled, FullStep, FifoOk;
    if k > 0 {
      assert before[|before| - 1] == script[k - 1];
    }
  }

  /** The state in which the access at edge k finds the device. */
  function FoundAt(n: nat, script: seq<Bus>, k: nat): (v: Uart)
    requires k < |script|
    ensures |v.fifo.slots| == FIFO
  {
    Found(n, After(n, script[..k]), script[k])
  }

  lemma FoundFifo(n: nat, script: seq<Bus>, k: nat)
    requires k < |script|
    ensures FifoOk(FoundAt(n, script, k).fifo)
    ensures FifoOk(After(n, script[..k]).fifo)
    ensures InFifo(FoundAt(n, script, k).fifo) ==
      InFifo(After(n, script[..k]).fifo) + KeptFrame(n, After(n, script[..k]), script[k].rx)
  {
    EdgeIs(n, script, k);
    var u := After(n, script[..k]);
    TransmitKeeps(n, u, Up(script[k]));
    ReceiveWaits(n, Transmit(n, u.(prevStb := Up(script[k]))), script[k].rx);
    SameKept(n, u, Transmit(n, u.(prevStb := Up(script[k]))), script[k].rx);
    hide After, FifoOk, InFifo, UartSpec.Receive, Transmit, KeptFrame, FullStep;
  }

  lemma TransmitKeeps(n: nat, u: Uart, strobe: bool)
    ensures var t := Transmit(n, u.(prevStb := strobe)); t.fifo == u.fifo && t.rx == u.rx && t.regs == u.regs
    ensures Transmit(n, u.(prevStb := strobe)).overrun == u.overrun && Transmit(n, u.(prevStb := strobe)).fe == u.fe
  {
    hide Serial.Advance;
  }

  lemma SameKept(n: nat, u: Uart, t: Uart, level: bool)
    requires t.fifo == u.fifo && t.rx == u.rx
    ensures KeptFrame(n, t, level) == KeptFrame(n, u, level) && GoodFrame(n, t, level) == GoodFrame(n, u, level)
  {
    hide RxEdge;
  }

  /** What the access of a transfer that reads makes of the state found, and the answer. */
  lemma ReadIs(n: nat, script: seq<Bus>, k: nat, offset: bv32)
    requires ReadsAt(script, k, offset)
    ensures var v := FoundAt(n, script, k);
      var (w, dat) := ReadRegister(v, offset);
      && After(n, script[..k + 1]) == w.(latched := dat)
      && Wires(n, script[..k + 1]).dat == dat && Wires(n, script[..k + 1]).ack
      && HoldsWritten(v.regs, script[..k])
  {
    EdgeIs(n, script, k);
    var u := After(n, script[..k]);
    StepIs(n, u, script[k]);
    FoundRegs(n, u, script[k]);
    OffsetIs(script[k]);
    hide After, Wires, FifoOk, Found, ReadRegister, FullStep, HoldsWritten, TxLevel;
  }

  // ---- The line status ----

  /** No transfer reads the line status from edge j up to edge k. */
  predicate NotRead(script: seq<Bus>, j: nat, k: nat) {
    forall l {:trigger ReadsAt(script, l, 0x14)} :: j <= l < k ==> !ReadsAt(script, l, 0x14)
  }

  /** It has happened before edge k, and the line status was not read since. */
  ghost predicate Since(script: seq<Bus>, hits: nat -> bool, k: nat) {
    exists j: nat :: j < k && hits(j) && NotRead(script, j, k)
  }

  /** The same with edge k itself. */
  ghost predicate SinceNow(script: seq<Bus>, hits: nat -> bool, k: nat) {
    exists j: nat :: j <= k && hits(j) && NotRead(script, j, k)
  }

  lemma SinceNext(script: seq<Bus>, hits: nat -> bool, k: nat)
    ensures Since(script, hits, k + 1) <==> SinceNow(script, hits, k) && !ReadsAt(script, k, 0x14)
    ensures SinceNow(script, hits, k) <==> Since(script, hits, k) || hits(k)
    ensures !Since(script, hits, 0)
  {
    if hits(k) {
      assert NotRead(script, k, k);
    }
    if j: nat :| j < k + 1 && hits(j) && NotRead(script, j, k + 1) {
      assert NotRead(script, j, k);
    }
    if j: nat :| j <= k && hits(j) && NotRead(script, j, k) && !ReadsAt(script, k, 0x14) {
      assert NotRead(script, j, k + 1);
    }
  }

  /** A good frame ends at edge j and finds 16 bytes waiting. */
  ghost predicate DropsAt(n: nat, script: seq<Bus>, j: nat) {
    j < |script| &&
    var u := After(n, script[..j]);
    FifoOk(u.fifo) && |InFifo(u.fifo)| == 16 && GoodFrame(n, u, script[j].rx) != []
  }

  /** A frame with a low stop bit ends at edge j. */
  ghost predicate BreaksAt(n: nat, script: seq<Bus>, j: nat) {
    j < |script| && After(n, script[..j + 1]).rx.errors != After(n, script[..j]).rx.errors
  }

  ghost function Drops(n: nat, script: seq<Bus>): nat -> bool {
    (j: nat) => DropsAt(n, script, j)
  }

  ghost function Breaks(n: nat, script: seq<Bus>): nat -> bool {
    (j: nat) => BreaksAt(n, script, j)
  }

  lemma FoundFlags(n: nat, script: seq<Bus>, k: nat)
    requires k < |script|
    ensures var u, v := After(n, script[..k]), FoundAt(n, script, k);
      && (v.overrun <==> u.overrun || DropsAt(n, script, k)) && (v.fe <==> u.fe || BreaksAt(n, script, k))
      && v.rx == After(n, script[..k + 1]).rx
  {
    EdgeIs(n, script, k);
    var u := After(n, script[..k]);
    var b := script[k];
    TransmitKeeps(n, u, Up(b));
    StepRx(n, u, b);
    ReceiveFlags(n, u, Transmit(n, u.(prevStb := Up(b))), b.rx);
    hide After, Wires, UartSpec.Receive, Transmit, FullStep, GoodFrame, RxEdge, HoldsWritten;
    assert |InFifo(u.fifo)| == u.fifo.count;
  }

  lemma StepRx(n: nat, u: Uart, b: Bus)
    requires |u.fifo.slots| == FIFO
    ensures FullStep(n, u, b).0.rx == Found(n, u, b).rx
  {
    hide Access, RxEdge, Put, Serial.Advance;
  }

  lemma ReceiveFlags(n: nat, u: Uart, t: Uart, level: bool)
    requires FifoOk(u.fifo) && t.fifo == u.fifo && t.rx == u.rx && t.overrun == u.overrun && t.fe == u.fe
    ensures var v := UartSpec.Receive(n, t, level);
      && (v.overrun <==> u.overrun || (u.fifo.count == 16 && GoodFrame(n, u, level) != []))
      && (v.fe <==> u.fe || v.rx.errors != u.rx.errors)
  {
    GoodIsNoError(n, u.rx, level);
    hide RxEdge, Put;
  }

  /** A frame is either good or counted as an error. */
  lemma GoodIsNoError(n: nat, rx: Rx, level: bool)
    ensures RxEdge(n, rx, level).1 ==> RxEdge(n, rx, level).0.errors == rx.errors
  {
  }

  lemma AccessFlags(u: Uart, b: Bus, rise: bool)
    requires |u.fifo.slots| == FIFO
    ensures var w := Access(u, b, rise).0;
      var clears := rise && !b.we && b.adr & 0x1C == 0x14;
      w.overrun == (u.overrun && !clears) && w.fe == (u.fe && !clears)
  {
    OffsetIs(b);
    ReadFlags(u, b.Offset());
    WriteFlags(u, b.Offset(), b.dat);
    hide ReadRegister, WriteRegister;
  }

  lemma ReadFlags(u: Uart, offset: bv32)
    requires |u.fifo.slots| == FIFO
    ensures var w := ReadRegister(u, offset).0;
      w.overrun == (u.overrun && offset != 0x14) && w.fe == (u.fe && offset != 0x14)
  {
    hide Drop, Oldest, LineStatus;
  }

  lemma WriteFlags(u: Uart, offset: bv32, dat: bv32)
    ensures var w := WriteRegister(u, offset, dat); w.overrun == u.overrun && w.fe == u.fe
  {
    hide WriteSetting;
  }

  lemma FlagsNext(n: nat, script: seq<Bus>, k: nat)
    requires k < |script|
    ensures var v, w := FoundAt(n, script, k), After(n, script[..k + 1]);
      && (w.overrun <==> v.overrun && !ReadsAt(script, k, 0x14)) && (w.fe <==> v.fe && !ReadsAt(script, k, 0x14))
  {
    EdgeIs(n, script, k);
    var u := After(n, script[..k]);
    StepIs(n, u, script[k]);
    AccessFlags(Found(n, u, script[k]), script[k], Up(script[k]) && !u.prevStb);
    hide After, Wires, Found, FullStep, Access, HoldsWritten, FifoOk;
  }

  /** The overrun and framing flags say what has happened since the line status was read. */
  lemma {:induction false} FlagsSince(n: nat, script: seq<Bus>, k: nat)
    requires k <= |script|
    ensures After(n, script[..k]).overrun <==> Since(script, Drops(n, script), k)
    ensures After(n, script[..k]).fe <==> Since(script, Breaks(n, script), k)
  {
    if k == 0 {
      SinceNext(script, Drops(n, script), 0);
      SinceNext(script, Breaks(n, script), 0);
      assert script[..0] == [];
      NoFlags(n);
    } else {
      FlagsSince(n, script, k - 1);
      SinceNext(script, Drops(n, script), k - 1);
      SinceNext(script, Breaks(n, script), k - 1);
      FoundFlags(n, script, k - 1);
      FlagsNext(n, script, k - 1);
      hide After, FoundAt, ReadsAt, DropsAt, BreaksAt, Since, SinceNow;
    }
  }

  lemma NoFlags(n: nat)
    ensures !After(n, []).overrun && !After(n, []).fe
  {
  }

  lemma StatusBits(waits: bool, dropped: bool, broken: bool, idle: bool)
    ensures var w: bv32 := (if waits then 0x01 else 0) | (if dropped then 0x02 else 0) | (if broken then 0x08 else 0) |
                           (if idle then 0x60 else 0);
      && (w & 0x01 != 0 <==> waits) && (w & 0x02 != 0 <==> dropped) && (w & 0x08 != 0 <==> broken)
      && (w & 0x20 != 0 <==> idle) && (w & 0x40 != 0 <==> idle) && w & 0xFFFFFF94 == 0
  {
  }

  lemma StatusIs(u: Uart)
    ensures var w := LineStatus(u);
      && (w & 0x01 != 0 <==> u.fifo.count > 0) && (w & 0x02 != 0 <==> u.overrun) && (w & 0x08 != 0 <==> u.fe)
      && (w & 0x20 != 0 <==> !u.tx.busy) && (w & 0x40 != 0 <==> !u.tx.busy) && w & 0xFFFFFF94 == 0
  {
    StatusBits(u.fifo.count > 0, u.overrun, u.fe, !u.tx.busy);
  }

  /** Main result: in every run from reset, the word read from the line status has bit 0 set exactly when bytes wait, bits 5
      and 6 exactly when no frame is being sent, bit 1 exactly when a good frame was dropped since the line status was read
      before, bit 3 exactly when a frame with a low stop bit ended since then, and no other bit. */
  lemma LineStatusReads(n: nat, script: seq<Bus>, k: nat)
    requires ReadsAt(script, k, 0x14)
    ensures var w := Wires(n, script[..k + 1]).dat;
      var now := After(n, script[..k + 1]);
      && FifoOk(now.fifo)
      && (w & 0x01 != 0 <==> InFifo(now.fifo) != [])
      && (w & 0x20 != 0 <==> !now.tx.busy) && (w & 0x40 != 0 <==> !now.tx.busy)
      && (w & 0x02 != 0 <==> SinceNow(script, Drops(n, script), k))
      && (w & 0x08 != 0 <==> SinceNow(script, Breaks(n, script), k))
      && w & 0xFFFFFF94 == 0
  {
    ReadIs(n, script, k, 0x14);
    FoundFifo(n, script, k);
    FlagsSince(n, script, k);
    SinceNext(script, Drops(n, script), k);
    SinceNext(script, Breaks(n, script), k);
    FoundFlags(n, script, k);
    var v := FoundAt(n, script, k);
    StatusIs(v);
    hide After, Wires, FoundAt, ReadsAt, DropsAt, BreaksAt, Since, SinceNow, LineStatus, HoldsWritten;
    assert |InFifo(v.fifo)| == v.fifo.count;
  }
}
