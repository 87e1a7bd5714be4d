/** The controller and the slave copy the block, in either evaluation order and whatever is written to the registers. */
module BlockCopyProof {
  import opened Words
  import opened BlockCopy

  ghost predicate Quiet(s: Slave) {
    !s.prevStb && !s.prevWe && !s.ackPending
  }

  ghost predicate Serving(p: Port, s: Slave, adr: Word, we: bool) {
    s.prevStb && s.ackPending && s.prevWe == we && s.latchedAddr == FoldAddress(p, adr)
  }

  /** What a copy was started with. */
  datatype Job = Job(mem: seq<Octet>, src: Word, dst: Word, words: nat)

  ghost predicate JobOk(p: Port, j: Job) {
    PortOk(p) && |j.mem| == p.Depth() && 0 < j.words && 4 * j.words < U32
  }

  ghost function After(p: Port, j: Job, k: nat): (m: seq<Octet>)
    ensures |m| == |j.mem|
  {
    CopyWords(p, j.mem, j.src, j.dst, k)
  }

  /** No copy in progress: the strobe is down, and the slave has at most the last request's acknowledge to withdraw. */
  ghost predicate AtRest(p: Port, dmaFirst: bool, b: Bus) {
    && PortOk(p) && |b.mem| == p.Depth()
    && (b.dma.st.StIdle? || b.dma.st.StDone?) && !b.dma.busy && !b.dma.stb && b.dma.len % 4 == 0
    && (Quiet(b.slave) || (!dmaFirst && b.slave.prevStb && b.slave.ackPending))
  }

  /** Word i of the job is being copied; phase counts the edges spent on it. */
  ghost predicate Copying(p: Port, dmaFirst: bool, b: Bus, j: Job, i: nat, phase: nat) {
    && JobOk(p, j) && |b.mem| == p.Depth() && i < j.words && phase < 4
    && b.dma.busy && !b.dma.done && b.dma.remain == 4 * (j.words - i) && b.dma.len % 4 == 0
    && b.dma.src == AddressAt(j.src, i) && b.dma.dst == AddressAt(j.dst, i)
    && (match phase
        case 0 => b.dma.st.StReadReq? && !b.dma.stb && b.mem == After(p, j, i) && Between(dmaFirst, b.slave)
        case 1 => Reading(p, dmaFirst, b) && b.mem == After(p, j, i)
        case 2 =>
          && b.dma.st.StWriteReq? && !b.dma.stb && b.mem == After(p, j, i) && Between(dmaFirst, b.slave)
          && b.dma.rdVal == ReadWord(p, b.mem, FoldAddress(p, b.dma.src))
        case _ =>
          && Writing(p, dmaFirst, b) && b.dma.dat == ReadWord(p, After(p, j, i), FoldAddress(p, b.dma.src))
          && b.mem == After(p, j, if dmaFirst then i + 1 else i))
  }

  /** A read request is on the bus; a slave that runs second has answered it already. */
  ghost predicate Reading(p: Port, dmaFirst: bool, b: Bus) {
    && b.dma.st.StReadWait? && b.dma.stb && b.dma.cyc && !b.dma.we && b.dma.adr == b.dma.src
    && if dmaFirst then Serving(p, b.slave, b.dma.adr, false) && b.slave.ack && b.slave.dat == ReadWord(p, b.mem, FoldAddress(p, b.dma.adr))
       else Quiet(b.slave)
  }

  /** A write request is on the bus. */
  ghost predicate Writing(p: Port, dmaFirst: bool, b: Bus) {
    && b.dma.st.StWriteWait? && b.dma.stb && b.dma.cyc && b.dma.we && b.dma.adr == b.dma.dst
    && if dmaFirst then Serving(p, b.slave, b.dma.adr, true) && b.slave.ack else Quiet(b.slave)
  }

  /** With the strobe down, the slave is quiet, or about to withdraw its acknowledge when it runs first. */
  ghost predicate Between(dmaFirst: bool, s: Slave) {
    if dmaFirst then Quiet(s) else s.prevStb && s.ackPending
  }

  predicate Starts(d: Dma, c: Config) {
    c.stb && c.cyc && !d.prevStb && c.adr % 32 == 0x0C && c.we && c.dat % 2 == 1 && !d.busy && d.len != 0
  }

  /** Register accesses during a copy do not touch it. */
  lemma BusyConfigure(d: Dma, c: Config)
    requires d.busy
    ensures var e := Configure(d, c).0;
      e == d.(prevStb := e.prevStb, latched := e.latched)
  {
    BusyAccess(d.(prevStb := c.stb && c.cyc), c.adr % 32, c.we, c.dat, c.dat % 2 == 1, c.dat - c.dat % 4);
    hide AccessAt;
  }

  lemma BusyAccess(d: Dma, r: nat, we: bool, dat: Word, start: bool, len: Word)
    requires d.busy
    ensures AccessAt(d, r, we, dat, start, len).0 == d
  {
  }

  lemma RestAccess(d: Dma, r: nat, we: bool, dat: Word, start: bool, len: Word)
    requires !d.busy
    ensures var e := AccessAt(d, r, we, dat, start, len).0;
      if r == 0x0C && we && start && d.len != 0
      then AccessAt(d, r, we, dat, start, len) == (d.(remain := d.len, busy := true, done := false, st := StReadReq), 0)
      else e.busy == d.busy && e.done == d.done && e.st == d.st && e.stb == d.stb && (e.len == d.len || e.len == len)
  {
    if r == 0x00 {} else if r == 0x04 {} else if r == 0x08 {} else if r == 0x0C {} else {}
  }

  lemma WordMultiple(v: nat)
    ensures (v - v % 4) % 4 == 0 && (v - v % 2) % 2 == 0
  {
    Quadruple(v / 4);
    Double(v / 2);
  }

  lemma Quadruple(q: nat)
    ensures 4 * q % 4 == 0
  {
  }

  lemma Double(q: nat)
    ensures 2 * q % 2 == 0
  {
  }

  lemma RestConfigure(d: Dma, c: Config)
    requires !d.busy && d.len % 4 == 0
    ensures var e := Configure(d, c).0;
      && (!Starts(d, c) ==> e.busy == d.busy && e.done == d.done && e.st == d.st && e.stb == d.stb && e.len % 4 == 0)
      && (Starts(d, c) ==> e == d.(prevStb := true, latched := 0, remain := d.len, busy := true, done := false, st := StReadReq))
  {
    WordMultiple(c.dat);
    RestAccess(d.(prevStb := c.stb && c.cyc), c.adr % 32, c.we, c.dat, c.dat % 2 == 1, c.dat - c.dat % 4);
    hide AccessAt;
  }

  lemma QuietSlave(p: Port, s: Slave, mem: seq<Octet>, q: Request)
    requires |q.sel| == 4 && !(q.stb && q.cyc)
    requires Quiet(s) || (s.prevStb && s.ackPending)
    ensures SlaveEdge(p, s, mem, q).1 == mem && Quiet(SlaveEdge(p, s, mem, q).0)
  {
  }

  lemma ServeRead(p: Port, s: Slave, mem: seq<Octet>, q: Request)
    requires |q.sel| == 4 && q.stb && q.cyc && !q.we && Quiet(s)
    ensures var (t, m) := SlaveEdge(p, s, mem, q);
      m == mem && Serving(p, t, q.adr, false) && t.ack && t.dat == ReadWord(p, mem, FoldAddress(p, q.adr))
  {
  }

  lemma ServeWrite(p: Port, s: Slave, mem: seq<Octet>, q: Request)
    requires |q.sel| == 4 && q.stb && q.cyc && q.we && Quiet(s)
    ensures var (t, m) := SlaveEdge(p, s, mem, q);
      m == WriteWord(p, mem, FoldAddress(p, q.adr), q.dat, q.sel) && Serving(p, t, q.adr, true) && t.ack
  {
  }

  lemma NextAddress(start: Word, k: nat)
    ensures Add4(AddressAt(start, k)) == AddressAt(start, k + 1)
  {
  }

  /** At rest nothing moves until a start is written. */
  lemma RestStep(p: Port, dmaFirst: bool, b: Bus, c: Config)
    requires AtRest(p, dmaFirst, b) && !Starts(b.dma, c)
    ensures AtRest(p, dmaFirst, Edge(p, dmaFirst, b, c)) && Edge(p, dmaFirst, b, c).mem == b.mem
    ensures Edge(p, dmaFirst, b, c).dma.done == b.dma.done
  {
    hide FoldAddress, ReadWord, WriteWord, Configure, SlaveEdge;
    RestConfigure(b.dma, c);
    QuietSlave(p, b.slave, b.mem, RequestOf(b.dma));
    QuietSlave(p, b.slave, b.mem, RequestOf(DmaEdge(b.dma, c, b.slave.dat, b.slave.ack).0));
  }

  ghost function JobOf(b: Bus): Job {
    Job(b.mem, b.dma.src, b.dma.dst, b.dma.len / 4)
  }

  /** The start edge already requests the first word. */
  lemma StartStep(p: Port, dmaFirst: bool, b: Bus, c: Config)
    requires AtRest(p, dmaFirst, b) && Starts(b.dma, c)
    ensures Copying(p, dmaFirst, Edge(p, dmaFirst, b, c), JobOf(b), 0, 1)
  {
    hide FoldAddress, ReadWord, WriteWord;
    RestConfigure(b.dma, c);
    if dmaFirst {
      ServeRead(p, b.slave, b.mem, RequestOf(DmaEdge(b.dma, c, b.slave.dat, b.slave.ack).0));
    } else {
      QuietSlave(p, b.slave, b.mem, RequestOf(b.dma));
    }
  }

  /** Phases 0 and 2: a request is raised. */
  lemma RequestStep(p: Port, dmaFirst: bool, b: Bus, c: Config, j: Job, i: nat, phase: nat)
    requires Copying(p, dmaFirst, b, j, i, phase) && (phase == 0 || phase == 2)
    ensures Copying(p, dmaFirst, Edge(p, dmaFirst, b, c), j, i, phase + 1)
  {
    hide FoldAddress, ReadWord, WriteWord;
    BusyConfigure(b.dma, c);
    if dmaFirst {
      var d := DmaEdge(b.dma, c, b.slave.dat, b.slave.ack).0;
      if phase == 0 {
        ServeRead(p, b.slave, b.mem, RequestOf(d));
      } else {
        ServeWrite(p, b.slave, b.mem, RequestOf(d));
      }
    } else {
      QuietSlave(p, b.slave, b.mem, RequestOf(b.dma));
    }
  }

  /** Phase 1: the word read is taken. */
  lemma ReadStep(p: Port, dmaFirst: bool, b: Bus, c: Config, j: Job, i: nat)
    requires Copying(p, dmaFirst, b, j, i, 1)
    ensures Copying(p, dmaFirst, Edge(p, dmaFirst, b, c), j, i, 2)
  {
    hide FoldAddress, ReadWord, WriteWord;
    BusyConfigure(b.dma, c);
    if dmaFirst {
      QuietSlave(p, b.slave, b.mem, RequestOf(DmaEdge(b.dma, c, b.slave.dat, b.slave.ack).0));
    } else {
      ServeRead(p, b.slave, b.mem, RequestOf(b.dma));
    }
  }

  /** Phase 3: the write is acknowledged, and the next word or the end follows. */
  lemma WriteStep(p: Port, dmaFirst: bool, b: Bus, c: Config, j: Job, i: nat)
    requires Copying(p, dmaFirst, b, j, i, 3)
    ensures i + 1 < j.words ==> Copying(p, dmaFirst, Edge(p, dmaFirst, b, c), j, i + 1, 0)
    ensures i + 1 == j.words ==>
      var e := Edge(p, dmaFirst, b, c);
      AtRest(p, dmaFirst, e) && e.dma.done && e.mem == After(p, j, j.words)
  {
    hide FoldAddress, ReadWord, WriteWord;
    BusyConfigure(b.dma, c);
    NextAddress(j.src, i);
    NextAddress(j.dst, i);
    if dmaFirst {
      QuietSlave(p, b.slave, b.mem, RequestOf(DmaEdge(b.dma, c, b.slave.dat, b.slave.ack).0));
    } else {
      ServeWrite(p, b.slave, b.mem, RequestOf(b.dma));
    }
  }

  // ---- Whole copies ----

  /** The bus after the given number of edges of the job's copy. */
  ghost predicate Progress(p: Port, dmaFirst: bool, b: Bus, j: Job, edges: nat) {
    if edges < 4 * j.words then Copying(p, dmaFirst, b, j, edges / 4, edges % 4)
    else Finished(p, dmaFirst, b, j)
  }

  ghost predicate Finished(p: Port, dmaFirst: bool, b: Bus, j: Job) {
    JobOk(p, j) && AtRest(p, dmaFirst, b) && b.dma.done && b.mem == After(p, j, j.words)
  }

  /** e is what follows phase of word i. */
  ghost predicate Succeeds(p: Port, dmaFirst: bool, j: Job, i: nat, phase: nat, e: Bus) {
    if phase < 3 then Copying(p, dmaFirst, e, j, i, phase + 1)
    else if i + 1 < j.words then Copying(p, dmaFirst, e, j, i + 1, 0)
    else Finished(p, dmaFirst, e, j)
  }

  lemma NextPhase(p: Port, dmaFirst: bool, b: Bus, c: Config, j: Job, i: nat, phase: nat)
    requires Copying(p, dmaFirst, b, j, i, phase)
    ensures phase < 4 && i < j.words && Succeeds(p, dmaFirst, j, i, phase, Edge(p, dmaFirst, b, c))
  {
    hide Edge;
    match phase
    case 0 => RequestStep(p, dmaFirst, b, c, j, i, 0);
    case 1 => ReadStep(p, dmaFirst, b, c, j, i);
    case 2 => RequestStep(p, dmaFirst, b, c, j, i, 2);
    case _ => WriteStep(p, dmaFirst, b, c, j, i);
  }

  lemma CountUp(p: Port, dmaFirst: bool, j: Job, edges: nat, e: Bus)
    requires edges / 4 < j.words && Succeeds(p, dmaFirst, j, edges / 4, edges % 4, e)
    ensures Progress(p, dmaFirst, e, j, edges + 1)
  {
    hide Copying, Finished;
    var i, phase := edges / 4, edges % 4;
    if phase < 3 {
      assert (edges + 1) / 4 == i && (edges + 1) % 4 == phase + 1;
    } else {
      assert (edges + 1) / 4 == i + 1 && (edges + 1) % 4 == 0;
    }
  }

  lemma ProgressStep(p: Port, dmaFirst: bool, b: Bus, c: Config, j: Job, edges: nat)
    requires edges < 4 * j.words && Progress(p, dmaFirst, b, j, edges)
    ensures Progress(p, dmaFirst, Edge(p, dmaFirst, b, c), j, edges + 1)
  {
    hide Edge, Copying, Finished, Succeeds;
    NextPhase(p, dmaFirst, b, c, j, edges / 4, edges % 4);
    CountUp(p, dmaFirst, j, edges, Edge(p, dmaFirst, b, c));
  }

  /** What every step carries forward holds at the end of a run, with the steps counted. */
  lemma {:induction false} FoldCounts<S(!new), C(!new)>(step: (S, C) -> S, s: S, script: seq<C>, from: nat, inv: (S, nat) -> bool)
    requires inv(s, from)
    requires forall x: S, n: nat, c: C :: inv(x, n) && n < from + |script| ==> inv(step(x, c), n + 1)
    ensures inv(Fold(step, s, script), from + |script|)
    decreases |script|
  {
    if script != [] {
      FoldCounts(step, step(s, script[0]), script[1..], from + 1, inv);
    }
  }

  lemma ProgressRun(p: Port, dmaFirst: bool, b: Bus, j: Job, edges: nat, script: seq<Config>)
    requires Progress(p, dmaFirst, b, j, edges) && edges + |script| <= 4 * j.words
    ensures Progress(p, dmaFirst, Run(p, dmaFirst, b, script), j, edges + |script|)
  {
    hide Edge, Copying, Finished, Progress;
    var inv := (x: Bus, n: nat) => Progress(p, dmaFirst, x, j, n);
    var step := (x: Bus, c: Config) => Edge(p, dmaFirst, x, c);
    forall x: Bus, n: nat, c: Config | inv(x, n) && n < edges + |script| ensures inv(step(x, c), n + 1) {
      ProgressStep(p, dmaFirst, x, c, j, n);
    }
    FoldCounts(step, b, script, edges, inv);
  }

  /** Main result: a started copy of len / 4 words takes exactly four edges a word. Until the last of them the
      controller is busy and not done; then it is done and memory is the ascending word-by-word copy. This holds in
      both evaluation orders and for every register access made meanwhile. */
  lemma CopyCompletes(p: Port, dmaFirst: bool, b: Bus, start: Config, script: seq<Config>)
    requires AtRest(p, dmaFirst, b) && Starts(b.dma, start)
    requires 1 + |script| <= b.dma.len
    ensures var e := Run(p, dmaFirst, Edge(p, dmaFirst, b, start), script);
      if 1 + |script| < b.dma.len then e.dma.busy && !e.dma.done
      else e.dma.done && !e.dma.busy && e.mem == CopyWords(p, b.mem, b.dma.src, b.dma.dst, b.dma.len / 4)
  {
    hide Edge, Run;
    StartStep(p, dmaFirst, b, start);
    var j := JobOf(b);
    ProgressRun(p, dmaFirst, Edge(p, dmaFirst, b, start), j, 1, script);
  }

  // ---- Every reachable state ----

  ghost predicate Reached(p: Port, dmaFirst: bool, b: Bus) {
    AtRest(p, dmaFirst, b) || exists j: Job, edges: nat :: edges < 4 * j.words && Progress(p, dmaFirst, b, j, edges)
  }

  lemma ReachedStep(p: Port, dmaFirst: bool, b: Bus, c: Config)
    requires Reached(p, dmaFirst, b)
    ensures Reached(p, dmaFirst, Edge(p, dmaFirst, b, c))
  {
    if AtRest(p, dmaFirst, b) {
      if Starts(b.dma, c) {
        StartStep(p, dmaFirst, b, c);
        assert Progress(p, dmaFirst, Edge(p, dmaFirst, b, c), JobOf(b), 1);
      } else {
        RestStep(p, dmaFirst, b, c);
      }
    } else {
      var j: Job, edges: nat :| edges < 4 * j.words && Progress(p, dmaFirst, b, j, edges);
      ProgressStep(p, dmaFirst, b, c, j, edges);
    }
  }

  lemma AlwaysReached(p: Port, dmaFirst: bool, b: Bus, script: seq<Config>)
    requires Reached(p, dmaFirst, b)
    ensures Reached(p, dmaFirst, Run(p, dmaFirst, b, script))
  {
    var inv := (x: Bus, n: nat) => Reached(p, dmaFirst, x);
    var step := (x: Bus, c: Config) => Edge(p, dmaFirst, x, c);
    forall x: Bus, n: nat, c: Config | inv(x, n) ensures inv(step(x, c), n + 1) {
      ReachedStep(p, dmaFirst, x, c);
    }
    FoldCounts(step, b, script, 0, inv);
  }

  /** The slave whose acknowledge the controller sees at this edge. */
  ghost function Seen(p: Port, dmaFirst: bool, b: Bus): Slave {
    if dmaFirst then b.slave else SlaveEdge(p, b.slave, b.mem, RequestOf(b.dma)).0
  }

  /** Main result: from reset, whatever is written to the registers, an acknowledge the controller acts on belongs to
      the request it has on the bus: same folded address, same direction, still selected. */
  lemma AcknowledgeIsFresh(p: Port, dmaFirst: bool, mem: seq<Octet>, script: seq<Config>)
    requires PortOk(p) && |mem| == p.Depth()
    ensures var b := Run(p, dmaFirst, Bus(DMA_RESET, SLAVE_RESET, mem), script);
      (b.dma.st.StReadWait? || b.dma.st.StWriteWait?) && Seen(p, dmaFirst, b).ack ==>
        b.dma.stb && b.dma.cyc && Serving(p, Seen(p, dmaFirst, b), b.dma.adr, b.dma.we)
  {
    AlwaysReached(p, dmaFirst, Bus(DMA_RESET, SLAVE_RESET, mem), script);
    var b := Run(p, dmaFirst, Bus(DMA_RESET, SLAVE_RESET, mem), script);
    if !AtRest(p, dmaFirst, b) {
      var j: Job, edges: nat :| edges < 4 * j.words && Progress(p, dmaFirst, b, j, edges);
      FreshWhileCopying(p, dmaFirst, b, j, edges / 4, edges % 4);
    }
  }

  lemma FreshWhileCopying(p: Port, dmaFirst: bool, b: Bus, j: Job, i: nat, phase: nat)
    requires Copying(p, dmaFirst, b, j, i, phase)
    ensures b.dma.st.StReadWait? || b.dma.st.StWriteWait? ==>
      b.dma.stb && b.dma.cyc && Serving(p, Seen(p, dmaFirst, b), b.dma.adr, b.dma.we)
  {
    if !dmaFirst && phase == 1 {
      ServeRead(p, b.slave, b.mem, RequestOf(b.dma));
    }
    if !dmaFirst && phase == 3 {
      ServeWrite(p, b.slave, b.mem, RequestOf(b.dma));
    }
  }

  // ---- What the copy means for the bytes ----

  lemma CopyWordBytes(p: Port, mem: seq<Octet>, src: Word, dst: Word, x: nat)
    requires PortOk(p) && |mem| == p.Depth() && x < p.Depth()
    ensures var s := FoldAddress(p, src); var d := FoldAddress(p, dst);
      CopyWord(p, mem, src, dst)[x] ==
        if InRange(p, mem, d) && d <= x < d + p.bytes then (if InRange(p, mem, s) then mem[s + (x - d)] else 0) else mem[x]
  {
    hide FoldAddress, ByteOf, ReadWord;
    var s := FoldAddress(p, src);
    var d := FoldAddress(p, dst);
    if InRange(p, mem, d) && d <= x < d + p.bytes {
      if InRange(p, mem, s) {
        ByteOfReadWord(p, mem, s, x - d);
      } else {
        ZeroRead(p, mem, s, x - d);
      }
    }
  }

  lemma ZeroRead(p: Port, mem: seq<Octet>, a: nat, i: nat)
    requires !InRange(p, mem, a) && i < 4
    ensures ByteOf(ReadWord(p, mem, a), i) == 0
  {
  }

  /** A byte outside every destination word keeps its value. */
  lemma {:induction false} CopyLeavesTheRest(p: Port, mem: seq<Octet>, src: Word, dst: Word, k: nat, x: nat)
    requires PortOk(p) && |mem| == p.Depth() && x < p.Depth()
    requires forall i :: 0 <= i < k ==> !(FoldAddress(p, AddressAt(dst, i)) <= x < FoldAddress(p, AddressAt(dst, i)) + p.bytes)
    ensures CopyWords(p, mem, src, dst, k)[x] == mem[x]
  {
    if k > 0 {
      CopyLeavesTheRest(p, mem, src, dst, k - 1, x);
      CopyWordBytes(p, CopyWords(p, mem, src, dst, k - 1), AddressAt(src, k - 1), AddressAt(dst, k - 1), x);
    }
  }

  /** No word before the i-th is copied over the source of word i. */
  ghost predicate SourceSpared(p: Port, src: Word, dst: Word, i: nat) {
    forall j :: 0 <= j < i ==> FoldAddress(p, AddressAt(dst, j)) != FoldAddress(p, AddressAt(src, i))
  }

  /** No word after the i-th of k is copied over the destination of word i. */
  ghost predicate TargetSpared(p: Port, dst: Word, i: nat, k: nat) {
    forall j :: i < j < k ==> FoldAddress(p, AddressAt(dst, j)) != FoldAddress(p, AddressAt(dst, i))
  }

  /** Word i arrives unchanged when no earlier word of the copy overwrites its source and no later one its destination. */
  lemma CopyDelivers(p: Port, mem: seq<Octet>, src: Word, dst: Word, k: nat, i: nat, o: nat)
    requires PortOk(p) && |mem| == p.Depth() && i < k && o < p.bytes && p.bytes <= p.Depth()
    requires SourceSpared(p, src, dst, i) && TargetSpared(p, dst, i, k)
    ensures InRange(p, mem, FoldAddress(p, AddressAt(src, i))) && InRange(p, mem, FoldAddress(p, AddressAt(dst, i)))
    ensures CopyWords(p, mem, src, dst, k)[FoldAddress(p, AddressAt(dst, i)) + o] == mem[FoldAddress(p, AddressAt(src, i)) + o]
    decreases k
  {
    hide SourceSpared, TargetSpared, FoldAddress, CopyWords, CopyWord, AddressAt, Power2;
    FoldAligned(p, AddressAt(src, i));
    FoldAligned(p, AddressAt(dst, i));
    if k == i + 1 {
      SourceKept(p, mem, src, dst, i, o);
      WordArrives(p, mem, src, dst, i, o);
    } else {
      FewerLater(p, dst, i, k);
      CopyDelivers(p, mem, src, dst, k - 1, i, o);
      LaterWordMisses(p, mem, src, dst, k, i, o);
    }
  }

  lemma FewerLater(p: Port, dst: Word, i: nat, k: nat)
    requires i + 1 < k && TargetSpared(p, dst, i, k)
    ensures TargetSpared(p, dst, i, k - 1) && FoldAddress(p, AddressAt(dst, k - 1)) != FoldAddress(p, AddressAt(dst, i))
  {
  }

  lemma LaterWordMisses(p: Port, mem: seq<Octet>, src: Word, dst: Word, k: nat, i: nat, o: nat)
    requires PortOk(p) && |mem| == p.Depth() && i + 1 < k && o < p.bytes && p.bytes <= p.Depth()
    requires FoldAddress(p, AddressAt(dst, k - 1)) != FoldAddress(p, AddressAt(dst, i))
    requires InRange(p, mem, FoldAddress(p, AddressAt(dst, i)))
    ensures CopyWords(p, mem, src, dst, k)[FoldAddress(p, AddressAt(dst, i)) + o] ==
            CopyWords(p, mem, src, dst, k - 1)[FoldAddress(p, AddressAt(dst, i)) + o]
  {
    hide FoldAddress, CopyWords, CopyWord, AddressAt, Power2;
    WordsDisjoint(p, AddressAt(dst, k - 1), AddressAt(dst, i), o);
    NextWordCopied(p, mem, src, dst, k - 1, FoldAddress(p, AddressAt(dst, i)) + o);
    CopyWordBytes(p, CopyWords(p, mem, src, dst, k - 1), AddressAt(src, k - 1), AddressAt(dst, k - 1),
                  FoldAddress(p, AddressAt(dst, i)) + o);
  }

  lemma WordArrives(p: Port, mem: seq<Octet>, src: Word, dst: Word, i: nat, o: nat)
    requires PortOk(p) && |mem| == p.Depth() && o < p.bytes && p.bytes <= p.Depth()
    requires InRange(p, mem, FoldAddress(p, AddressAt(src, i))) && InRange(p, mem, FoldAddress(p, AddressAt(dst, i)))
    requires CopyWords(p, mem, src, dst, i)[FoldAddress(p, AddressAt(src, i)) + o] == mem[FoldAddress(p, AddressAt(src, i)) + o]
    ensures CopyWords(p, mem, src, dst, i + 1)[FoldAddress(p, AddressAt(dst, i)) + o] == mem[FoldAddress(p, AddressAt(src, i)) + o]
  {
    hide *;
    var s, d := AddressAt(src, i), AddressAt(dst, i);
    var m := CopyWords(p, mem, src, dst, i);
    SameRange(p, mem, m, FoldAddress(p, s), o);
    SameRange(p, mem, m, FoldAddress(p, d), o);
    NextWordCopied(p, mem, src, dst, i, FoldAddress(p, d) + o);
    OneWordArrives(p, m, s, d, o);
  }

  lemma SameRange(p: Port, mem: seq<Octet>, m: seq<Octet>, a: nat, o: nat)
    requires |m| == |mem| && InRange(p, mem, a) && o < p.bytes
    ensures InRange(p, m, a) && a + o < |mem|
  {
  }

  lemma NextWordCopied(p: Port, mem: seq<Octet>, src: Word, dst: Word, i: nat, x: nat)
    requires x < |mem|
    ensures CopyWords(p, mem, src, dst, i + 1)[x] ==
            CopyWord(p, CopyWords(p, mem, src, dst, i), AddressAt(src, i), AddressAt(dst, i))[x]
  {
  }

  lemma SourceKept(p: Port, mem: seq<Octet>, src: Word, dst: Word, i: nat, o: nat)
    requires PortOk(p) && |mem| == p.Depth() && o < p.bytes && p.bytes <= p.Depth()
    requires InRange(p, mem, FoldAddress(p, AddressAt(src, i))) && SourceSpared(p, src, dst, i)
    ensures var s := FoldAddress(p, AddressAt(src, i)) + o;
      s < |mem| && CopyWords(p, mem, src, dst, i)[s] == mem[s]
  {
    var s := FoldAddress(p, AddressAt(src, i)) + o;
    hide FoldAddress, CopyWord, AddressAt, CopyWords, Power2;
    forall j | 0 <= j < i ensures !(FoldAddress(p, AddressAt(dst, j)) <= s < FoldAddress(p, AddressAt(dst, j)) + p.bytes) {
      WordsDisjoint(p, AddressAt(dst, j), AddressAt(src, i), o);
    }
    CopyLeavesTheRest(p, mem, src, dst, i, s);
  }

  lemma OneWordArrives(p: Port, mem: seq<Octet>, src: Word, dst: Word, o: nat)
    requires PortOk(p) && |mem| == p.Depth() && o < p.bytes
    requires InRange(p, mem, FoldAddress(p, src)) && InRange(p, mem, FoldAddress(p, dst))
    ensures CopyWord(p, mem, src, dst)[FoldAddress(p, dst) + o] == mem[FoldAddress(p, src) + o]
  {
    CopyWordBytes(p, mem, src, dst, FoldAddress(p, dst) + o);
  }

  /** Folding is the remainder by the capacity, rounded down to a port word. */
  lemma FoldIs(p: Port, adr: Word)
    requires PortOk(p)
    ensures FoldAddress(p, adr) % p.bytes == 0
    ensures FoldAddress(p, adr) <= adr % p.Depth() < FoldAddress(p, adr) + p.bytes
  {
    LowBitsIsRemainder(adr, p.lines);
    AlignDownIs(LowBits(adr, p.lines), p.bytes);
    hide LowBits, Power2, AlignDown;
  }

  lemma AlignDownIs(v: nat, n: nat)
    requires n == 1 || n == 2 || n == 4
    ensures AlignDown(v, n) % n == 0 && AlignDown(v, n) <= v < AlignDown(v, n) + n
  {
    WordMultiple(v);
  }

  /** Reading back a written word gives the written byte where it was selected and the old byte elsewhere; nothing outside
      the word changes. */
  lemma WriteThenRead(p: Port, mem: seq<Octet>, a: nat, v: Data, sel: seq<bool>, i: nat)
    requires InRange(p, mem, a) && |sel| == 4 && i < p.bytes
    ensures var m := WriteWord(p, mem, a, v, sel);
      && ByteOf(ReadWord(p, m, a), i) == (if sel[i] then ByteOf(v, i) else ByteOf(ReadWord(p, mem, a), i))
      && forall x :: 0 <= x < |mem| && !(a <= x < a + p.bytes) ==> m[x] == mem[x]
  {
    hide ReadWord, ByteOf;
    ByteOfReadWord(p, mem, a, i);
    ByteOfReadWord(p, WriteWord(p, mem, a, v, sel), a, i);
  }

  /** Byte lane i of a data word is its bits 8 * i to 8 * i + 7. */
  lemma ByteLanes(v: Data)
    ensures (ByteOf(v, 0) as Data) == v & 0xFF && (ByteOf(v, 1) as Data) << 8 == v & 0xFF00
    ensures (ByteOf(v, 2) as Data) << 16 == v & 0xFF_0000 && (ByteOf(v, 3) as Data) << 24 == v & 0xFF00_0000
  {
  }

  lemma FoldAligned(p: Port, adr: nat)
    requires PortOk(p) && p.bytes <= p.Depth()
    ensures FoldAddress(p, adr) % p.bytes == 0 && FoldAddress(p, adr) + p.bytes <= p.Depth()
  {
    hide LowBits;
    if p.bytes == 4 {
      assert Power2(1) == 2;
      assert p.lines >= 2 && Power2(p.lines) == 4 * Power2(p.lines - 2);
      AlignedFits(LowBits(adr, p.lines), 4, Power2(p.lines - 2));
    } else if p.bytes == 2 {
      assert Power2(p.lines) == 2 * Power2(p.lines - 1);
      AlignedFits(LowBits(adr, p.lines), 2, Power2(p.lines - 1));
    }
  }

  lemma AlignedFits(v: nat, n: nat, words: nat)
    requires (n == 2 && v < 2 * words) || (n == 4 && v < 4 * words)
    ensures AlignDown(v, n) % n == 0 && AlignDown(v, n) + n <= n * words
  {
    AlignDownIs(v, n);
    hide AlignDown;
    if n == 2 {
      NextMultiple(2, AlignDown(v, 2), words);
    } else {
      NextMultiple(4, AlignDown(v, 4), words);
    }
  }

  lemma NextMultiple(n: nat, x: nat, words: nat)
    requires (n == 2 || n == 4) && x % n == 0 && x < n * words
    ensures x + n <= n * words
  {
    if n == 2 {
      assert x == 2 * (x / 2);
    } else {
      assert x == 4 * (x / 4);
    }
  }

  lemma WordsDisjoint(p: Port, a: nat, b: nat, o: nat)
    requires PortOk(p) && p.bytes <= p.Depth() && o < p.bytes && FoldAddress(p, a) != FoldAddress(p, b)
    ensures !(FoldAddress(p, a) <= FoldAddress(p, b) + o < FoldAddress(p, a) + p.bytes)
  {
    FoldAligned(p, a);
    FoldAligned(p, b);
    MultiplesApart(p.bytes, FoldAddress(p, a), FoldAddress(p, b), o);
  }

  lemma MultiplesApart(n: nat, x: nat, y: nat, o: nat)
    requires n == 1 || n == 2 || n == 4
    requires x % n == 0 && y % n == 0 && x != y && o < n
    ensures !(x <= y + o < x + n)
  {
    if n == 1 {
    } else if n == 2 {
    } else {
    }
  }
}
