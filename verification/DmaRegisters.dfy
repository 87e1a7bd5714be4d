/** What software sees of the DMA controller: what it writes to the registers is what gets copied, and what it reads. */
module DmaRegisters {
  import opened BlockCopy
  import opened BlockCopyProof

  // ---- What a script of configuration signals asks for ----

  predicate Active(c: Config) {
    c.stb && c.cyc
  }

  /** A transfer begins: the strobe is up and was not at the edge before. */
  predicate Rises(prev: bool, c: Config) {
    Active(c) && !prev
  }

  predicate Writes(prev: bool, c: Config, offset: nat) {
    Rises(prev, c) && c.we && c.adr % 32 == offset
  }

  predicate Reads(prev: bool, c: Config, offset: nat) {
    Rises(prev, c) && !c.we && c.adr % 32 == offset
  }

  /** The data of the last transfer that writes the offset, or v if there is none. */
  function LastWritten(prev: bool, script: seq<Config>, offset: nat, v: Word): Word
    decreases |script|
  {
    if script == [] then v
    else LastWritten(Active(script[0]), script[1..], offset, if Writes(prev, script[0], offset) then script[0].dat else v)
  }

  /** Lengths count whole words. */
  function WholeWords(v: Word): Word {
    4 * (v / 4)
  }

  predicate Start(prev: bool, c: Config) {
    Writes(prev, c, 0x0C) && c.dat % 2 == 1
  }

  /** No transfer of the script starts a copy: starts with a zero length do not. */
  predicate Unstarted(prev: bool, script: seq<Config>, len: Word)
    decreases |script|
  {
    script == [] ||
    (&& !(Start(prev, script[0]) && WholeWords(len) != 0)
     && Unstarted(Active(script[0]), script[1..], if Writes(prev, script[0], 0x08) then script[0].dat else len))
  }

  // ---- Idle: registers hold what was written last ----

  lemma WholeWordsIs(v: Word)
    ensures WholeWords(v) == v - v % 4 && WholeWords(v) % 4 == 0 && WholeWords(v) / 4 == v / 4
  {
  }

  lemma WholeIsWhole(v: Word)
    requires v % 4 == 0
    ensures WholeWords(v) == v
  {
  }

  lemma IdleAccess(d: Dma, r: nat, we: bool, dat: Word, start: bool, len: Word)
    requires !d.busy && !(r == 0x0C && we && start && d.len != 0)
    ensures var e := AccessAt(d, r, we, dat, start, len).0;
      && e.src == (if we && r == 0x00 then dat else d.src)
      && e.dst == (if we && r == 0x04 then dat else d.dst)
      && e.len == (if we && r == 0x08 then len else d.len)
      && e.prevStb == d.prevStb && e.st == d.st && e.done == d.done
  {
    if r == 0x00 {} else if r == 0x04 {} else if r == 0x08 {} else if r == 0x0C {} else {}
  }

  lemma IdleConfigure(d: Dma, c: Config)
    requires !d.busy && !(Start(d.prevStb, c) && d.len != 0)
    ensures var e := Configure(d, c).0;
      && e.src == (if Writes(d.prevStb, c, 0x00) then c.dat else d.src)
      && e.dst == (if Writes(d.prevStb, c, 0x04) then c.dat else d.dst)
      && e.len == (if Writes(d.prevStb, c, 0x08) then WholeWords(c.dat) else d.len)
      && e.prevStb == Active(c) && e.st == d.st && e.done == d.done
  {
    WholeWordsIs(c.dat);
    hide AccessAt, WholeWords;
    if Rises(d.prevStb, c) {
      IdleAccess(d.(prevStb := true), c.adr % 32, c.we, c.dat, c.dat % 2 == 1, c.dat - c.dat % 4);
    }
  }

  /** The copy half of an edge moves no register while there is no copy. */
  lemma IdleAdvance(d: Dma, mdat: Data, mack: bool)
    requires d.st.StIdle? || d.st.StDone?
    ensures Advance(d, mdat, mack) == d.(stb := false, cyc := false)
  {
  }

  lemma EdgeIs(p: Port, dmaFirst: bool, b: Bus, c: Config)
    ensures exists mdat, mack :: Edge(p, dmaFirst, b, c).dma == Advance(Configure(b.dma, c).0, mdat, mack)
  {
    hide Configure, Advance, SlaveEdge;
    var t := SlaveEdge(p, b.slave, b.mem, RequestOf(b.dma)).0;
    var mdat, mack := if dmaFirst then b.slave.dat else t.dat, if dmaFirst then b.slave.ack else t.ack;
    assert Edge(p, dmaFirst, b, c).dma == Advance(Configure(b.dma, c).0, mdat, mack);
  }

  /** One edge at rest. */
  lemma IdleEdge(p: Port, dmaFirst: bool, b: Bus, c: Config)
    requires AtRest(p, dmaFirst, b) && !(Start(b.dma.prevStb, c) && b.dma.len != 0)
    ensures var e := Edge(p, dmaFirst, b, c);
      && AtRest(p, dmaFirst, e) && e.mem == b.mem && e.dma.done == b.dma.done && e.dma.prevStb == Active(c)
      && e.dma.src == (if Writes(b.dma.prevStb, c, 0x00) then c.dat else b.dma.src)
      && e.dma.dst == (if Writes(b.dma.prevStb, c, 0x04) then c.dat else b.dma.dst)
      && e.dma.len == (if Writes(b.dma.prevStb, c, 0x08) then WholeWords(c.dat) else b.dma.len)
  {
    assert b.dma.st.StIdle? || b.dma.st.StDone?;
    RestStep(p, dmaFirst, b, c);
    EdgeIs(p, dmaFirst, b, c);
    IdleConfigure(b.dma, c);
    hide Configure, Edge, AtRest, Advance, WholeWords, Writes;
    var mdat, mack :| Edge(p, dmaFirst, b, c).dma == Advance(Configure(b.dma, c).0, mdat, mack);
    IdleAdvance(Configure(b.dma, c).0, mdat, mack);
  }

  /** From reset no copy is in progress. */
  lemma ResetIsAtRest(p: Port, dmaFirst: bool, mem: seq<Octet>)
    requires PortOk(p) && |mem| == p.Depth()
    ensures AtRest(p, dmaFirst, Bus(DMA_RESET, SLAVE_RESET, mem)) && !Bus(DMA_RESET, SLAVE_RESET, mem).dma.prevStb
  {
  }

  lemma RunStep(p: Port, dmaFirst: bool, b: Bus, script: seq<Config>)
    ensures script != [] ==> Run(p, dmaFirst, b, script) == Run(p, dmaFirst, Edge(p, dmaFirst, b, script[0]), script[1..])
    ensures script == [] ==> Run(p, dmaFirst, b, script) == b
  {
    hide Edge;
  }

  lemma {:induction false} RunSplits(p: Port, dmaFirst: bool, b: Bus, first: seq<Config>, rest: seq<Config>)
    ensures Run(p, dmaFirst, b, first + rest) == Run(p, dmaFirst, Run(p, dmaFirst, b, first), rest)
    decreases |first|
  {
    hide Edge, Run;
    RunStep(p, dmaFirst, b, first);
    if first == [] {
      assert first + rest == rest;
    } else {
      RunStep(p, dmaFirst, b, first + rest);
      assert (first + rest)[1..] == first[1..] + rest;
      RunSplits(p, dmaFirst, Edge(p, dmaFirst, b, first[0]), first[1..], rest);
    }
  }

  /** Until a copy is started the registers hold what was written last, and memory stays. asked is the length written
      last, of which the register holds the whole words. */
  lemma {:induction false} IdleRun(p: Port, dmaFirst: bool, b: Bus, script: seq<Config>, asked: Word)
    requires AtRest(p, dmaFirst, b) && b.dma.len == WholeWords(asked) && Unstarted(b.dma.prevStb, script, asked)
    ensures var e := Run(p, dmaFirst, b, script);
      var prev := b.dma.prevStb;
      && AtRest(p, dmaFirst, e) && e.mem == b.mem && e.dma.done == b.dma.done
      && e.dma.prevStb == (if script == [] then prev else Active(script[|script| - 1]))
      && e.dma.src == LastWritten(prev, script, 0x00, b.dma.src)
      && e.dma.dst == LastWritten(prev, script, 0x04, b.dma.dst)
      && e.dma.len == WholeWords(LastWritten(prev, script, 0x08, asked))
    decreases |script|
  {
    hide Edge, Run, AtRest;
    RunStep(p, dmaFirst, b, script);
    if script != [] {
      var c := script[0];
      IdleEdge(p, dmaFirst, b, c);
      IdleRun(p, dmaFirst, Edge(p, dmaFirst, b, c), script[1..], if Writes(b.dma.prevStb, c, 0x08) then c.dat else asked);
    }
  }

  // ---- Main results: what is programmed is what is copied ----

  /** At edge i of the script a transfer writes v to the offset, and no later transfer writes it. */
  predicate LastWriteAt(prev: bool, script: seq<Config>, offset: nat, i: nat, v: Word) {
    && i < |script| && script[i].dat == v && Writes(Before(prev, script, i), script[i], offset)
    && forall j {:trigger script[j]} :: i < j < |script| ==> !Writes(Before(prev, script, j), script[j], offset)
  }

  /** Whether the strobe was up at the edge before edge i. */
  predicate Before(prev: bool, script: seq<Config>, i: nat)
    requires i <= |script|
  {
    if i == 0 then prev else Active(script[i - 1])
  }

  lemma {:induction false} LastWrittenIs(prev: bool, script: seq<Config>, offset: nat, i: nat, v: Word, was: Word)
    requires LastWriteAt(prev, script, offset, i, v)
    ensures LastWritten(prev, script, offset, was) == v
    decreases |script|
  {
    var next := Active(script[0]);
    var rest := script[1..];
    assert forall j :: 0 <= j < |rest| ==> rest[j] == script[j + 1] && Before(next, rest, j) == Before(prev, script, j + 1);
    if i > 0 {
      LastWrittenIs(next, rest, offset, i - 1, v, if Writes(prev, script[0], offset) then script[0].dat else was);
    } else {
      NeverWritten(next, rest, offset, v);
    }
  }

  lemma {:induction false} NeverWritten(prev: bool, script: seq<Config>, offset: nat, v: Word)
    requires forall j {:trigger script[j]} :: 0 <= j < |script| ==> !Writes(Before(prev, script, j), script[j], offset)
    ensures LastWritten(prev, script, offset, v) == v
    decreases |script|
  {
    if script != [] {
      var next := Active(script[0]);
      var rest := script[1..];
      assert forall j :: 0 <= j < |rest| ==> rest[j] == script[j + 1] && Before(next, rest, j) == Before(prev, script, j + 1);
      assert !Writes(Before(prev, script, 0), script[0], offset);
      NeverWritten(next, rest, offset, v);
    }
  }

  /** Main result: whatever else is on the configuration bus, when the last transfers to 0x00, 0x04 and 0x08 wrote src, dst
      and n, a transfer that writes an odd value to 0x0C starts the copy of the n / 4 words at src to dst. It takes 4 * (n / 4)
      edges; before the last of them the controller is busy and not done, and then it is done and memory is the copy. */
  lemma ProgrammedCopy(p: Port, dmaFirst: bool, b: Bus, script: seq<Config>, start: Config, rest: seq<Config>,
                       src: Word, dst: Word, n: Word, i: nat, j: nat, l: nat)
    requires AtRest(p, dmaFirst, b) && Unstarted(b.dma.prevStb, script, b.dma.len)
    requires LastWriteAt(b.dma.prevStb, script, 0x00, i, src) && LastWriteAt(b.dma.prevStb, script, 0x04, j, dst)
    requires LastWriteAt(b.dma.prevStb, script, 0x08, l, n) && n >= 4
    requires Start(Active(script[|script| - 1]), start) && 1 + |rest| <= 4 * (n / 4)
    ensures var e := Run(p, dmaFirst, b, script + [start] + rest);
      if 1 + |rest| < 4 * (n / 4) then e.dma.busy && !e.dma.done
      else e.dma.done && !e.dma.busy && e.mem == CopyWords(p, b.mem, src, dst, n / 4)
  {
    assert b.dma.len % 4 == 0;
    WholeIsWhole(b.dma.len);
    LastWrittenIs(b.dma.prevStb, script, 0x00, i, src, b.dma.src);
    LastWrittenIs(b.dma.prevStb, script, 0x04, j, dst, b.dma.dst);
    LastWrittenIs(b.dma.prevStb, script, 0x08, l, n, b.dma.len);
    IdleRun(p, dmaFirst, b, script, b.dma.len);
    var e := Run(p, dmaFirst, b, script);
    WholeWordsIs(n);
    StartedCopy(p, dmaFirst, b, script, start, rest);
  }

  lemma StartedCopy(p: Port, dmaFirst: bool, b: Bus, script: seq<Config>, start: Config, rest: seq<Config>)
    requires var e := Run(p, dmaFirst, b, script);
      AtRest(p, dmaFirst, e) && Start(e.dma.prevStb, start) && 0 < 1 + |rest| <= e.dma.len
    ensures var e := Run(p, dmaFirst, b, script);
      var f := Run(p, dmaFirst, b, script + [start] + rest);
      if 1 + |rest| < e.dma.len then f.dma.busy && !f.dma.done
      else f.dma.done && !f.dma.busy && f.mem == CopyWords(p, e.mem, e.dma.src, e.dma.dst, e.dma.len / 4)
  {
    var e := Run(p, dmaFirst, b, script);
    assert !e.dma.busy && Starts(e.dma, start);
    hide Edge, Run, AtRest, CopyWords;
    assert script + [start] + rest == script + ([start] + rest);
    RunSplits(p, dmaFirst, b, script, [start] + rest);
    RunStep(p, dmaFirst, e, [start] + rest);
    assert ([start] + rest)[1..] == rest;
    CopyCompletes(p, dmaFirst, e, start, rest);
  }

  // ---- What reads answer ----

  /** The data and the acknowledge on the configuration bus after an edge. */
  function Answer(p: Port, dmaFirst: bool, b: Bus, c: Config): (Word, bool) {
    var t := if dmaFirst then b.slave else SlaveEdge(p, b.slave, b.mem, RequestOf(b.dma)).0;
    var (_, dout, ack) := DmaEdge(b.dma, c, t.dat, t.ack);
    (dout, ack)
  }

  lemma AnswerIs(p: Port, dmaFirst: bool, b: Bus, c: Config)
    ensures Answer(p, dmaFirst, b, c) == (Configure(b.dma, c).1, Configure(b.dma, c).2)
  {
    hide Configure, SlaveEdge, Advance;
  }

  /** Main result: a transfer that begins is acknowledged at once. A read of 0x00, 0x04 or 0x08 answers the register, a read
      of 0x10 has bit 0 set exactly when the controller is busy and bit 1 exactly when it is done, and all else answers
      zero. */
  lemma TransfersAnswer(p: Port, dmaFirst: bool, b: Bus, c: Config)
    requires Rises(b.dma.prevStb, c)
    ensures var (dout, ack) := Answer(p, dmaFirst, b, c);
      && ack
      && (Reads(b.dma.prevStb, c, 0x00) ==> dout == b.dma.src)
      && (Reads(b.dma.prevStb, c, 0x04) ==> dout == b.dma.dst)
      && (Reads(b.dma.prevStb, c, 0x08) ==> dout == b.dma.len)
      && (c.adr % 32 == 0x10 ==> dout < 4 && (dout % 2 == 1 <==> b.dma.busy) && (dout / 2 == 1 <==> b.dma.done))
      && (c.adr % 32 != 0x10 && (c.we || c.adr % 32 !in {0x00, 0x04, 0x08}) ==> dout == 0)
  {
    AnswerIs(p, dmaFirst, b, c);
    AccessAnswers(b.dma.(prevStb := true), c.adr % 32, c.we, c.dat, c.dat % 2 == 1, c.dat - c.dat % 4);
    hide AccessAt;
  }

  lemma AccessAnswers(d: Dma, r: nat, we: bool, dat: Word, start: bool, len: Word)
    ensures var dout := AccessAt(d, r, we, dat, start, len).1;
      && (!we && r == 0x00 ==> dout == d.src) && (!we && r == 0x04 ==> dout == d.dst) && (!we && r == 0x08 ==> dout == d.len)
      && (r == 0x10 ==> dout < 4 && (dout % 2 == 1 <==> d.busy) && (dout / 2 == 1 <==> d.done))
      && (r != 0x10 && (we || r !in {0x00, 0x04, 0x08}) ==> dout == 0)
  {
    if r == 0x00 {} else if r == 0x04 {} else if r == 0x08 {} else if r == 0x0C {} else {}
  }

  /** Main result: as long as no copy is started, reading a register back gives what was written to it last, of the length
      the whole words; the status shows neither busy nor a change of done. */
  lemma ReadsBack(p: Port, dmaFirst: bool, b: Bus, script: seq<Config>, c: Config)
    requires AtRest(p, dmaFirst, b) && Unstarted(b.dma.prevStb, script, b.dma.len) && script != []
    ensures var e := Run(p, dmaFirst, b, script);
      var before, now := b.dma.prevStb, Active(script[|script| - 1]);
      var dout := Answer(p, dmaFirst, e, c).0;
      && (Reads(now, c, 0x00) ==> dout == LastWritten(before, script, 0x00, b.dma.src))
      && (Reads(now, c, 0x04) ==> dout == LastWritten(before, script, 0x04, b.dma.dst))
      && (Reads(now, c, 0x08) ==> dout == WholeWords(LastWritten(before, script, 0x08, b.dma.len)))
      && (Reads(now, c, 0x10) ==> dout == if b.dma.done then 2 else 0)
  {
    assert b.dma.len % 4 == 0;
    WholeIsWhole(b.dma.len);
    IdleRun(p, dmaFirst, b, script, b.dma.len);
    var e := Run(p, dmaFirst, b, script);
    assert !e.dma.busy;
    hide Edge, Run, AtRest, Answer;
    if Rises(e.dma.prevStb, c) {
      TransfersAnswer(p, dmaFirst, e, c);
    }
  }

  // ---- What transfers cannot do ----

  const SILENT := Config(0, 0, false, false, false)

  /** The same controller up to the strobe seen last and the answer kept for it. */
  ghost predicate SameCopy(d: Dma, e: Dma) {
    && d.src == e.src && d.dst == e.dst && d.len == e.len && d.remain == e.remain && d.rdVal == e.rdVal
    && d.adr == e.adr && d.dat == e.dat && d.busy == e.busy && d.done == e.done
    && d.we == e.we && d.stb == e.stb && d.cyc == e.cyc && d.st == e.st
  }

  /** While a copy runs, whatever is on the configuration bus only decides the answer: the edge moves controller, slave and
      memory as it would without. */
  lemma BusyIgnoresWrites(p: Port, dmaFirst: bool, b: Bus, c: Config)
    requires b.dma.busy
    ensures var e, f := Edge(p, dmaFirst, b, c), Edge(p, dmaFirst, b, SILENT);
      e.mem == f.mem && e.slave == f.slave && SameCopy(e.dma, f.dma)
  {
    BusyIsSame(b.dma, c);
    var t := SlaveEdge(p, b.slave, b.mem, RequestOf(b.dma)).0;
    var mdat, mack := if dmaFirst then b.slave.dat else t.dat, if dmaFirst then b.slave.ack else t.ack;
    var d, e := Configure(b.dma, c).0, Configure(b.dma, SILENT).0;
    AdvanceIgnoresStrobe(d, e, mdat, mack);
    SameRequest(Advance(d, mdat, mack), Advance(e, mdat, mack));
    hide Configure, SlaveEdge, Advance, RequestOf, SameCopy;
  }

  lemma BusyIsSame(d: Dma, c: Config)
    requires d.busy
    ensures SameCopy(Configure(d, c).0, Configure(d, SILENT).0)
  {
    BusyConfigure(d, c);
    BusyConfigure(d, SILENT);
    hide Configure;
  }

  lemma AdvanceIgnoresStrobe(d: Dma, e: Dma, mdat: Data, mack: bool)
    requires SameCopy(d, e)
    ensures SameCopy(Advance(d, mdat, mack), Advance(e, mdat, mack))
  {
    hide WordDone;
    match d.st
    case StIdle =>
    case StDone =>
    case StReadReq =>
    case StReadWait =>
    case StWriteReq =>
    case StWriteWait => WordDoneIgnoresStrobe(d, e);
  }

  lemma WordDoneIgnoresStrobe(d: Dma, e: Dma)
    requires SameCopy(d, e)
    ensures SameCopy(WordDone(d), WordDone(e))
  {
    var left := if d.remain >= 4 then d.remain - 4 else d.remain;
    NextWordIsSame(d, e, Add4(d.src), Add4(d.dst), left);
    ConcludeIgnoresStrobe(NextWord(d, Add4(d.src), Add4(d.dst), left), NextWord(e, Add4(d.src), Add4(d.dst), left));
    hide Conclude, SameCopy, Add4;
  }

  function NextWord(d: Dma, src: Word, dst: Word, remain: Word): Dma {
    d.(stb := false, cyc := false, src := src, dst := dst, remain := remain)
  }

  lemma NextWordIsSame(d: Dma, e: Dma, src: Word, dst: Word, remain: Word)
    requires SameCopy(d, e)
    ensures SameCopy(NextWord(d, src, dst, remain), NextWord(e, src, dst, remain))
    ensures d.src == e.src && d.dst == e.dst && d.remain == e.remain
  {
  }

  lemma ConcludeIgnoresStrobe(d: Dma, e: Dma)
    requires SameCopy(d, e)
    ensures SameCopy(Conclude(d), Conclude(e))
  {
    ConcludedIsSame(d, e);
    assert d.remain == e.remain;
    hide SameCopy;
  }

  lemma ConcludedIsSame(d: Dma, e: Dma)
    requires SameCopy(d, e)
    ensures SameCopy(d.(busy := false, done := true, st := StDone), e.(busy := false, done := true, st := StDone))
    ensures SameCopy(d.(st := StReadReq), e.(st := StReadReq))
  {
  }

  lemma SameRequest(d: Dma, e: Dma)
    requires SameCopy(d, e)
    ensures RequestOf(d) == RequestOf(e)
  {
  }

  lemma HeldStep(p: Port, dmaFirst: bool, b: Bus, c: Config)
    ensures Edge(p, dmaFirst, b, c).dma.prevStb == Active(c)
    ensures Active(c) ==> Edge(p, dmaFirst, b, c).dma.latched == Answer(p, dmaFirst, b, c).0 && Answer(p, dmaFirst, b, c).1
    ensures Active(c) && b.dma.prevStb ==> Answer(p, dmaFirst, b, c).0 == b.dma.latched
    ensures !Active(c) ==> Answer(p, dmaFirst, b, c) == (0, false)
  {
    AnswerIs(p, dmaFirst, b, c);
    EdgeIs(p, dmaFirst, b, c);
    ConfigureHolds(b.dma, c);
    hide Configure, Edge, Advance, Answer;
    var mdat, mack :| Edge(p, dmaFirst, b, c).dma == Advance(Configure(b.dma, c).0, mdat, mack);
    AdvanceKeepsAnswer(Configure(b.dma, c).0, mdat, mack);
  }

  lemma ConfigureHolds(d: Dma, c: Config)
    ensures var (e, dout, ack) := Configure(d, c);
      && e.prevStb == Active(c)
      && (Active(c) ==> e.latched == dout && ack)
      && (Active(c) && d.prevStb ==> dout == d.latched)
      && (!Active(c) ==> dout == 0 && !ack)
  {
    AccessKeepsStrobe(d.(prevStb := true), c.adr % 32, c.we, c.dat, c.dat % 2 == 1, c.dat - c.dat % 4);
    hide AccessAt;
  }

  lemma AccessKeepsStrobe(d: Dma, r: nat, we: bool, dat: Word, start: bool, len: Word)
    ensures AccessAt(d, r, we, dat, start, len).0.prevStb == d.prevStb
  {
  }

  lemma AdvanceKeepsAnswer(d: Dma, mdat: Data, mack: bool)
    ensures Advance(d, mdat, mack).prevStb == d.prevStb && Advance(d, mdat, mack).latched == d.latched
  {
    hide WordDone;
    match d.st
    case StIdle =>
    case StDone =>
    case StReadReq =>
    case StReadWait =>
    case StWriteReq =>
    case StWriteWait => WordDoneKeepsAnswer(d);
  }

  lemma WordDoneKeepsAnswer(d: Dma)
    ensures WordDone(d).prevStb == d.prevStb && WordDone(d).latched == d.latched
  {
    hide Add4;
  }

  /** Main result: while the strobe stays up the first answer is repeated, whatever address and data are put on the bus;
      without a strobe there is no acknowledge and the data is zero. */
  lemma {:induction false} HeldStrobeRepeats(p: Port, dmaFirst: bool, b: Bus, first: Config, held: seq<Config>)
    requires Active(first) && forall c :: c in held ==> Active(c)
    ensures held != [] ==>
      var e := Run(p, dmaFirst, b, [first] + held[..|held| - 1]);
      Answer(p, dmaFirst, e, held[|held| - 1]) == Answer(p, dmaFirst, b, first)
    ensures var e := Run(p, dmaFirst, b, [first] + held);
      e.dma.prevStb && e.dma.latched == Answer(p, dmaFirst, b, first).0 && Answer(p, dmaFirst, b, first).1
    decreases |held|
  {
    hide Edge, Run, Answer;
    if held == [] {
      RunStep(p, dmaFirst, b, [first]);
      RunStep(p, dmaFirst, Edge(p, dmaFirst, b, first), []);
      HeldStep(p, dmaFirst, b, first);
      assert [first] + held == [first];
    } else {
      var some, last := held[..|held| - 1], held[|held| - 1];
      HeldStrobeRepeats(p, dmaFirst, b, first, some);
      var e := Run(p, dmaFirst, b, [first] + some);
      assert last in held;
      HeldStep(p, dmaFirst, e, last);
      RunOneMore(p, dmaFirst, b, [first] + some, last);
      assert [first] + held == ([first] + some) + [last];
    }
  }

  lemma RunOneMore(p: Port, dmaFirst: bool, b: Bus, script: seq<Config>, c: Config)
    ensures Run(p, dmaFirst, b, script + [c]) == Edge(p, dmaFirst, Run(p, dmaFirst, b, script), c)
  {
    hide Edge, Run;
    var e := Run(p, dmaFirst, b, script);
    RunSplits(p, dmaFirst, b, script, [c]);
    RunStep(p, dmaFirst, e, [c]);
    assert [c][1..] == [];
    RunStep(p, dmaFirst, Edge(p, dmaFirst, e, c), []);
  }
}
