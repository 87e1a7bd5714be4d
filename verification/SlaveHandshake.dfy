/** The memory slave under a strobe that is held up, as a master does that reads and then writes the same word. */
module SlaveHandshake {
  import opened BlockCopy
  import opened BlockCopyProof

  type Signals = q: Request | |q.sel| == 4 witness Request(0, 0, false, [false, false, false, false], false, false)

  function SlaveRun(p: Port, s: Slave, mem: seq<Octet>, script: seq<Signals>): (r: (Slave, seq<Octet>))
    ensures |r.1| == |mem|
  {
    if script == [] then (s, mem)
    else
      var (t, m) := SlaveRun(p, s, mem, script[..|script| - 1]);
      SlaveEdge(p, t, m, script[|script| - 1])
  }

  predicate Selected(q: Signals) {
    q.stb && q.cyc
  }

  /** The selected bytes of the port word at a are those of the data; all others are as before. */
  ghost predicate WordWritten(p: Port, mem: seq<Octet>, a: nat, dat: Data, sel: seq<bool>, after: seq<Octet>)
    requires |sel| == 4
  {
    && |after| == |mem|
    && forall x :: 0 <= x < |mem| ==>
         after[x] ==
           if a + p.bytes <= |mem| && a <= x < a + p.bytes && x - a < 4 && sel[x - a] then ByteOf(dat, x - a) else mem[x]
  }

  /** Answering a transfer that began with a read of the word at a. */
  ghost predicate Answering(s: Slave, a: nat, word: Data, wrote: bool) {
    s.prevStb && s.prevWe == wrote && s.ackPending && s.latchedAddr == a && s.latchedOut == word && s.dat == word && s.ack
  }

  lemma ReadBegins(p: Port, s: Slave, mem: seq<Octet>, q: Signals)
    requires Quiet(s) && Selected(q) && !q.we
    ensures var (t, m) := SlaveEdge(p, s, mem, q);
      m == mem && Answering(t, FoldAddress(p, q.adr), ReadWord(p, mem, FoldAddress(p, q.adr)), false)
  {
    hide ReadWord, FoldAddress;
  }

  lemma WriteBegins(p: Port, s: Slave, mem: seq<Octet>, q: Signals)
    requires PortOk(p) && Quiet(s) && Selected(q) && q.we
    ensures var (t, m) := SlaveEdge(p, s, mem, q);
      WordWritten(p, mem, FoldAddress(p, q.adr), q.dat, q.sel, m) && Answering(t, FoldAddress(p, q.adr), 0, true)
  {
    hide ReadWord, FoldAddress, ByteOf;
  }

  /** An idle slave that is not selected keeps its registers, its wires and the memory. */
  lemma IdleStays(p: Port, s: Slave, mem: seq<Octet>, q: Signals)
    requires Quiet(s) && !(q.stb && q.cyc)
    ensures SlaveEdge(p, s, mem, q) == (s, mem)
  {
  }

  /** While the strobe stays up a read does nothing more, and a write that has begun is not repeated. */
  lemma HeldIsIdle(p: Port, s: Slave, mem: seq<Octet>, q: Signals, a: nat, word: Data, wrote: bool)
    requires Answering(s, a, word, wrote) && Selected(q) && (q.we ==> wrote)
    ensures var (t, m) := SlaveEdge(p, s, mem, q); m == mem && Answering(t, a, word, q.we)
  {
    hide ReadWord, FoldAddress;
  }

  /** Write enable rising under the strobe writes the selected bytes where the transfer began, whatever the address is now. */
  lemma WriteRises(p: Port, s: Slave, mem: seq<Octet>, q: Signals, a: nat, word: Data)
    requires PortOk(p) && Answering(s, a, word, false) && Selected(q) && q.we
    ensures var (t, m) := SlaveEdge(p, s, mem, q);
      WordWritten(p, mem, a, q.dat, q.sel, m) && Answering(t, a, word, true)
  {
    hide ReadWord, FoldAddress, ByteOf;
  }

  lemma StrobeDrops(p: Port, s: Slave, mem: seq<Octet>, q: Signals, a: nat, word: Data, wrote: bool)
    requires Answering(s, a, word, wrote) && !(q.stb && q.cyc)
    ensures var (t, m) := SlaveEdge(p, s, mem, q); m == mem && Quiet(t) && !t.ack && t.dat == 0
  {
    hide ReadWord, FoldAddress;
  }

  lemma RunNext(p: Port, s: Slave, mem: seq<Octet>, script: seq<Signals>, q: Signals)
    ensures var (t, m) := SlaveRun(p, s, mem, script); SlaveRun(p, s, mem, script + [q]) == SlaveEdge(p, t, m, q)
  {
    hide SlaveEdge;
    assert (script + [q])[..|script|] == script;
  }

  lemma {:induction false} HeldRun(p: Port, s: Slave, mem: seq<Octet>, first: Signals, held: seq<Signals>)
    requires Quiet(s) && Selected(first) && !first.we && forall q :: q in held ==> Selected(q) && !q.we
    ensures var a := FoldAddress(p, first.adr);
      var (t, m) := SlaveRun(p, s, mem, [first] + held);
      m == mem && Answering(t, a, ReadWord(p, mem, a), false)
  {
    hide SlaveEdge, ReadWord, FoldAddress, Answering, SlaveRun;
    if held == [] {
      assert [] + [first] == [first] + held;
      RunNext(p, s, mem, [], first);
      NoEdges(p, s, mem);
      ReadBegins(p, s, mem, first);
    } else {
      var some, last := held[..|held| - 1], held[|held| - 1];
      assert last in held && forall q :: q in some ==> q in held;
      HeldRun(p, s, mem, first, some);
      assert [first] + held == ([first] + some) + [last];
      RunNext(p, s, mem, [first] + some, last);
      var (t, m) := SlaveRun(p, s, mem, [first] + some);
      HeldIsIdle(p, t, m, last, FoldAddress(p, first.adr), ReadWord(p, mem, FoldAddress(p, first.adr)), false);
    }
  }

  lemma NoEdges(p: Port, s: Slave, mem: seq<Octet>)
    ensures SlaveRun(p, s, mem, []) == (s, mem)
  {
  }

  /** Main result: a transfer that begins with a read and raises write enable under the same strobe, however much later,
      answers the word read and writes the selected bytes to the word the transfer began with. */
  lemma ReadThenWriteUnderStrobe(p: Port, s: Slave, mem: seq<Octet>, first: Signals, held: seq<Signals>, write: Signals)
    requires PortOk(p) && Quiet(s) && Selected(first) && !first.we && Selected(write) && write.we
    requires forall q :: q in held ==> Selected(q) && !q.we
    ensures var a := FoldAddress(p, first.adr);
      var (t, m) := SlaveRun(p, s, mem, [first] + held + [write]);
      WordWritten(p, mem, a, write.dat, write.sel, m) && Answering(t, a, ReadWord(p, mem, a), true)
  {
    hide SlaveEdge, ReadWord, FoldAddress, Answering, SlaveRun, WordWritten;
    HeldRun(p, s, mem, first, held);
    var (t, m) := SlaveRun(p, s, mem, [first] + held);
    RunNext(p, s, mem, [first] + held, write);
    WriteRises(p, t, m, write, FoldAddress(p, first.adr), ReadWord(p, mem, FoldAddress(p, first.adr)));
  }
}
