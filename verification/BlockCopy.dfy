/** The DMA controller and the Wishbone memory slave, one clock edge at a time, and the copy they perform together. */
module BlockCopy {
  import opened Words

  const U32: nat := 0x1_0000_0000

  /** Addresses, lengths and register values; data words and their bytes. */
  type Word = w: nat | w < U32
  type Data = bv32
  type Octet = bv8

  // ---- The memory slave ----

  /** Port width in bytes and the number of address lines. */
  datatype Port = Port(bytes: nat, lines: nat) {
    /** Capacity in bytes. */
    function Depth(): nat {
      Power2(lines)
    }
  }

  predicate PortOk(p: Port) {
    (p.bytes == 1 || p.bytes == 2 || p.bytes == 4) && 1 <= p.lines <= 30
  }

  /** Master signals as the slave samples them. */
  datatype Request = Request(adr: Word, dat: Data, we: bool, sel: seq<bool>, stb: bool, cyc: bool)

  /** Handshake registers and the two output wires. */
  datatype Slave = Slave(prevStb: bool, prevWe: bool, ackPending: bool, latchedAddr: nat, latchedOut: Data, dat: Data, ack: bool)

  const SLAVE_RESET := Slave(false, false, false, 0, 0, 0, false)

  /** The value with the bits below the port word cleared. */
  function AlignDown(v: nat, bytes: nat): (r: nat)
    ensures r <= v
  {
    if bytes == 4 then v - v % 4 else if bytes == 2 then v - v % 2 else v
  }

  /** The address folded to the capacity and to a port word. */
  function FoldAddress(p: Port, adr: nat): (a: nat)
    ensures a < p.Depth()
  {
    AlignDown(LowBits(adr, p.lines), p.bytes)
  }

  predicate InRange(p: Port, mem: seq<Octet>, a: nat) {
    PortOk(p) && a + p.bytes <= |mem|
  }

  /** Byte i of a data word. */
  function ByteOf(v: Data, i: nat): Octet
    requires i < 4
  {
    (if i == 0 then v & 0xFF else if i == 1 then (v >> 8) & 0xFF else if i == 2 then (v >> 16) & 0xFF else (v >> 24) & 0xFF) as Octet
  }

  function Join(b0: Octet, b1: Octet, b2: Octet, b3: Octet): Data {
    (b0 as Data) | ((b1 as Data) << 8) | ((b2 as Data) << 16) | ((b3 as Data) << 24)
  }

  /** The little-endian copy of the port word at a, zero outside the memory. */
  function ReadWord(p: Port, mem: seq<Octet>, a: nat): Data
  {
    if !InRange(p, mem, a) then 0
    else if p.bytes == 1 then Join(mem[a], 0, 0, 0)
    else if p.bytes == 2 then Join(mem[a], mem[a + 1], 0, 0)
    else Join(mem[a], mem[a + 1], mem[a + 2], mem[a + 3])
  }

  lemma JoinedBytes(b0: Octet, b1: Octet, b2: Octet, b3: Octet)
    ensures ByteOf(Join(b0, b1, b2, b3), 0) == b0 && ByteOf(Join(b0, b1, b2, b3), 1) == b1
    ensures ByteOf(Join(b0, b1, b2, b3), 2) == b2 && ByteOf(Join(b0, b1, b2, b3), 3) == b3
  {
  }

  /** Reading a word and cutting out byte i gives the byte that was read. */
  lemma ByteOfReadWord(p: Port, mem: seq<Octet>, a: nat, i: nat)
    requires InRange(p, mem, a) && i < p.bytes
    ensures ByteOf(ReadWord(p, mem, a), i) == mem[a + i]
  {
    if p.bytes == 4 {
      JoinedBytes(mem[a], mem[a + 1], mem[a + 2], mem[a + 3]);
    } else if p.bytes == 2 {
      JoinedBytes(mem[a], mem[a + 1], 0, 0);
    } else {
      JoinedBytes(mem[a], 0, 0, 0);
    }
  }

  /** Writes the selected bytes of the port word at a. */
  function WriteWord(p: Port, mem: seq<Octet>, a: nat, v: Data, sel: seq<bool>): (m: seq<Octet>)
    requires |sel| == 4
    ensures |m| == |mem|
  {
    if InRange(p, mem, a) then
      seq(|mem|, i requires 0 <= i < |mem| => if a <= i < a + p.bytes && sel[i - a] then ByteOf(v, i - a) else mem[i])
    else mem
  }

  /** One rising edge of the slave. An idle slave that stays unselected returns early and leaves its wires alone. */
  function SlaveEdge(p: Port, s: Slave, mem: seq<Octet>, q: Request): (r: (Slave, seq<Octet>))
    requires |q.sel| == 4
    ensures |r.1| == |mem|
  {
    var active := q.stb && q.cyc;
    if !active && !s.prevStb && !s.ackPending then (s, mem)
    else
      var rise := active && !s.prevStb;
      var weRise := active && q.we && !s.prevWe;
      var t := s.(prevStb := active, prevWe := active && q.we);
      var a := FoldAddress(p, q.adr);
      var (u, m) :=
        if rise && !q.we then (t.(latchedAddr := a, latchedOut := ReadWord(p, mem, a), ackPending := true), mem)
        else if rise then (t.(latchedAddr := a, latchedOut := 0, ackPending := true), WriteWord(p, mem, a, q.dat, q.sel))
        else if weRise then (t, WriteWord(p, mem, t.latchedAddr, q.dat, q.sel))
        else (t, mem);
      if u.ackPending && active then (u.(dat := u.latchedOut, ack := true), m)
      else (u.(ackPending := false, dat := 0, ack := false), m)
  }

  // ---- The controller ----

  datatype Stage = StIdle | StReadReq | StReadWait | StWriteReq | StWriteWait | StDone

  datatype Dma = Dma(src: Word, dst: Word, len: Word, remain: Word, rdVal: Data, latched: Word, adr: Word, dat: Data,
                     busy: bool, done: bool, we: bool, stb: bool, cyc: bool, st: Stage, prevStb: bool)

  const DMA_RESET := Dma(0, 0, 0, 0, 0, 0, 0, 0, false, false, false, false, false, StIdle, false)

  /** Configuration signals at an edge. */
  datatype Config = Config(adr: Word, dat: Word, we: bool, stb: bool, cyc: bool)

  function Add4(w: Word): Word {
    (w + 4) % U32
  }

  /** Register access at the rise of the configuration strobe. */
  function Access(d: Dma, c: Config): (Dma, Word) {
    AccessAt(d, c.adr % 32, c.we, c.dat, c.dat % 2 == 1, c.dat - c.dat % 4)
  }

  /** Access to the register at offset r; start and len are what the written value means for the control and the length. */
  function AccessAt(d: Dma, r: nat, we: bool, dat: Word, start: bool, len: Word): (Dma, Word) {
    if r == 0x00 then
      if !we then (d, d.src) else if !d.busy then (d.(src := dat), 0) else (d, 0)
    else if r == 0x04 then
      if !we then (d, d.dst) else if !d.busy then (d.(dst := dat), 0) else (d, 0)
    else if r == 0x08 then
      if !we then (d, d.len) else if !d.busy then (d.(len := len), 0) else (d, 0)
    else if r == 0x0C then
      if we && start && !d.busy && d.len != 0
      then (d.(remain := d.len, busy := true, done := false, st := StReadReq), 0) else (d, 0)
    else if r == 0x10 then (d, (if d.busy then 1 else 0) + (if d.done then 2 else 0))
    else (d, 0)
  }

  /** The configuration half of an edge: the data and acknowledge presented to the configuring master. */
  function Configure(d: Dma, c: Config): (Dma, Word, bool) {
    var active := c.stb && c.cyc;
    var e := d.(prevStb := active);
    if active && !d.prevStb then
      var (f, dout) := Access(e, c);
      (f.(latched := dout), dout, true)
    else if active then (e, e.latched, true)
    else (e.(latched := 0), 0, false)
  }

  /** The copy half of an edge: one step of the read-then-write state machine. */
  function Advance(d: Dma, mdat: Data, mack: bool): Dma {
    match d.st
    case StIdle => d.(stb := false, cyc := false)
    case StDone => d.(stb := false, cyc := false)
    case StReadReq => d.(adr := d.src, we := false, stb := true, cyc := true, st := StReadWait)
    case StReadWait => if mack then d.(rdVal := mdat, stb := false, cyc := false, st := StWriteReq) else d
    case StWriteReq => d.(adr := d.dst, dat := d.rdVal, we := true, stb := true, cyc := true, st := StWriteWait)
    case StWriteWait =>
      if mack then WordDone(d) else d
  }

  /** The write was acknowledged: on to the next word, or the copy is done. */
  function WordDone(d: Dma): Dma {
    Conclude(d.(stb := false, cyc := false, src := Add4(d.src), dst := Add4(d.dst),
                remain := if d.remain >= 4 then d.remain - 4 else d.remain))
  }

  function Conclude(d: Dma): Dma {
    if d.remain == 0 then d.(busy := false, done := true, st := StDone) else d.(st := StReadReq)
  }

  function DmaEdge(d: Dma, c: Config, mdat: Data, mack: bool): (Dma, Word, bool) {
    var (e, dout, ack) := Configure(d, c);
    (Advance(e, mdat, mack), dout, ack)
  }

  function RequestOf(d: Dma): (q: Request)
    ensures |q.sel| == 4
  {
    Request(d.adr, d.dat, d.we, [true, true, true, true], d.stb, d.cyc)
  }

  // ---- The two on one bus ----

  datatype Bus = Bus(dma: Dma, slave: Slave, mem: seq<Octet>)

  /** One clock edge. dmaFirst says which of the two runs first; each sees what the other has written so far. */
  function Edge(p: Port, dmaFirst: bool, b: Bus, c: Config): (r: Bus)
    ensures |r.mem| == |b.mem|
  {
    if dmaFirst then
      var dma := DmaEdge(b.dma, c, b.slave.dat, b.slave.ack).0;
      var (slave, mem) := SlaveEdge(p, b.slave, b.mem, RequestOf(dma));
      Bus(dma, slave, mem)
    else
      var (slave, mem) := SlaveEdge(p, b.slave, b.mem, RequestOf(b.dma));
      Bus(DmaEdge(b.dma, c, slave.dat, slave.ack).0, slave, mem)
  }

  function Fold<S, C>(step: (S, C) -> S, s: S, script: seq<C>): S
    decreases |script|
  {
    if script == [] then s else Fold(step, step(s, script[0]), script[1..])
  }

  /** A run: one edge for every configuration input. */
  function Run(p: Port, dmaFirst: bool, b: Bus, script: seq<Config>): Bus {
    Fold((x: Bus, c: Config) => Edge(p, dmaFirst, x, c), b, script)
  }

  // ---- The copy ----

  function AddressAt(start: Word, k: nat): Word {
    (start + 4 * k) % U32
  }

  function CopyWord(p: Port, mem: seq<Octet>, src: Word, dst: Word): (m: seq<Octet>)
    ensures |m| == |mem|
  {
    WriteWord(p, mem, FoldAddress(p, dst), ReadWord(p, mem, FoldAddress(p, src)), [true, true, true, true])
  }

  /** The first k words copied in ascending order. */
  function CopyWords(p: Port, mem: seq<Octet>, src: Word, dst: Word, k: nat): (m: seq<Octet>)
    ensures |m| == |mem|
  {
    if k == 0 then mem
    else CopyWord(p, CopyWords(p, mem, src, dst, k - 1), AddressAt(src, k - 1), AddressAt(dst, k - 1))
  }
}
