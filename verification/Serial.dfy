/** The 8N1 transmitter and receiver, one clock edge at a time. */
module Serial {

  /** Line bytes are held in 32-bit registers. */
  type Byte = b: bv32 | b <= 0xFF

  /** Transmitter registers. */
  datatype Tx = Tx(busy: bool, ch: Byte, bit: nat, cnt: nat)

  /** Receiver registers with the counters it reports through. */
  datatype Rx = Rx(active: bool, confirm: bool, bit: nat, prev: bool, cnt: nat, shift: bv32, frames: nat, errors: nat, last: Byte)

  const TX_RESET := Tx(false, 0, 0, 0)
  const RX_RESET := Rx(false, false, 0, true, 0, 0, 0, 0, 0)

  predicate BitAt(ch: bv32, i: nat)
    requires i < 32
  {
    (ch >> i) & 1 == 1
  }

  /** The transmitter's level: start bit, eight data bits from the lowest, stop bit. */
  predicate FrameLevel(ch: Byte, bit: nat) {
    if bit == 0 then false else if bit <= 8 then BitAt(ch, bit - 1) else true
  }

  function Load(tx: Tx, queue: seq<Byte>): (Tx, seq<Byte>) {
    if !tx.busy && queue != [] then (Tx(true, queue[0], 0, 0), queue[1..]) else (tx, queue)
  }

  function Advance(n: nat, tx: Tx): Tx {
    if !tx.busy then tx
    else if tx.cnt + 1 < n then tx.(cnt := tx.cnt + 1)
    else tx.(cnt := 0, bit := tx.bit + 1, busy := tx.bit + 1 <= 9)
  }

  predicate TxLevel(tx: Tx) {
    tx.busy ==> FrameLevel(tx.ch, tx.bit)
  }

  /** One transmitter edge: maybe start the next byte, drive the level, count. */
  function TxEdge(n: nat, tx: Tx, queue: seq<Byte>): (r: (Tx, seq<Byte>, bool)) {
    var (t, q) := Load(tx, queue);
    (Advance(n, t), q, TxLevel(t))
  }

  function SampleBit(shift: bv32, i: nat, level: bool): bv32
    requires i < 32
  {
    shift | ((if level then 1 else 0) << i)
  }

  /** One receiver edge; the flag says that a byte was reported at this edge. */
  function RxEdge(n: nat, rx: Rx, level: bool): (r: (Rx, bool)) {
    if !rx.active then
      (if rx.prev && !level then rx.(active := true, confirm := true, cnt := 0, bit := 0, shift := 0, prev := level)
       else rx.(prev := level), false)
    else if rx.cnt + 1 < (if rx.confirm then n / 2 else n) then
      (rx.(cnt := rx.cnt + 1, prev := level), false)
    else
      var (r, valid) := Sample(rx.(cnt := 0), level);
      (r.(prev := level), valid)
  }

  /** The receiver's action at a sampling point: confirm the start, take a data bit, or check the stop bit. */
  function Sample(rx: Rx, level: bool): (r: (Rx, bool)) {
    if rx.confirm then (rx.(confirm := false, active := !level), false)
    else if rx.bit < 8 then (rx.(shift := SampleBit(rx.shift, rx.bit, level), bit := rx.bit + 1), false)
    else if level then (rx.(active := false, last := rx.shift & 0xFF, frames := rx.frames + 1), true)
    else (rx.(active := false, errors := rx.errors + 1), false)
  }

  /** The low i bits of a byte. */
  function LowBits(ch: bv32, i: nat): bv32
    requires i <= 8
  {
    ch & ((1 << i) - 1)
  }

  /** Sampling the next bit in order rebuilds one more low bit of the byte. */
  lemma SampleExtends(ch: Byte, i: nat)
    requires i < 8
    ensures SampleBit(LowBits(ch, i), i, BitAt(ch, i)) == LowBits(ch, i + 1)
  {
    if i == 0 { BitCase0(ch); }
    else if i == 1 { BitCase1(ch); }
    else if i == 2 { BitCase2(ch); }
    else if i == 3 { BitCase3(ch); }
    else if i == 4 { BitCase4(ch); }
    else if i == 5 { BitCase5(ch); }
    else if i == 6 { BitCase6(ch); }
    else { BitCase7(ch); }
  }

  lemma BitCase0(ch: bv32) ensures SampleBit(LowBits(ch, 0), 0, BitAt(ch, 0)) == LowBits(ch, 1) {}
  lemma BitCase1(ch: bv32) ensures SampleBit(LowBits(ch, 1), 1, BitAt(ch, 1)) == LowBits(ch, 2) {}
  lemma BitCase2(ch: bv32) ensures SampleBit(LowBits(ch, 2), 2, BitAt(ch, 2)) == LowBits(ch, 3) {}
  lemma BitCase3(ch: bv32) ensures SampleBit(LowBits(ch, 3), 3, BitAt(ch, 3)) == LowBits(ch, 4) {}
  lemma BitCase4(ch: bv32) ensures SampleBit(LowBits(ch, 4), 4, BitAt(ch, 4)) == LowBits(ch, 5) {}
  lemma BitCase5(ch: bv32) ensures SampleBit(LowBits(ch, 5), 5, BitAt(ch, 5)) == LowBits(ch, 6) {}
  lemma BitCase6(ch: bv32) ensures SampleBit(LowBits(ch, 6), 6, BitAt(ch, 6)) == LowBits(ch, 7) {}
  lemma BitCase7(ch: bv32) ensures SampleBit(LowBits(ch, 7), 7, BitAt(ch, 7)) == LowBits(ch, 8) {}

  lemma AllBits(ch: Byte)
    ensures LowBits(ch, 8) & 0xFF == ch
  {
  }

  lemma NoBits(ch: Byte)
    ensures LowBits(ch, 0) == 0
  {
  }
}
