/** Components, pins and nets as the scheduler and the structural check see them. */
module Netlist {

  /** A net slot is sixteen bytes; zero is also what an undriven or high-impedance net holds. */
  const WORD_LIMIT: int := 0x1_0000_0000_0000_0000_0000_0000_0000_0000

  type Word = w: int | 0 <= w < WORD_LIMIT

  /** What one output presents: a value, and whether the driver is enabled. */
  datatype Drive = Drive(value: Word, oe: bool)

  /** An output pin; net is -1 while the pin is unconnected. */
  datatype OutPin = OutPin(net: int, tri: bool, sequential: bool)

  /** A component with its pins. For a combinational component `logic` is the per-tick function from
      input words to the drive of each output; for a clock source it is the function run once in phase 1.
      deps lists, per output, the inputs the static loop check counts for a plain combinational output. */
  datatype Component = Component(
    inputs: seq<int>,
    outputs: seq<OutPin>,
    comb: bool,
    clock: bool,
    logic: (seq<Word>, nat) -> Drive,
    deps: nat -> seq<nat>)

  predicate Drives(c: Component, net: int) {
    exists o :: 0 <= o < |c.outputs| && c.outputs[o].net == net
  }

  predicate Reads(c: Component, net: int) {
    net >= 0 && net in c.inputs
  }
}
