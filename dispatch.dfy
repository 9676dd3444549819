/**
 * `xensiv_pas_gas_perform_forced_compensation` of the common driver: it calls the
 * forced-compensation routine the variant bound into the handle at initialisation.
 */
module Dispatch {
  import opened Regs
  import opened Api
  import opened Driver
  import opened Compensation
  import Co2

  /** The bound routine runs: the common sequence at the handle's compensation rate, and
      for the CO2 variant the save command after it. */
  method PerformForcedCompensation(dev: Sensor, gasRef: Word)
    returns (done: Completion, ghost base: Completion, ghost setup: seq<Op>, ghost polls: seq<Op>,
             ghost tail: seq<Op>, ghost save: seq<Op>)
    requires dev.Valid() && dev.Accepts(dev.fcsMeasRate)
    modifies dev.bus, dev`ops, dev`wires
    ensures dev.Valid() && dev.ops == old(dev.ops) + setup + polls + tail + save
    ensures FcsTrace(setup, polls, tail, dev.fcsMeasRate, gasRef, base)
    ensures dev.forceComp == BaseForceComp ==> save == [] && done == base
    ensures dev.forceComp == Co2ForceComp ==> Co2.SaveLog(base, save, done)
    ensures done == PollsForever ==> dev.bus.used >= |dev.bus.script|
  {
    match dev.forceComp
    case BaseForceComp =>
      done, setup, polls, tail := BaseForcedCompensation(dev, gasRef);
      base, save := done, [];
    case Co2ForceComp =>
      done, base, setup, polls, tail, save := Co2.ForcedCompensation(dev, gasRef);
  }
}
