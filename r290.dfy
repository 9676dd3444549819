/**
 * The legacy stand-alone R290 build (xensiv_pas_gas_r290.c): its
 * `xensiv_pas_gas_perform_forced_compensation` repeats the common forced-compensation
 * sequence statement for statement, with the compensation rate fixed at 3 s instead of
 * the handle's `fcs_meas_rate_s`. It is modelled as that sequence at rate 3.
 */
module R290 {
  import opened Regs
  import opened Api
  import opened Driver
  import opened Compensation

  /** Measurement rate used during forced compensation, in seconds. */
  const FCS_MEAS_RATE_S: Word := 3

  /** `xensiv_pas_gas_perform_forced_compensation` of the legacy build. */
  method PerformForcedCompensation(dev: Sensor, gasRef: Word)
    returns (done: Completion, ghost setup: seq<Op>, ghost polls: seq<Op>, ghost tail: seq<Op>)
    requires dev.Valid() && dev.Accepts(FCS_MEAS_RATE_S)
    modifies dev.bus, dev`ops, dev`wires
    ensures dev.Valid() && dev.ops == old(dev.ops) + setup + polls + tail
    ensures FcsTrace(setup, polls, tail, FCS_MEAS_RATE_S, gasRef, done)
    ensures done == PollsForever ==> dev.bus.used >= |dev.bus.script|
  {
    done, setup, polls, tail := ForcedCompensation(dev, FCS_MEAS_RATE_S, gasRef);
  }

  /** The rate written by the legacy routine is 3 s, high byte first. */
  lemma RateWritten(setup: seq<Op>, polls: seq<Op>, tail: seq<Op>, gasRef: Word, done: Completion)
    requires FcsTrace(setup, polls, tail, FCS_MEAS_RATE_S, gasRef, done) && |setup| >= 3
    ensures Writes(setup[2], MEAS_RATE_H, [0x00, 0x03])
  {
    var plan := SetupPlan(setup[0].data[0], FCS_MEAS_RATE_S, gasRef);
    assert Does(setup[2], plan[2]);
  }
}
