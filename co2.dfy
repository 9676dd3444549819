/**
 * The CO2 variant (src/xensiv_pas_gas_co2.c): its initialisation binds a minimum
 * measurement rate of 5 s, a compensation rate of 10 s and its own forced-compensation
 * routine, which runs the common sequence and, when that returned `Ok`, saves the
 * compensation offset with a command to SENS_RST.
 */
module Co2 {
  import opened Regs
  import opened Api
  import opened Platform
  import opened Transport
  import opened Driver
  import opened Compensation

  /** Lowest measurement rate of the CO2 sensor, in seconds. */
  const CO2_MEAS_RATE_MIN: Word := 5
  /** Measurement rate used during forced compensation, in seconds. */
  const CO2_FCS_MEAS_RATE_S: Word := 10
  /** Command that stores the compensation offset in non-volatile memory. */
  const CMD_SAVE_FCS_CALIB_OFFSET: Byte := 0xCF

  /** `xensiv_pas_gas_co2_init`: bind the variant's rates and routine, then return what
      the common initialisation returns. */
  method Init(dev: Sensor, itf: Interface) returns (res: Res, ghost log: seq<Op>)
    requires dev.Valid()
    modifies dev.bus, dev`itf, dev`bound, dev`ops, dev`wires, dev`measRateMin, dev`fcsMeasRate, dev`forceComp
    ensures dev.Valid() && dev.itf == itf && dev.ops == old(dev.ops) + log && InitLog(log, res)
    ensures dev.fcsMeasRate == CO2_FCS_MEAS_RATE_S && dev.measRateMin == CO2_MEAS_RATE_MIN
    ensures dev.forceComp == Co2ForceComp
    ensures CO2_FCS_MEAS_RATE_S <= MEAS_RATE_MAX ==> dev.Accepts(dev.fcsMeasRate)
  {
    dev.fcsMeasRate := CO2_FCS_MEAS_RATE_S;
    dev.measRateMin := CO2_MEAS_RATE_MIN;
    dev.forceComp := Co2ForceComp;
    res, log := dev.BaseInit(itf);
  }

  /** What the CO2 routine adds after the common sequence ended as `base`: the save
      command, only when `base` returned `Ok`, and then its result is the routine's;
      otherwise nothing, and `base` stands. */
  ghost predicate SaveLog(base: Completion, save: seq<Op>, done: Completion)
  {
    if base == Returns(Ok) then
      |save| == 1 && Writes(save[0], SENS_RST, [CMD_SAVE_FCS_CALIB_OFFSET]) && done == Returns(save[0].res)
    else save == [] && done == base
  }

  /** `xensiv_pas_gas_co2_perform_forced_compensation`. */
  method ForcedCompensation(dev: Sensor, gasRef: Word)
    returns (done: Completion, ghost base: Completion, ghost setup: seq<Op>, ghost polls: seq<Op>,
             ghost tail: seq<Op>, ghost save: seq<Op>)
    requires dev.Valid() && dev.Accepts(dev.fcsMeasRate)
    modifies dev.bus, dev`ops, dev`wires
    ensures dev.Valid() && dev.ops == old(dev.ops) + setup + polls + tail + save
    ensures FcsTrace(setup, polls, tail, dev.fcsMeasRate, gasRef, base) && SaveLog(base, save, done)
    ensures done == PollsForever ==> dev.bus.used >= |dev.bus.script|
  {
    var first;
    first, setup, polls, tail := BaseForcedCompensation(dev, gasRef);
    base, done, save := first, first, [];
    if first == Returns(Ok) {
      var res := dev.Cmd(CMD_SAVE_FCS_CALIB_OFFSET);
      save := [Set(SENS_RST, [CMD_SAVE_FCS_CALIB_OFFSET], res)];
      done := Returns(res);
    }
  }

  /** The save command is sent exactly when the common sequence returned `Ok`; the
      routine returns `Ok` only when both it and the save command did. */
  lemma SaveOnlyAfterSuccess(base: Completion, save: seq<Op>, done: Completion)
    requires SaveLog(base, save, done)
    ensures |save| > 0 <==> base == Returns(Ok)
    ensures done == Returns(Ok) <==> base == Returns(Ok) && save[0].res == Ok
    ensures base != Returns(Ok) ==> done == base
  {
  }

  /** The save command is not the soft reset, so over UART its reply is checked: the UART
      write succeeds exactly when the request was sent and ACK came back. */
  lemma SaveCommandAcked(script: seq<Reply>, p: nat)
    ensures !IgnoresReply(SENS_RST, CMD_SAVE_FCS_CALIB_OFFSET)
    ensures UartWriteOutcome(SENS_RST, [CMD_SAVE_FCS_CALIB_OFFSET], script, p).res == Ok <==>
            At(script, p).status == 0 && At(script, p + 1).status == 0 && Acked(At(script, p + 1).rx)
  {
    UartWriteOk(SENS_RST, [CMD_SAVE_FCS_CALIB_OFFSET], script, p);
    assert Offset(SENS_RST, 0) == SENS_RST;
  }
}
