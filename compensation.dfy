/**
 * The forced-compensation sequence (`xensiv_pas_gas_base_perform_forced_compensation`,
 * src/xensiv_pas_gas.c): bring the sensor to idle, write the compensation rate, the
 * reference value and continuous mode with forced compensation, poll MEAS_CFG until a
 * read succeeds and shows that the compensation has finished, then write idle.
 *
 * The poll loop of the source has no bound: while every read fails it never ends. The
 * model stops polling only when the bus has no replies left (every further read then
 * fails, see `Driver.ExhaustedReadFails`) and reports that as `PollsForever`.
 */
module Compensation {
  import opened Regs
  import opened Api
  import opened Platform
  import opened Driver

  /** How a compensation routine ends: it returns a result, or it polls forever. */
  datatype Completion = Returns(res: Res) | PollsForever

  /** The first two accesses once MEAS_CFG has been read as `c`: the read, then the
      idle write, which the compensation makes whatever the current mode. */
  function FcsIdlePlan(c: Byte): (plan: seq<Step>)
  {
    [Read(MEAS_CFG, [0]), Write(MEAS_CFG, [WithOpMode(c, OP_MODE_IDLE)])]
  }

  /** The next three: the rate high byte first, the reference high byte first, and
      continuous mode with forced compensation, keeping the other bits of `c`. */
  function ArmPlan(c: Byte, rate: Word, gasRef: Word): (plan: seq<Step>)
  {
    [Write(MEAS_RATE_H, Split(rate)), Write(CALIB_REF_H, Split(gasRef)),
     Write(MEAS_CFG, [WithBoc(WithOpMode(c, OP_MODE_CONTINUOUS), BOC_CFG_FORCED)])]
  }

  /** The five accesses that start a compensation. */
  function SetupPlan(c: Byte, rate: Word, gasRef: Word): (plan: seq<Step>)
  {
    FcsIdlePlan(c) + ArmPlan(c, rate, gasRef)
  }

  /** The set-up made all five accesses and each succeeded. */
  predicate Armed(setup: seq<Op>)
  {
    |setup| == 5 && Succeeded(setup[4])
  }

  /** `op` is a poll: a one-byte read of MEAS_CFG into the configuration local. */
  predicate IsPoll(op: Op)
  {
    op.Get? && |op.prior| == 1 && Reads(op, MEAS_CFG, op.prior)
  }

  /** The polls all read into the same local: the first starts from `first`, the
      configuration last written, and each later one from what the one before left. */
  ghost predicate PollsChain(polls: seq<Op>, first: seq<Byte>)
  {
    |polls| >= 1 && forall k :: 0 <= k < |polls| ==> polls[k].Get? && polls[k].prior == PollStart(polls, first, k)
  }

  /** The buffer poll `k` starts from: `first` for the first poll, otherwise what the
      poll before it left. */
  function PollStart(polls: seq<Op>, first: seq<Byte>, k: nat): seq<Byte>
    requires k < |polls|
  {
    if k == 0 then first else if polls[k - 1].Get? then polls[k - 1].data else []
  }

  /** After the poll `op` the loop goes on: the read failed or the compensation is still
      running. */
  predicate KeepsPolling(op: Op)
    requires IsPoll(op)
  {
    op.res != Ok || BocOf(op.data[0]) == BOC_CFG_FORCED
  }

  /** Every entry of `polls` is a poll after which the loop goes on. */
  ghost predicate Polling(polls: seq<Op>)
  {
    forall k :: 0 <= k < |polls| ==> IsPoll(polls[k]) && KeepsPolling(polls[k])
  }

  /** `polls` is a complete run of the poll loop: at least one poll, every poll but the
      last lets the loop go on, and the last ends it. */
  ghost predicate PolledUntilDone(polls: seq<Op>)
  {
    |polls| >= 1 && IsPoll(polls[|polls| - 1]) && !KeepsPolling(polls[|polls| - 1]) &&
    forall k :: 0 <= k < |polls| - 1 ==> IsPoll(polls[k]) && KeepsPolling(polls[k])
  }

  /** A whole compensation run at `rate` with reference `gasRef`, as the set-up, the
      polls and the final write: the set-up follows its plan and stops at the first
      failure, whose result is returned; after a complete set-up the loop polls, starting
      from the configuration last written, until it sees the compensation finished and
      then writes idle over the last polled value, returning that write's result, or it
      polls forever. */
  ghost predicate FcsTrace(setup: seq<Op>, polls: seq<Op>, tail: seq<Op>, rate: Word, gasRef: Word, done: Completion)
  {
    |setup| >= 1 && Reads(setup[0], MEAS_CFG, [0]) && Follows(setup, SetupPlan(setup[0].data[0], rate, gasRef)) &&
    if !Armed(setup) then polls == [] && tail == [] && done == Returns(setup[|setup| - 1].res)
    else if done == PollsForever then PollsChain(polls, setup[4].data) && Polling(polls) && tail == []
    else
      PolledUntilDone(polls) && PollsChain(polls, setup[4].data) &&
      tail == [Set(MEAS_CFG, [WithOpMode(polls[|polls| - 1].data[0], OP_MODE_IDLE)], done.res)]
  }

  /** The compensation sequence at measurement rate `rate`, shared by the common driver
      (with the variant's `fcsMeasRate`) and the legacy R290 build (with rate 3). The
      rate write goes through `set_measurement_rate`, which demands a rate the variant
      accepts. */
  method ForcedCompensation(dev: Sensor, rate: Word, gasRef: Word)
    returns (done: Completion, ghost setup: seq<Op>, ghost polls: seq<Op>, ghost tail: seq<Op>)
    requires dev.Valid() && dev.Accepts(rate)
    modifies dev.bus, dev`ops, dev`wires
    ensures dev.Valid() && dev.ops == old(dev.ops) + setup + polls + tail
    ensures FcsTrace(setup, polls, tail, rate, gasRef, done)
    ensures done == PollsForever ==> dev.bus.used >= |dev.bus.script|
  {
    var res, cfg;
    res, cfg, setup := Setup(dev, rate, gasRef);
    polls, tail := [], [];
    if res != Ok {
      done := Returns(res);
      return;
    }
    var stalled;
    ghost var armed := cfg;
    res, cfg, stalled, polls := Poll(dev, cfg);
    assert PollOutcome(polls, armed, cfg, stalled);
    if stalled {
      done := PollsForever;
      return;
    }
    cfg := WithOpMode(cfg, OP_MODE_IDLE);
    res := dev.SetMeasurementConfig(cfg);
    tail := [Set(MEAS_CFG, [cfg], res)];
    done := Returns(res);
  }

  /** `xensiv_pas_gas_base_perform_forced_compensation`: the sequence at the
      compensation rate the variant bound at initialisation. */
  method BaseForcedCompensation(dev: Sensor, gasRef: Word)
    returns (done: Completion, ghost setup: seq<Op>, ghost polls: seq<Op>, ghost tail: seq<Op>)
    requires dev.Valid() && dev.Accepts(dev.fcsMeasRate)
    modifies dev.bus, dev`ops, dev`wires
    ensures dev.Valid() && dev.ops == old(dev.ops) + setup + polls + tail
    ensures FcsTrace(setup, polls, tail, dev.fcsMeasRate, gasRef, done)
    ensures done == PollsForever ==> dev.bus.used >= |dev.bus.script|
  {
    done, setup, polls, tail := ForcedCompensation(dev, dev.fcsMeasRate, gasRef);
  }

  /** The five set-up accesses, stopping at the first failure. `cfg` is the
      configuration as last written. */
  method Setup(dev: Sensor, rate: Word, gasRef: Word) returns (res: Res, cfg: Byte, ghost setup: seq<Op>)
    requires dev.Valid() && dev.Accepts(rate)
    modifies dev.bus, dev`ops, dev`wires
    ensures dev.Valid() && dev.ops == old(dev.ops) + setup && SetupLog(setup, rate, gasRef, res)
    ensures res == Ok ==> setup[4].data == [cfg]
  {
    res, cfg, setup := GoIdle(dev);
    if res != Ok {
      SetupStop(setup, rate, gasRef, res, cfg);
      return;
    }
    ghost var idle, more := cfg, [];
    res, cfg, more := Arm(dev, cfg, rate, gasRef);
    SetupJoin(setup, idle, more, rate, gasRef, res, cfg);
    AppendAssoc(old(dev.ops), setup, more);
    setup := setup + more;
  }

  /** The set-up so far carried out its plan, stopping at the first failure, whose
      result `res` is; it is armed exactly when `res` is `Ok`. */
  ghost predicate SetupLog(setup: seq<Op>, rate: Word, gasRef: Word, res: Res)
  {
    |setup| >= 1 && Reads(setup[0], MEAS_CFG, [0]) && Follows(setup, SetupPlan(setup[0].data[0], rate, gasRef)) &&
    !setup[|setup| - 1].Wait? && res == setup[|setup| - 1].res && (Armed(setup) <==> res == Ok)
  }

  /** Read MEAS_CFG into an uninitialised local (taken as 0) and, if that succeeded,
      write it back idle. */
  method GoIdle(dev: Sensor) returns (res: Res, cfg: Byte, ghost log: seq<Op>)
    requires dev.Valid()
    modifies dev.bus, dev`ops, dev`wires
    ensures dev.Valid() && dev.ops == old(dev.ops) + log && IdleLog(log, res, cfg)
  {
    res, cfg := dev.GetMeasurementConfig(0);
    log := [Get(MEAS_CFG, 1, [0], [cfg], res)];
    if res == Ok {
      cfg := WithOpMode(cfg, OP_MODE_IDLE);
      res := dev.SetMeasurementConfig(cfg);
      AppendAssoc(old(dev.ops), log, [Set(MEAS_CFG, [cfg], res)]);
      log := log + [Set(MEAS_CFG, [cfg], res)];
    }
    IdleSteps(log, res, cfg);
  }

  /** The idle step carried out its plan for the byte read; on success both accesses
      were made and `cfg` is that byte with the mode set to idle. */
  ghost predicate IdleLog(log: seq<Op>, res: Res, cfg: Byte)
  {
    |log| >= 1 && Reads(log[0], MEAS_CFG, [0]) && Follows(log, FcsIdlePlan(log[0].data[0])) &&
    !log[|log| - 1].Wait? && res == log[|log| - 1].res &&
    (res == Ok ==> |log| == 2 && cfg == WithOpMode(log[0].data[0], OP_MODE_IDLE))
  }

  lemma IdleSteps(log: seq<Op>, res: Res, cfg: Byte)
    requires 1 <= |log| <= 2 && Reads(log[0], MEAS_CFG, [0])
    requires |log| == 1 ==> log[0].res == res && res != Ok
    requires |log| == 2 ==>
      log[0].res == Ok && cfg == WithOpMode(log[0].data[0], OP_MODE_IDLE) && log[1] == Set(MEAS_CFG, [cfg], res)
    ensures IdleLog(log, res, cfg)
  {
  }

  /** From the idle configuration `cfg`: the rate, the reference, then continuous mode
      with forced compensation, stopping at the first failure. */
  method Arm(dev: Sensor, cfg: Byte, rate: Word, gasRef: Word) returns (res: Res, armed: Byte, ghost log: seq<Op>)
    requires dev.Valid() && dev.Accepts(rate)
    modifies dev.bus, dev`ops, dev`wires
    ensures dev.Valid() && dev.ops == old(dev.ops) + log && ArmLog(log, cfg, rate, gasRef, res, armed)
  {
    armed := cfg;
    res := dev.SetMeasurementRate(rate);
    log := [Set(MEAS_RATE_H, Split(rate), res)];
    if res != Ok {
      ArmSteps(log, cfg, rate, gasRef, res, armed);
      return;
    }
    res := dev.SetOffsetCompensation(gasRef);
    AppendAssoc(old(dev.ops), log, [Set(CALIB_REF_H, Split(gasRef), res)]);
    log := log + [Set(CALIB_REF_H, Split(gasRef), res)];
    if res != Ok {
      ArmSteps(log, cfg, rate, gasRef, res, armed);
      return;
    }
    armed := WithBoc(WithOpMode(cfg, OP_MODE_CONTINUOUS), BOC_CFG_FORCED);
    res := dev.SetMeasurementConfig(armed);
    AppendAssoc(old(dev.ops), log, [Set(MEAS_CFG, [armed], res)]);
    log := log + [Set(MEAS_CFG, [armed], res)];
    ArmSteps(log, cfg, rate, gasRef, res, armed);
  }

  /** The arming step carried out its plan from `cfg`; on success all three writes
      were made and `armed` is the configuration last written. */
  ghost predicate ArmLog(log: seq<Op>, cfg: Byte, rate: Word, gasRef: Word, res: Res, armed: Byte)
  {
    Follows(log, ArmPlan(cfg, rate, gasRef)) && !log[|log| - 1].Wait? && res == log[|log| - 1].res &&
    (res == Ok ==> |log| == 3 && armed == WithBoc(WithOpMode(cfg, OP_MODE_CONTINUOUS), BOC_CFG_FORCED))
  }

  lemma ArmSteps(log: seq<Op>, cfg: Byte, rate: Word, gasRef: Word, res: Res, armed: Byte)
    requires 1 <= |log| <= 3 && log[0].Set? && log[0] == Set(MEAS_RATE_H, Split(rate), log[0].res)
    requires |log| == 1 ==> res == log[0].res && res != Ok
    requires |log| >= 2 ==> log[0].res == Ok && log[1].Set? && log[1] == Set(CALIB_REF_H, Split(gasRef), log[1].res)
    requires |log| == 2 ==> res == log[1].res && res != Ok
    requires |log| == 3 ==>
      log[1].res == Ok && armed == WithBoc(WithOpMode(cfg, OP_MODE_CONTINUOUS), BOC_CFG_FORCED) &&
      log[2] == Set(MEAS_CFG, [armed], res)
    ensures ArmLog(log, cfg, rate, gasRef, res, armed)
  {
  }

  /** A failed idle step is a whole set-up. */
  lemma SetupStop(log: seq<Op>, rate: Word, gasRef: Word, res: Res, cfg: Byte)
    requires IdleLog(log, res, cfg) && res != Ok
    ensures SetupLog(log, rate, gasRef, res)
  {
    var c := log[0].data[0];
    FollowsStop(log, FcsIdlePlan(c), ArmPlan(c, rate, gasRef));
  }

  /** A completed idle step that left `idle`, followed by the arming step from `idle`,
      is a whole set-up. */
  lemma SetupJoin(log: seq<Op>, idle: Byte, more: seq<Op>, rate: Word, gasRef: Word, res: Res, armed: Byte)
    requires IdleLog(log, Ok, idle) && ArmLog(more, idle, rate, gasRef, res, armed)
    ensures SetupLog(log + more, rate, gasRef, res)
  {
    var c := log[0].data[0];
    WithOpModeTwice(c, OP_MODE_IDLE, OP_MODE_CONTINUOUS);
    FollowsThen(log, FcsIdlePlan(c), more, ArmPlan(c, rate, gasRef));
    var all := log + more;
    assert all[0] == log[0] && all[|all| - 1] == more[|more| - 1];
  }

  /** The do-while poll of MEAS_CFG into the local that holds `prior`, until a read
      succeeds and shows that the compensation has finished. `stalled` says the bus ran
      out of replies, after which the source would poll forever. */
  method Poll(dev: Sensor, prior: Byte) returns (res: Res, cfg: Byte, stalled: bool, ghost polls: seq<Op>)
    requires dev.Valid()
    modifies dev.bus, dev`ops, dev`wires
    ensures dev.Valid() && dev.ops == old(dev.ops) + polls
    ensures PollOutcome(polls, prior, cfg, stalled) && (stalled ==> dev.bus.used >= |dev.bus.script|)
  {
    res, cfg := dev.GetMeasurementConfig(prior);
    polls := [Get(MEAS_CFG, 1, [prior], [cfg], res)];
    stalled := false;
    while res != Ok || BocOf(cfg) == BOC_CFG_FORCED
      invariant dev.Valid() && dev.ops == old(dev.ops) + polls
      invariant PollsSoFar(polls, prior, cfg, res)
      decreases |dev.bus.script| - dev.bus.used
    {
      if dev.bus.used >= |dev.bus.script| {
        PollStalls(polls, prior, cfg, res);
        stalled := true;
        return;
      }
      ghost var before, last := polls, cfg;
      res, cfg := dev.GetMeasurementConfig(cfg);
      AppendAssoc(old(dev.ops), polls, [Get(MEAS_CFG, 1, [last], [cfg], res)]);
      polls := polls + [Get(MEAS_CFG, 1, [last], [cfg], res)];
      PollAgain(before, prior, Get(MEAS_CFG, 1, [last], [cfg], res));
    }
    PollEnds(polls, prior, cfg, res);
  }

  /** The polls so far, starting from `first`: every one but the last let the loop go
      on, and the last read `cfg` with result `res`. */
  ghost predicate PollsSoFar(polls: seq<Op>, first: Byte, cfg: Byte, res: Res)
  {
    PollsChain(polls, [first]) &&
    IsPoll(polls[|polls| - 1]) && polls[|polls| - 1].data == [cfg] && polls[|polls| - 1].res == res &&
    forall k :: 0 <= k < |polls| - 1 ==> IsPoll(polls[k]) && KeepsPolling(polls[k])
  }

  /** How the poll loop that started from `first` ended: stalled with every poll letting
      it go on, or done with `cfg` the byte of the last poll. */
  ghost predicate PollOutcome(polls: seq<Op>, first: Byte, cfg: Byte, stalled: bool)
  {
    PollsChain(polls, [first]) &&
    (stalled ==> Polling(polls)) &&
    (!stalled ==> PolledUntilDone(polls) && cfg == polls[|polls| - 1].data[0])
  }

  /** A poll from what the last one left, after one that let the loop go on, extends the
      polls so far. */
  lemma PollAgain(polls: seq<Op>, first: Byte, op: Op)
    requires |polls| >= 1 && IsPoll(polls[|polls| - 1])
    requires PollsSoFar(polls, first, polls[|polls| - 1].data[0], polls[|polls| - 1].res)
    requires KeepsPolling(polls[|polls| - 1]) && IsPoll(op) && op.prior == polls[|polls| - 1].data
    ensures PollsSoFar(polls + [op], first, op.data[0], op.res)
  {
    var all := polls + [op];
    forall k | 0 <= k < |all| - 1
      ensures IsPoll(all[k]) && KeepsPolling(all[k])
    {
      assert all[k] == polls[k];
    }
    forall k | 0 <= k < |all|
      ensures all[k].Get? && all[k].prior == PollStart(all, [first], k)
    {
      if k < |polls| {
        assert all[k] == polls[k] && PollStart(all, [first], k) == PollStart(polls, [first], k);
      }
    }
  }

  /** Stopping while the loop would go on: every poll let it go on. */
  lemma PollStalls(polls: seq<Op>, first: Byte, cfg: Byte, res: Res)
    requires PollsSoFar(polls, first, cfg, res) && (res != Ok || BocOf(cfg) == BOC_CFG_FORCED)
    ensures PollOutcome(polls, first, cfg, true)
  {
  }

  /** Leaving the loop: the last poll ended it. */
  lemma PollEnds(polls: seq<Op>, first: Byte, cfg: Byte, res: Res)
    requires PollsSoFar(polls, first, cfg, res) && !(res != Ok || BocOf(cfg) == BOC_CFG_FORCED)
    ensures PollOutcome(polls, first, cfg, false)
  {
  }

  /** A compensation that returns `Ok` made the five set-up accesses in order, each
      successfully (idle, the rate, the reference, continuous mode with forced
      compensation), polled at least once, ended on a successful poll that shows the
      compensation finished, and last wrote that polled value back with only the mode
      changed to idle. */
  lemma FcsOk(setup: seq<Op>, polls: seq<Op>, tail: seq<Op>, rate: Word, gasRef: Word, done: Completion)
    requires FcsTrace(setup, polls, tail, rate, gasRef, done) && done == Returns(Ok)
    ensures Armed(setup) && forall k :: 0 <= k < 5 ==> Succeeded(setup[k])
    ensures var c := setup[0].data[0];
      Writes(setup[1], MEAS_CFG, [WithOpMode(c, OP_MODE_IDLE)]) &&
      Writes(setup[2], MEAS_RATE_H, Split(rate)) && Writes(setup[3], CALIB_REF_H, Split(gasRef)) &&
      Writes(setup[4], MEAS_CFG, [WithBoc(WithOpMode(c, OP_MODE_CONTINUOUS), BOC_CFG_FORCED)]) &&
      |polls| >= 1 && polls[0].prior == [WithBoc(WithOpMode(c, OP_MODE_CONTINUOUS), BOC_CFG_FORCED)]
    ensures polls[|polls| - 1].res == Ok
    ensures var v := polls[|polls| - 1].data[0];
      BocOf(v) != BOC_CFG_FORCED && tail == [Set(MEAS_CFG, [WithOpMode(v, OP_MODE_IDLE)], Ok)] &&
      OpModeOf(WithOpMode(v, OP_MODE_IDLE)) == OP_MODE_IDLE &&
      BocOf(WithOpMode(v, OP_MODE_IDLE)) == BocOf(v) &&
      WithOpMode(v, OP_MODE_IDLE) & !MEAS_CFG_OP_MODE_MSK == v & !MEAS_CFG_OP_MODE_MSK
  {
    var plan := SetupPlan(setup[0].data[0], rate, gasRef);
    assert Does(setup[1], plan[1]) && Does(setup[2], plan[2]) && Does(setup[3], plan[3]) && Does(setup[4], plan[4]);
  }

  /** A set-up step that fails ends the routine: its error is returned and no further
      access is made. */
  lemma FcsAbort(setup: seq<Op>, polls: seq<Op>, tail: seq<Op>, rate: Word, gasRef: Word, done: Completion)
    requires FcsTrace(setup, polls, tail, rate, gasRef, done) && !Armed(setup)
    ensures polls == [] && tail == [] && |setup| <= 5
    ensures done.Returns? && done.res != Ok && done.res == setup[|setup| - 1].res
    ensures forall k :: 0 <= k < |setup| - 1 ==> Succeeded(setup[k])
  {
    var plan := SetupPlan(setup[0].data[0], rate, gasRef);
    assert Does(setup[|setup| - 1], plan[|setup| - 1]);
  }

  /** A failed poll never ends the loop: the routine either polls again or polls
      forever. */
  lemma FcsPollErrorContinues(setup: seq<Op>, polls: seq<Op>, tail: seq<Op>, rate: Word, gasRef: Word, done: Completion, k: nat)
    requires FcsTrace(setup, polls, tail, rate, gasRef, done) && k < |polls| && polls[k].res != Ok
    ensures Armed(setup) && (done == PollsForever || k < |polls| - 1)
  {
  }

  /** Whatever way the routine returns, its result is that of its last access. */
  lemma FcsResultIsLast(setup: seq<Op>, polls: seq<Op>, tail: seq<Op>, rate: Word, gasRef: Word, done: Completion)
    requires FcsTrace(setup, polls, tail, rate, gasRef, done) && done.Returns?
    ensures var log := setup + polls + tail; done.res == log[|log| - 1].res
  {
    var log := setup + polls + tail;
    if Armed(setup) {
      assert log[|log| - 1] == tail[0];
    } else {
      assert log[|log| - 1] == setup[|setup| - 1];
    }
  }

  /** Polling forever happens only after a complete set-up, with no final write, and
      every poll lets the loop go on. */
  lemma FcsForever(setup: seq<Op>, polls: seq<Op>, tail: seq<Op>, rate: Word, gasRef: Word, done: Completion)
    requires FcsTrace(setup, polls, tail, rate, gasRef, done) && done == PollsForever
    ensures Armed(setup) && tail == []
    ensures forall k :: 0 <= k < |polls| ==> IsPoll(polls[k]) && (polls[k].res != Ok || BocOf(polls[k].data[0]) == BOC_CFG_FORCED)
  {
  }
}
