/**
 * The sensor handle and the register-level interface of the common driver core
 * (src/xensiv_pas_gas.c): the register façade `set_reg`/`get_reg`, the typed register
 * operations built on it, the start modes and the base initialisation.
 *
 * A `Sensor` is bound to one `Bus` and, once initialised, to one transport. Besides the
 * fields of the C handle it keeps a ghost log `ops` of the register accesses it made, in
 * order; the operations are specified by what they append to that log, and the façade
 * ties every entry to the wire events and replies of the transport it went through.
 */
module Driver {
  import opened Regs
  import opened Api
  import opened Platform
  import opened Transport

  /** Value written to and read back from SCRATCH_PAD to check communication. */
  const COMM_TEST_VAL: Byte := 0xA5
  /** Delay after every register access, in milliseconds. */
  const COMM_DELAY_MS: nat := 5
  /** Delay after the soft reset of the initialisation, in milliseconds. */
  const SOFT_RESET_DELAY_MS: nat := 2000

  /** One entry of a sensor's register-level log: a register write with the bytes
      written, a register read with the number of bytes asked for, the buffer it started
      from and the buffer as the read left it, or a platform delay outside the façade.
      Each access carries the result it returned. */
  datatype Op =
    | Set(reg: Byte, data: seq<Byte>, res: Res)
    | Get(reg: Byte, len: nat, prior: seq<Byte>, data: seq<Byte>, res: Res)
    | Wait(ms: nat)

  /** The forced-compensation routine a variant binds into the handle. */
  datatype ForceComp = BaseForceComp | Co2ForceComp

  /** `op` writes `data` to `reg`. */
  predicate Writes(op: Op, reg: Byte, data: seq<Byte>)
  {
    op.Set? && op.reg == reg && op.data == data
  }

  /** `op` reads `reg` into the buffer `prior`, asking for as many bytes as it holds. */
  predicate Reads(op: Op, reg: Byte, prior: seq<Byte>)
  {
    op.Get? && op.reg == reg && op.prior == prior && op.len == |prior| && |op.data| == |prior|
  }

  /** A register read through the transport `itf`. */
  function ReadThrough(itf: Interface, reg: Byte, prior: seq<Byte>, len: nat, script: seq<Reply>, p: nat): (o: ReadOutcome)
    requires len <= |prior|
    ensures |o.data| == |prior|
    ensures 1 <= len ==> 1 <= o.used
  {
    if itf == I2C then I2cReadOutcome(reg, prior, len, script, p)
    else
      UartUsesReplies(reg, prior, prior[..len], script, p);
      UartReadOutcome(reg, prior, len, script, p)
  }

  /** A register write through the transport `itf`. */
  function WriteThrough(itf: Interface, reg: Byte, data: seq<Byte>, script: seq<Reply>, p: nat): (o: WriteOutcome)
  {
    if itf == I2C then I2cWriteOutcome(reg, data, script, p) else UartWriteOutcome(reg, data, script, p)
  }

  /** Once the platform has no replies left, every read of at least one register fails,
      whichever transport it goes through. */
  lemma ExhaustedReadFails(itf: Interface, reg: Byte, prior: seq<Byte>, len: nat, script: seq<Reply>, p: nat)
    requires 1 <= len <= |prior| && |script| <= p
    ensures ReadThrough(itf, reg, prior, len, script, p).res == Plat(NO_REPLY)
  {
    if itf == UART {
      assert ReadPass(reg, script, p, 0).res == Plat(NO_REPLY);
      assert ReadsDone(reg, script, p, len) == 0;
    }
  }

  /** The result `xensiv_pas_gas_base_init` derives from a SENS_STS value: the faults
      in the order ICCER, ORVS, ORTMP, then a sensor that is not ready. */
  function StatusResult(sts: Byte): Res
  {
    if sts & SENS_STS_ICCER_MSK != 0 then IccErr
    else if sts & SENS_STS_ORVS_MSK != 0 then Orvs
    else if sts & SENS_STS_ORTMP_MSK != 0 then Ortmp
    else if sts & SENS_STS_SEN_RDY_MSK == 0 then ErrNotReady
    else Ok
  }

  /** The status check succeeds exactly when no fault is flagged and the sensor is ready,
      and each fault masks the ones after it. */
  lemma StatusPrecedence(sts: Byte)
    ensures var s := UnpackSensStatus(sts);
      (StatusResult(sts) == Ok <==> !s.iccer && !s.orvs && !s.ortmp && s.senRdy) &&
      (s.iccer ==> StatusResult(sts) == IccErr) &&
      (!s.iccer && s.orvs ==> StatusResult(sts) == Orvs) &&
      (!s.iccer && !s.orvs && s.ortmp ==> StatusResult(sts) == Ortmp) &&
      (!s.iccer && !s.orvs && !s.ortmp && !s.senRdy ==> StatusResult(sts) == ErrNotReady)
  {
  }

  /** What `xensiv_pas_gas_base_init` logs when it returns `res`: the scratch-pad write
      and the echo, read into the variable holding `COMM_TEST_VAL`; only when both
      succeed and the echo is `COMM_TEST_VAL`, the soft reset,
      the reset delay whatever the reset returned, and, after a successful reset, the
      status read into that same variable, whose contents decide the result. */
  ghost predicate InitLog(log: seq<Op>, res: Res)
  {
    |log| >= 1 && Writes(log[0], SCRATCH_PAD, [COMM_TEST_VAL]) &&
    if log[0].res != Ok then |log| == 1 && res == ErrComm
    else
      |log| >= 2 && Reads(log[1], SCRATCH_PAD, [COMM_TEST_VAL]) &&
      if log[1].res != Ok || log[1].data[0] != COMM_TEST_VAL then |log| == 2 && res == ErrComm
      else
        |log| >= 4 && Writes(log[2], SENS_RST, [CMD_SOFT_RESET]) &&
        log[3] == Wait(SOFT_RESET_DELAY_MS) &&
        if log[2].res != Ok then |log| == 4 && res == log[2].res
        else
          |log| == 5 && Reads(log[4], SENS_STS, [COMM_TEST_VAL]) &&
          res == if log[4].res != Ok then log[4].res else StatusResult(log[4].data[0])
  }

  /** A failed communication check answers `ErrComm` and never resets the sensor. */
  lemma InitEchoFailure(log: seq<Op>, res: Res)
    requires InitLog(log, res)
    requires log[0].res != Ok || log[1].res != Ok || log[1].data[0] != COMM_TEST_VAL
    ensures res == ErrComm && |log| <= 2
    ensures forall k :: 0 <= k < |log| ==> !(log[k].Set? && log[k].reg == SENS_RST)
  {
  }

  /** Initialisation succeeds exactly when all five steps succeed, the echo matches and
      the status shows a ready sensor without faults. */
  lemma InitOk(log: seq<Op>, res: Res)
    requires InitLog(log, res)
    ensures res == Ok <==>
      |log| == 5 && log[0].res == Ok && log[1].res == Ok && log[1].data[0] == COMM_TEST_VAL &&
      log[2].res == Ok && log[4].res == Ok &&
      var s := UnpackSensStatus(log[4].data[0]); !s.iccer && !s.orvs && !s.ortmp && s.senRdy
  {
    if |log| == 5 && log[4].res == Ok {
      StatusPrecedence(log[4].data[0]);
    }
  }

  /** The echo and the status are read into the same variable, which holds
      `COMM_TEST_VAL` before each read. A read that returns success without delivering
      its byte therefore passes the communication check, and the reset follows. If the
      status read does the same, the sentinel 0xA5 (bit 5 set, bits 3 and 4 clear) is
      decoded as an over-temperature fault. */
  lemma InitUndelivered(log: seq<Op>, res: Res)
    requires InitLog(log, res) && |log| >= 2 && log[0].res == Ok
    requires log[1].res == Ok && log[1].data == log[1].prior
    ensures |log| >= 4 && Writes(log[2], SENS_RST, [CMD_SOFT_RESET])
    ensures |log| == 5 && log[4].res == Ok && log[4].data == log[4].prior ==> res == Ortmp
  {
  }

  /** The reset delay always follows the soft reset. */
  lemma InitDelayFollowsReset(log: seq<Op>, res: Res, k: nat)
    requires InitLog(log, res) && k < |log| && log[k].Set? && log[k].reg == SENS_RST
    ensures k == 2 && log[k + 1] == Wait(SOFT_RESET_DELAY_MS)
  {
  }

  /** How one logged entry met the wire: the transport it went through, the buffer a
      read started from and its length, the reply index it started at, and the wire
      events and number of replies it took. */
  datatype Wire = Wire(itf: Interface, prior: seq<Byte>, len: nat, at: nat, events: seq<Event>, used: nat)

  /** Entry `op` is exactly what its transport makes of the replies from `w.at` on:
      its result (and, for a read, the buffer) is the codec's, and its events are the
      codec's followed by the façade's delay. */
  predicate Faithful(op: Op, w: Wire, script: seq<Reply>)
  {
    match op
    case Set(reg, data, res) =>
      var o := WriteThrough(w.itf, reg, data, script, w.at);
      res == o.res && w.events == o.events + [Event.Delay(COMM_DELAY_MS)] && w.used == o.used
    case Get(reg, len, prior, data, res) =>
      w.prior == prior && w.len == len && len <= |prior| &&
      var o := ReadThrough(w.itf, reg, w.prior, w.len, script, w.at);
      res == o.res && data == o.data && w.events == o.events + [Event.Delay(COMM_DELAY_MS)] &&
      w.used == o.used
    case Wait(ms) => w.events == [Event.Delay(ms)] && w.used == 0
  }

  /** All wire events of `ws`, in order. */
  function Flat(ws: seq<Wire>): seq<Event>
  {
    if ws == [] then [] else Flat(ws[..|ws| - 1]) + ws[|ws| - 1].events
  }

  lemma FlatSnoc(ws: seq<Wire>, w: Wire)
    ensures Flat(ws + [w]) == Flat(ws) + w.events
  {
    assert (ws + [w])[..|ws|] == ws;
  }

  /** Replies taken by the first `n` entries of `ws`. */
  function Taken(ws: seq<Wire>, n: nat): nat
    requires n <= |ws|
  {
    if n == 0 then 0 else Taken(ws, n - 1) + ws[n - 1].used
  }

  lemma TakenSnoc(ws: seq<Wire>, w: Wire)
    ensures forall n :: 0 <= n <= |ws| ==> Taken(ws + [w], n) == Taken(ws, n)
    ensures Taken(ws + [w], |ws| + 1) == Taken(ws, |ws|) + w.used
  {
    forall n | 0 <= n <= |ws|
      ensures Taken(ws + [w], n) == Taken(ws, n)
    {
      TakenPrefix(ws, w, n);
    }
  }

  lemma {:induction false} TakenPrefix(ws: seq<Wire>, w: Wire, n: nat)
    requires n <= |ws|
    ensures Taken(ws + [w], n) == Taken(ws, n)
  {
    if n > 0 {
      TakenPrefix(ws, w, n - 1);
    }
  }

  /** Each entry of `ops` is faithful to the wire record beside it, and the records
      took the replies from `start` on one after the other. Stated entry by entry from
      the last, so that a proof unfolds only the entries it looks at. */
  ghost predicate Chained(ops: seq<Op>, wires: seq<Wire>, script: seq<Reply>, start: nat)
    decreases |ops|
  {
    |wires| == |ops| &&
    (|ops| > 0 ==>
      Chained(ops[..|ops| - 1], wires[..|ops| - 1], script, start) &&
      Faithful(ops[|ops| - 1], wires[|ops| - 1], script) &&
      wires[|ops| - 1].at == start + Taken(wires, |ops| - 1))
  }

  /** Appending an entry that starts where the others stopped keeps the chain. */
  lemma ChainedSnoc(ops: seq<Op>, wires: seq<Wire>, script: seq<Reply>, start: nat, op: Op, w: Wire)
    requires Chained(ops, wires, script, start)
    requires w.at == start + Taken(wires, |wires|) && Faithful(op, w, script)
    ensures Chained(ops + [op], wires + [w], script, start)
    ensures Taken(wires + [w], |wires| + 1) == Taken(wires, |wires|) + w.used
    ensures Flat(wires + [w]) == Flat(wires) + w.events
  {
    FlatSnoc(wires, w);
    TakenSnoc(wires, w);
    assert (ops + [op])[..|ops|] == ops;
    assert (wires + [w])[..|ops|] == wires;
  }

  /** Every entry of a chain is faithful and starts where the ones before it stopped. */
  lemma {:induction false} ChainedAt(ops: seq<Op>, wires: seq<Wire>, script: seq<Reply>, start: nat, k: nat)
    requires Chained(ops, wires, script, start) && k < |ops|
    ensures Faithful(ops[k], wires[k], script) && wires[k].at == start + Taken(wires, k)
    decreases |ops|
  {
    if k < |ops| - 1 {
      var n := |ops| - 1;
      ChainedAt(ops[..n], wires[..n], script, start, k);
      TakenOfPrefix(wires, n, k);
    }
  }

  /** The replies taken by the first `k` records do not depend on the records after. */
  lemma {:induction false} TakenOfPrefix(ws: seq<Wire>, n: nat, k: nat)
    requires k <= n <= |ws|
    ensures Taken(ws[..n], k) == Taken(ws, k)
  {
    if k > 0 {
      TakenOfPrefix(ws, n, k - 1);
    }
  }

  class Sensor {
    /** The platform context every call goes to. */
    const bus: Bus
    /** Transport the read and write hooks were bound to. */
    var itf: Interface
    /** Number of log entries made before the hooks were last bound. */
    ghost var bound: nat
    /** Lowest measurement rate the variant accepts, in seconds. */
    var measRateMin: Word
    /** Measurement rate used during forced compensation, in seconds. */
    var fcsMeasRate: Word
    /** Forced-compensation routine of the variant. */
    var forceComp: ForceComp
    /** Register accesses and delays made so far, in order. */
    ghost var ops: seq<Op>
    /** How each entry of `ops` met the wire. */
    ghost var wires: seq<Wire>
    /** The bus as the handle found it. */
    ghost const trace0: seq<Event>
    ghost const used0: nat

    /** The log accounts for everything the handle did on its bus: each entry is
        faithful to its transport and the replies it was given, the entries took the
        replies one after the other, their events make up the trace, and every entry
        since the hooks were last bound went through the bound transport. */
    ghost predicate Valid()
      reads this, bus
    {
      Chained(ops, wires, bus.script, used0) &&
      (forall k :: bound <= k < |wires| ==> wires[k].itf == itf) &&
      bus.used == used0 + Taken(wires, |wires|) &&
      bus.trace == trace0 + Flat(wires)
    }

    /** A handle on `b`, not yet initialised. */
    constructor(b: Bus)
      ensures bus == b && itf == I2C && measRateMin == 0 && fcsMeasRate == 0
      ensures forceComp == BaseForceComp && ops == [] && Valid()
    {
      bus := b;
      itf := I2C;
      measRateMin := 0;
      fcsMeasRate := 0;
      forceComp := BaseForceComp;
      ops, wires, bound := [], [], 0;
      trace0, used0 := b.trace, b.used;
    }

    /** `rate` lies in the range the variant accepts. */
    predicate Accepts(rate: Word)
      reads this`measRateMin
    {
      measRateMin <= rate <= MEAS_RATE_MAX
    }

    /** The UART codec serves only the common registers; I2C serves every address. */
    predicate Reaches(reg: Byte)
      reads this
    {
      itf == UART ==> reg <= SENS_RST
    }

    /** Logs `op`, which met the wire as `w`. */
    ghost method Log(op: Op, w: Wire)
      requires Chained(ops, wires, bus.script, used0)
      requires w.at == used0 + Taken(wires, |wires|) && Faithful(op, w, bus.script) && w.itf == itf
      requires forall k :: bound <= k < |wires| ==> wires[k].itf == itf
      requires bus.used == w.at + w.used && bus.trace == trace0 + Flat(wires) + w.events
      modifies this`ops, this`wires
      ensures ops == old(ops) + [op] && wires == old(wires) + [w] && Valid()
    {
      ghost var ops', wires' := ops + [op], wires + [w];
      ChainedSnoc(ops, wires, bus.script, used0, op, w);
      assert bus.used == used0 + Taken(wires', |wires'|) && bus.trace == trace0 + Flat(wires');
      ops, wires := ops', wires';
    }

    /** `xensiv_pas_gas_set_reg`: the codec's result, passed through unchanged, after
        which the 5 ms delay always follows. */
    method SetReg(reg: Byte, data: seq<Byte>) returns (res: Res)
      requires Valid() && Reaches(reg) && (itf == I2C ==> |data| + 1 < I2C_WRITE_BUFFER_LEN)
      modifies bus, this`ops, this`wires
      ensures Valid() && ops == old(ops) + [Set(reg, data, res)]
      ensures var o := WriteThrough(itf, reg, data, bus.script, old(bus.used));
        res == o.res && bus.trace == old(bus.trace) + o.events + [Event.Delay(COMM_DELAY_MS)] &&
        bus.used == old(bus.used) + o.used
    {
      ghost var at, trace := bus.used, bus.trace;
      if itf == I2C {
        res := I2cWrite(bus, reg, data);
      } else {
        res := UartWrite(bus, reg, data);
      }
      bus.Delay(COMM_DELAY_MS);
      ghost var o := WriteThrough(itf, reg, data, bus.script, at);
      AppendAssoc(trace, o.events, [Event.Delay(COMM_DELAY_MS)]);
      Log(Set(reg, data, res), Wire(itf, [], 0, at, o.events + [Event.Delay(COMM_DELAY_MS)], o.used));
    }

    /** `xensiv_pas_gas_get_reg`: reads `len` bytes into the caller's buffer `prior`. */
    method GetReg(reg: Byte, prior: seq<Byte>, len: nat) returns (res: Res, data: seq<Byte>)
      requires Valid() && Reaches(reg) && len <= |prior|
      modifies bus, this`ops, this`wires
      ensures Valid() && ops == old(ops) + [Get(reg, len, prior, data, res)] && |data| == |prior|
      ensures var o := ReadThrough(itf, reg, prior, len, bus.script, old(bus.used));
        res == o.res && data == o.data &&
        bus.trace == old(bus.trace) + o.events + [Event.Delay(COMM_DELAY_MS)] &&
        bus.used == old(bus.used) + o.used
      ensures 1 <= len ==> old(bus.used) < bus.used
    {
      ghost var at, trace := bus.used, bus.trace;
      var buf := new Byte[|prior|](k requires 0 <= k < |prior| => prior[k]);
      assert buf[..] == prior;
      if itf == I2C {
        res := I2cRead(bus, reg, buf, len);
      } else {
        res := UartRead(bus, reg, buf, len);
      }
      data := buf[..];
      bus.Delay(COMM_DELAY_MS);
      ghost var o := ReadThrough(itf, reg, prior, len, bus.script, at);
      AppendAssoc(trace, o.events, [Event.Delay(COMM_DELAY_MS)]);
      Log(Get(reg, len, prior, data, res), Wire(itf, prior, len, at, o.events + [Event.Delay(COMM_DELAY_MS)], o.used));
    }

    /** A platform delay outside the façade. */
    method Pause(ms: nat)
      requires Valid()
      modifies bus, this`ops, this`wires
      ensures Valid() && ops == old(ops) + [Wait(ms)] && bus.used == old(bus.used)
    {
      ghost var at := bus.used;
      bus.Delay(ms);
      Log(Wait(ms), Wire(itf, [], 0, at, [Event.Delay(ms)], 0));
    }

    /** A one-byte register read into `prior`, returning the byte the buffer holds. */
    method GetByte(reg: Byte, prior: Byte) returns (res: Res, v: Byte)
      requires Valid() && Reaches(reg)
      modifies bus, this`ops, this`wires
      ensures Valid() && ops == old(ops) + [Get(reg, 1, [prior], [v], res)]
      ensures var o := ReadThrough(itf, reg, [prior], 1, bus.script, old(bus.used));
        res == o.res && [v] == o.data
      ensures old(bus.used) < bus.used
    {
      var data;
      res, data := GetReg(reg, [prior], 1);
      v := data[0];
      assert data == [v];
    }

    /** `xensiv_pas_gas_get_id`. */
    method GetId(prior: Byte) returns (res: Res, id: Byte)
      requires Valid()
      modifies bus, this`ops, this`wires
      ensures Valid() && ops == old(ops) + [Get(PROD_ID, 1, [prior], [id], res)]
    {
      res, id := GetByte(PROD_ID, prior);
    }

    /** `xensiv_pas_gas_get_status`. */
    method GetStatus(prior: Byte) returns (res: Res, status: Byte)
      requires Valid()
      modifies bus, this`ops, this`wires
      ensures Valid() && ops == old(ops) + [Get(SENS_STS, 1, [prior], [status], res)]
    {
      res, status := GetByte(SENS_STS, prior);
    }

    /** `xensiv_pas_gas_clear_status`: writes `mask` to SENS_STS. */
    method ClearStatus(mask: Byte) returns (res: Res)
      requires Valid()
      modifies bus, this`ops, this`wires
      ensures Valid() && ops == old(ops) + [Set(SENS_STS, [mask], res)]
    {
      res := SetReg(SENS_STS, [mask]);
    }

    /** `xensiv_pas_gas_get_interrupt_config`. */
    method GetInterruptConfig(prior: Byte) returns (res: Res, cfg: Byte)
      requires Valid()
      modifies bus, this`ops, this`wires
      ensures Valid() && ops == old(ops) + [Get(INT_CFG, 1, [prior], [cfg], res)]
    {
      res, cfg := GetByte(INT_CFG, prior);
    }

    /** `xensiv_pas_gas_set_interrupt_config`. */
    method SetInterruptConfig(cfg: Byte) returns (res: Res)
      requires Valid()
      modifies bus, this`ops, this`wires
      ensures Valid() && ops == old(ops) + [Set(INT_CFG, [cfg], res)]
    {
      res := SetReg(INT_CFG, [cfg]);
    }

    /** `xensiv_pas_gas_get_measurement_config`. */
    method GetMeasurementConfig(prior: Byte) returns (res: Res, cfg: Byte)
      requires Valid()
      modifies bus, this`ops, this`wires
      ensures Valid() && ops == old(ops) + [Get(MEAS_CFG, 1, [prior], [cfg], res)]
      ensures old(bus.used) < bus.used
    {
      res, cfg := GetByte(MEAS_CFG, prior);
    }

    /** `xensiv_pas_gas_set_measurement_config`. */
    method SetMeasurementConfig(cfg: Byte) returns (res: Res)
      requires Valid()
      modifies bus, this`ops, this`wires
      ensures Valid() && ops == old(ops) + [Set(MEAS_CFG, [cfg], res)]
    {
      res := SetReg(MEAS_CFG, [cfg]);
    }

    /** `xensiv_pas_gas_get_measurement_status`. */
    method GetMeasurementStatus(prior: Byte) returns (res: Res, status: Byte)
      requires Valid()
      modifies bus, this`ops, this`wires
      ensures Valid() && ops == old(ops) + [Get(MEAS_STS, 1, [prior], [status], res)]
    {
      res, status := GetByte(MEAS_STS, prior);
    }

    /** `xensiv_pas_gas_clear_measurement_status`: writes `mask` to MEAS_STS. */
    method ClearMeasurementStatus(mask: Byte) returns (res: Res)
      requires Valid()
      modifies bus, this`ops, this`wires
      ensures Valid() && ops == old(ops) + [Set(MEAS_STS, [mask], res)]
    {
      res := SetReg(MEAS_STS, [mask]);
    }

    /** `xensiv_pas_gas_get_result`: reads MEAS_STS into an uninitialised local (taken as
        0); only when DRDY is set does it read the two concentration bytes into `*val`,
        whose bytes are the stored value in host (little-endian) order, and then convert
        the buffer from big-endian, whether or not that read succeeded. Otherwise `val` is
        left as it was and no concentration read is made. */
    method GetResult(prior: Word) returns (res: Res, val: Word, ghost log: seq<Op>)
      requires Valid() && Reaches(GASCONC_H)
      modifies bus, this`ops, this`wires
      ensures Valid() && ops == old(ops) + log && ResultLog(log, prior, res, val)
    {
      var status;
      res, status := GetMeasurementStatus(0);
      log := [Get(MEAS_STS, 1, [0], [status], res)];
      val := prior;
      if res == Ok {
        if status & MEAS_STS_DRDY_MSK != 0 {
          var data;
          res, data := GetReg(GASCONC_H, [Lo(prior), Hi(prior)], 2);
          log := log + [Get(GASCONC_H, 2, [Lo(prior), Hi(prior)], data, res)];
          val := Join(data[0], data[1]);
        } else {
          res := ReadNotReady;
        }
      }
    }

    /** A word write through the façade: `htons` stores the value high byte first, so
        the register pair receives `Split(v)`. */
    method SetWord(reg: Byte, v: Word) returns (res: Res)
      requires Valid() && Reaches(reg)
      modifies bus, this`ops, this`wires
      ensures Valid() && ops == old(ops) + [Set(reg, Split(v), res)]
    {
      res := SetReg(reg, Split(v));
    }

    /** `xensiv_pas_gas_set_measurement_rate`, for a rate the variant accepts. */
    method SetMeasurementRate(rate: Word) returns (res: Res)
      requires Valid() && Accepts(rate)
      modifies bus, this`ops, this`wires
      ensures Valid() && ops == old(ops) + [Set(MEAS_RATE_H, Split(rate), res)]
    {
      res := SetWord(MEAS_RATE_H, rate);
    }

    /** `xensiv_pas_gas_set_alarm_threshold`. */
    method SetAlarmThreshold(v: Word) returns (res: Res)
      requires Valid()
      modifies bus, this`ops, this`wires
      ensures Valid() && ops == old(ops) + [Set(ALARM_TH_H, Split(v), res)]
    {
      res := SetWord(ALARM_TH_H, v);
    }

    /** `xensiv_pas_gas_set_pressure_compensation`. */
    method SetPressureCompensation(v: Word) returns (res: Res)
      requires Valid()
      modifies bus, this`ops, this`wires
      ensures Valid() && ops == old(ops) + [Set(PRESS_REF_H, Split(v), res)]
    {
      res := SetWord(PRESS_REF_H, v);
    }

    /** `xensiv_pas_gas_set_offset_compensation`. */
    method SetOffsetCompensation(v: Word) returns (res: Res)
      requires Valid()
      modifies bus, this`ops, this`wires
      ensures Valid() && ops == old(ops) + [Set(CALIB_REF_H, Split(v), res)]
    {
      res := SetWord(CALIB_REF_H, v);
    }

    /** `xensiv_pas_gas_set_scratch_pad`. */
    method SetScratchPad(v: Byte) returns (res: Res)
      requires Valid()
      modifies bus, this`ops, this`wires
      ensures Valid() && ops == old(ops) + [Set(SCRATCH_PAD, [v], res)]
    {
      res := SetReg(SCRATCH_PAD, [v]);
    }

    /** `xensiv_pas_gas_get_scratch_pad`. */
    method GetScratchPad(prior: Byte) returns (res: Res, v: Byte)
      requires Valid()
      modifies bus, this`ops, this`wires
      ensures Valid() && ops == old(ops) + [Get(SCRATCH_PAD, 1, [prior], [v], res)]
    {
      res, v := GetByte(SCRATCH_PAD, prior);
    }

    /** `xensiv_pas_gas_cmd`: the command's first byte (its value on a little-endian
        host) is written to SENS_RST. */
    method Cmd(cmd: Byte) returns (res: Res)
      requires Valid()
      modifies bus, this`ops, this`wires
      ensures Valid() && ops == old(ops) + [Set(SENS_RST, [cmd], res)]
    {
      res := SetReg(SENS_RST, [cmd]);
    }

    /** `xensiv_pas_gas_start_single_mode`: read MEAS_CFG; only if the sensor is not
        idle, write it back idle; then write single mode with automatic offset
        compensation. */
    method StartSingleMode() returns (res: Res, ghost log: seq<Op>)
      requires Valid()
      modifies bus, this`ops, this`wires
      ensures Valid() && ops == old(ops) + log && StartLog(log, res, None, OP_MODE_SINGLE)
    {
      res, log := StartMode(None, OP_MODE_SINGLE);
    }

    /** `xensiv_pas_gas_start_continuous_mode`: as the single mode, with the rate
        written between the idle step and the mode write. */
    method StartContinuousMode(rate: Word) returns (res: Res, ghost log: seq<Op>)
      requires Valid() && Accepts(rate)
      modifies bus, this`ops, this`wires
      ensures Valid() && ops == old(ops) + log && StartLog(log, res, Some(rate), OP_MODE_CONTINUOUS)
    {
      res, log := StartMode(Some(rate), OP_MODE_CONTINUOUS);
    }

    /** The body the two start modes share: `rate` is written only in continuous mode. */
    method StartMode(rate: Option<Word>, mode: Bits2) returns (res: Res, ghost log: seq<Op>)
      requires Valid()
      modifies bus, this`ops, this`wires
      ensures Valid() && ops == old(ops) + log && StartLog(log, res, rate, mode)
    {
      var cfg;
      res, cfg, log := EnterIdle();
      ghost var c := log[0].data[0];
      if res != Ok {
        StartStop(log, res, rate, mode);
        return;
      }
      ghost var tail;
      res, tail := EnterMode(cfg, rate, mode);
      StartJoin(log, c, cfg, tail, res, rate, mode);
      AppendAssoc(old(ops), log, tail);
      log := log + tail;
    }

    /** The first half of a start mode: read MEAS_CFG and, only if the sensor is not
        idle, write it back idle. `cfg` is the configuration as last written. */
    method EnterIdle() returns (res: Res, cfg: Byte, ghost log: seq<Op>)
      requires Valid()
      modifies bus, this`ops, this`wires
      ensures Valid() && ops == old(ops) + log
      ensures |log| >= 1 && Reads(log[0], MEAS_CFG, [0]) && Follows(log, IdlePlan(log[0].data[0]))
      ensures res == log[|log| - 1].res
      ensures res == Ok ==> IdleDone(log, cfg)
    {
      res, cfg := GetMeasurementConfig(0);
      log := [Get(MEAS_CFG, 1, [0], [cfg], res)];
      ghost var c := cfg;
      RunsFirst(log[0], IdlePlan(c));
      if res == Ok && OpModeOf(cfg) != OP_MODE_IDLE {
        cfg := WithOpMode(cfg, OP_MODE_IDLE);
        res := SetMeasurementConfig(cfg);
        RunsNext(log, IdlePlan(c), Set(MEAS_CFG, [cfg], res));
        AppendAssoc(old(ops), log, [Set(MEAS_CFG, [cfg], res)]);
        log := log + [Set(MEAS_CFG, [cfg], res)];
      }
    }

    /** The second half of a start mode, from the idle configuration `cfg`: the rate
        (continuous mode only), then `mode` with automatic offset compensation. */
    method EnterMode(cfg: Byte, rate: Option<Word>, mode: Bits2) returns (res: Res, ghost log: seq<Op>)
      requires Valid()
      modifies bus, this`ops, this`wires
      ensures Valid() && ops == old(ops) + log
      ensures Follows(log, ModePlan(cfg, rate, mode)) && res == log[|log| - 1].res
    {
      ghost var plan := ModePlan(cfg, rate, mode);
      var last := WithBoc(WithOpMode(cfg, mode), BOC_CFG_AUTOMATIC);
      if rate.Some? {
        // `htons` stores the rate high byte first.
        res := SetWord(MEAS_RATE_H, rate.value);
        log := [Set(MEAS_RATE_H, Split(rate.value), res)];
        RunsFirst(log[0], plan);
        if res != Ok {
          return;
        }
        res := SetMeasurementConfig(last);
        RunsNext(log, plan, Set(MEAS_CFG, [last], res));
        AppendAssoc(old(ops), log, [Set(MEAS_CFG, [last], res)]);
        log := log + [Set(MEAS_CFG, [last], res)];
      } else {
        res := SetMeasurementConfig(last);
        log := [Set(MEAS_CFG, [last], res)];
        RunsFirst(log[0], plan);
      }
    }

    /** `xensiv_pas_gas_base_init` over the transport `i`: binds the transport, checks
        communication through the scratch pad, then resets the sensor and checks its
        status. */
    method BaseInit(i: Interface) returns (res: Res, ghost log: seq<Op>)
      requires Valid()
      modifies bus, this`itf, this`bound, this`ops, this`wires
      ensures Valid() && itf == i && ops == old(ops) + log && InitLog(log, res)
      ensures bound == |old(wires)| && |wires| == bound + |log|
    {
      itf, bound := i, |wires|;
      var data;
      res, data, log := CommCheck();
      if res == Ok && data == COMM_TEST_VAL {
        ghost var tail;
        res, tail := ResetCheck();
        InitJoin(log, COMM_TEST_VAL, tail, res);
        AppendAssoc(old(ops), log, tail);
        log := log + tail;
      } else {
        InitEchoFails(log, res, data);
        res := ErrComm;
      }
    }

    /** The communication check: write `COMM_TEST_VAL` to SCRATCH_PAD and, if that
        succeeded, read it back into the same variable. */
    method CommCheck() returns (res: Res, data: Byte, ghost log: seq<Op>)
      requires Valid()
      modifies bus, this`ops, this`wires
      ensures Valid() && ops == old(ops) + log && EchoLog(log, res, data)
    {
      data := COMM_TEST_VAL;
      res := SetReg(SCRATCH_PAD, [data]);
      log := [Set(SCRATCH_PAD, [data], res)];
      if res == Ok {
        res, data := GetByte(SCRATCH_PAD, data);
        AppendAssoc(old(ops), log, [Get(SCRATCH_PAD, 1, [COMM_TEST_VAL], [data], res)]);
        log := log + [Get(SCRATCH_PAD, 1, [COMM_TEST_VAL], [data], res)];
      }
    }

    /** The soft reset, the reset delay whatever the reset returned, and after a
        successful reset the status read, whose value decides the result. The status is
        read into the variable that still holds the echoed `COMM_TEST_VAL`. */
    method ResetCheck() returns (res: Res, ghost log: seq<Op>)
      requires Valid()
      modifies bus, this`ops, this`wires
      ensures Valid() && ops == old(ops) + log && ResetLog(log, res)
    {
      res := Cmd(CMD_SOFT_RESET);
      log := [Set(SENS_RST, [CMD_SOFT_RESET], res)];
      Pause(SOFT_RESET_DELAY_MS);
      AppendAssoc(old(ops), log, [Wait(SOFT_RESET_DELAY_MS)]);
      log := log + [Wait(SOFT_RESET_DELAY_MS)];
      if res == Ok {
        var data;
        res, data := GetByte(SENS_STS, COMM_TEST_VAL);
        AppendAssoc(old(ops), log, [Get(SENS_STS, 1, [COMM_TEST_VAL], [data], res)]);
        log := log + [Get(SENS_STS, 1, [COMM_TEST_VAL], [data], res)];
        if res == Ok {
          res := StatusResult(data);
        }
      }
    }
  }

  /** What the communication check logs: the scratch-pad write and, only when it
      succeeded, the read-back into the variable holding `COMM_TEST_VAL`, whose result
      and byte are returned. */
  ghost predicate EchoLog(log: seq<Op>, res: Res, v: Byte)
  {
    |log| >= 1 && Writes(log[0], SCRATCH_PAD, [COMM_TEST_VAL]) &&
    if log[0].res != Ok then |log| == 1 && res == log[0].res
    else |log| == 2 && Reads(log[1], SCRATCH_PAD, [COMM_TEST_VAL]) && res == log[1].res && v == log[1].data[0]
  }

  /** What the reset step logs: the soft-reset command, the reset delay, and after a
      successful reset the status read into the variable still holding `COMM_TEST_VAL`. */
  ghost predicate ResetLog(log: seq<Op>, res: Res)
  {
    |log| >= 2 && Writes(log[0], SENS_RST, [CMD_SOFT_RESET]) && log[1] == Wait(SOFT_RESET_DELAY_MS) &&
    if log[0].res != Ok then |log| == 2 && res == log[0].res
    else
      |log| == 3 && Reads(log[2], SENS_STS, [COMM_TEST_VAL]) &&
      res == if log[2].res != Ok then log[2].res else StatusResult(log[2].data[0])
  }

  /** A communication check that fails in any way makes the whole log. */
  lemma InitEchoFails(log: seq<Op>, res: Res, v: Byte)
    requires EchoLog(log, res, v) && !(res == Ok && v == COMM_TEST_VAL)
    ensures InitLog(log, ErrComm)
  {
  }

  /** A passed communication check followed by the reset step makes the whole log. */
  lemma InitJoin(echo: seq<Op>, v: Byte, reset: seq<Op>, res: Res)
    requires EchoLog(echo, Ok, v) && v == COMM_TEST_VAL && ResetLog(reset, res)
    ensures InitLog(echo + reset, res)
  {
    var log := echo + reset;
    assert log[2] == reset[0] && log[3] == reset[1];
    if |reset| == 3 {
      assert log[4] == reset[2];
    }
  }

  /** What `xensiv_pas_gas_get_result` logs and returns: the MEAS_STS read; if it
      failed, its result; if DRDY is clear, `ReadNotReady`, in both cases with `val`
      untouched; otherwise the two-byte read of the concentration into `*val` itself
      (its bytes low first), whose result is returned and whose bytes, high first,
      make `val`. */
  ghost predicate ResultLog(log: seq<Op>, prior: Word, res: Res, val: Word)
  {
    |log| >= 1 && Reads(log[0], MEAS_STS, [0]) &&
    if log[0].res != Ok || !UnpackMeasStatus(log[0].data[0]).drdy then
      |log| == 1 && val == prior && res == (if log[0].res != Ok then log[0].res else ReadNotReady)
    else
      |log| == 2 && Reads(log[1], GASCONC_H, [Lo(prior), Hi(prior)]) && res == log[1].res &&
      val == Join(log[1].data[0], log[1].data[1])
  }

  /** Without new data `get_result` makes no access after the status read, leaves the
      value alone and says so. */
  lemma ResultNotReady(log: seq<Op>, prior: Word, res: Res, val: Word)
    requires ResultLog(log, prior, res, val) && log[0].res == Ok
    requires log[0].data[0] & MEAS_STS_DRDY_MSK == 0
    ensures res == ReadNotReady && val == prior && |log| == 1
  {
    assert !UnpackMeasStatus(log[0].data[0]).drdy;
  }

  /** The concentration is read into `*val` itself, stored low byte first, and the
      buffer is then taken high byte first whatever the read returned. A read that
      leaves the buffer as it was therefore hands back the caller's value with its two
      bytes swapped. */
  lemma ResultUndelivered(log: seq<Op>, prior: Word, res: Res, val: Word)
    requires ResultLog(log, prior, res, val) && |log| == 2 && log[1].data == log[1].prior
    ensures Hi(val) == Lo(prior) && Lo(val) == Hi(prior)
  {
  }

  /** A register access a routine plans to make. */
  datatype Step = Write(reg: Byte, data: seq<Byte>) | Read(reg: Byte, prior: seq<Byte>)

  /** `op` is the access `st`. */
  predicate Does(op: Op, st: Step)
  {
    match st
    case Write(reg, data) => Writes(op, reg, data)
    case Read(reg, prior) => Reads(op, reg, prior)
  }

  /** `op` is a register access that succeeded. */
  predicate Succeeded(op: Op)
  {
    !op.Wait? && op.res == Ok
  }

  /** `log` carries out the start of `plan`: it makes the planned accesses one by one,
      and each but the last succeeded. */
  ghost predicate Runs(log: seq<Op>, plan: seq<Step>)
  {
    1 <= |log| <= |plan| &&
    (forall k :: 0 <= k < |log| ==> Does(log[k], plan[k])) &&
    (forall k :: 0 <= k < |log| - 1 ==> Succeeded(log[k]))
  }

  /** `log` carries out `plan` in order and stops at the first access that fails: it
      ends before the plan does only after a failure. */
  ghost predicate Follows(log: seq<Op>, plan: seq<Step>)
  {
    Runs(log, plan) && (|log| < |plan| ==> !Succeeded(log[|log| - 1]))
  }

  lemma RunsFirst(op: Op, plan: seq<Step>)
    requires 1 <= |plan| && Does(op, plan[0])
    ensures Runs([op], plan) && (|plan| == 1 || !Succeeded(op) ==> Follows([op], plan))
  {
  }

  lemma RunsNext(log: seq<Op>, plan: seq<Step>, op: Op)
    requires Runs(log, plan) && |log| < |plan| && Succeeded(log[|log| - 1]) && Does(op, plan[|log|])
    ensures Runs(log + [op], plan)
    ensures |log| + 1 == |plan| || !Succeeded(op) ==> Follows(log + [op], plan)
  {
  }

  /** `log` is `plan` carried out in full, or up to and including a failed access,
      whatever follows `plan`. */
  lemma FollowsStop(log: seq<Op>, plan: seq<Step>, more: seq<Step>)
    requires Follows(log, plan) && !Succeeded(log[|log| - 1])
    ensures Follows(log, plan + more)
  {
  }

  /** Carrying out `p` in full and then `q` carries out `p + q`. */
  lemma FollowsThen(log: seq<Op>, p: seq<Step>, tail: seq<Op>, q: seq<Step>)
    requires Follows(log, p) && |log| == |p| && Succeeded(log[|log| - 1]) && Follows(tail, q)
    ensures Follows(log + tail, p + q)
  {
    var l, pl := log + tail, p + q;
    forall k | 0 <= k < |l|
      ensures Does(l[k], pl[k])
    {
      if k >= |log| {
        assert l[k] == tail[k - |log|] && pl[k] == q[k - |log|];
      }
    }
  }

  /** The accesses of a start mode that bring the sensor to idle, once MEAS_CFG has been
      read as `c`: the read, then the idle write only when the sensor was not idle. */
  function IdlePlan(c: Byte): (plan: seq<Step>)
  {
    [Read(MEAS_CFG, [0])] +
    if OpModeOf(c) != OP_MODE_IDLE then [Write(MEAS_CFG, [WithOpMode(c, OP_MODE_IDLE)])] else []
  }

  /** The accesses that then start `mode`: the rate write (continuous mode only) and
      the write of `mode` with automatic offset compensation, keeping the other bits. */
  function ModePlan(c: Byte, rate: Option<Word>, mode: Bits2): (plan: seq<Step>)
  {
    (match rate case None => [] case Some(v) => [Write(MEAS_RATE_H, Split(v))]) +
    [Write(MEAS_CFG, [WithBoc(WithOpMode(c, mode), BOC_CFG_AUTOMATIC)])]
  }

  /** The idle step `log` ran to its end, each access succeeding, and left the
      configuration `cfg`: the byte read, with the mode set to idle if it was not. */
  ghost predicate IdleDone(log: seq<Op>, cfg: Byte)
  {
    |log| >= 1 && Reads(log[0], MEAS_CFG, [0]) && |log| == |IdlePlan(log[0].data[0])| &&
    Succeeded(log[|log| - 1]) &&
    cfg == if OpModeOf(log[0].data[0]) != OP_MODE_IDLE then WithOpMode(log[0].data[0], OP_MODE_IDLE) else log[0].data[0]
  }

  /** A start mode's log: it begins with the read of MEAS_CFG, carries out the start
      plan for the byte read, stopping at the first failure, and `res` is the result
      of its last access. */
  ghost predicate StartLog(log: seq<Op>, res: Res, rate: Option<Word>, mode: Bits2)
  {
    |log| >= 1 && Reads(log[0], MEAS_CFG, [0]) && Follows(log, StartPlan(log[0].data[0], rate, mode)) &&
    !log[|log| - 1].Wait? && res == log[|log| - 1].res
  }

  /** An idle step that failed is a whole start log. */
  lemma StartStop(log: seq<Op>, res: Res, rate: Option<Word>, mode: Bits2)
    requires |log| >= 1 && Reads(log[0], MEAS_CFG, [0]) && Follows(log, IdlePlan(log[0].data[0]))
    requires res == log[|log| - 1].res && res != Ok
    ensures StartLog(log, res, rate, mode)
  {
    var c := log[0].data[0];
    FollowsStop(log, IdlePlan(c), ModePlan(c, rate, mode));
  }

  /** A completed idle step followed by a mode step from the configuration it left
      is a whole start log. */
  lemma StartJoin(log: seq<Op>, c: Byte, cfg: Byte, tail: seq<Op>, res: Res, rate: Option<Word>, mode: Bits2)
    requires |log| >= 1 && Reads(log[0], MEAS_CFG, [0]) && c == log[0].data[0]
    requires Follows(log, IdlePlan(c)) && IdleDone(log, cfg) && Follows(tail, ModePlan(cfg, rate, mode))
    requires res == tail[|tail| - 1].res
    ensures StartLog(log + tail, res, rate, mode)
  {
    if cfg != c {
      WithOpModeTwice(c, OP_MODE_IDLE, mode);
    }
    FollowsThen(log, IdlePlan(c), tail, ModePlan(c, rate, mode));
    assert (log + tail)[0] == log[0];
    assert (log + tail)[|log + tail| - 1] == tail[|tail| - 1];
  }

  /** All accesses of a start mode once MEAS_CFG has been read as `c`. */
  function StartPlan(c: Byte, rate: Option<Word>, mode: Bits2): (plan: seq<Step>)
  {
    IdlePlan(c) + ModePlan(c, rate, mode)
  }
}
