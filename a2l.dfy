/**
 * The A2L variant (src/xensiv_pas_gas_a2l.c): its initialisation binds a minimum and a
 * compensation measurement rate of 3 s and the common forced-compensation routine; its
 * extended registers at 0x22-0x68 are reached through the register façade. The UART
 * codec serves only the common registers 0x00-0x10, so each accessor here demands a
 * handle the façade can reach its register with, which means I2C.
 */
module A2l {
  import opened Regs
  import opened Api
  import opened Platform
  import opened Transport
  import opened Driver

  // ------------------- Extended register addresses -------------------

  const DEV_ID_IDX: Byte := 0x22
  const DEV_ID: Byte := 0x23
  const ABOC_PREFILL: Byte := 0x5D
  const GAS_CFG: Byte := 0x5E
  const ALARM_CFG: Byte := 0x5F
  const SELF_TEST: Byte := 0x60
  const DENOISE_CFG: Byte := 0x61
  const ABOC_CYCLE: Byte := 0x62
  const SELF_TEST_CLR: Byte := 0x63
  const ALARM_HYS_H: Byte := 0x64
  const ABS_HUM_REF_H: Byte := 0x66
  const ABS_HUM_REF_L: Byte := 0x67
  const HC_CTRL: Byte := 0x68

  /** Lowest measurement rate of the A2L sensor, in seconds. */
  const A2L_MEAS_RATE_MIN: Word := 3
  /** Measurement rate used during forced compensation, in seconds. */
  const A2L_FCS_MEAS_RATE_S: Word := 3

  // ------------------- GAS_CFG -------------------

  /** Bits 2-3 of GAS_CFG are reserved and must be written as zero. */
  const GAS_CFG_RESERVED_MSK: Byte := 0x0C

  /** GAS_CFG fields: the selected gas (bits 0-1) and the available gases (bits 4-7). */
  datatype GasConfig = GasConfig(gasSelect: Bits2, gasAvail: Bits4)

  function PackGasConfig(g: GasConfig): (b: Byte)
    ensures b & GAS_CFG_RESERVED_MSK == 0
  {
    g.gasSelect | (g.gasAvail << 4)
  }

  /** The fields of a GAS_CFG byte; packing them back gives the byte with its
      reserved bits cleared. */
  function UnpackGasConfig(b: Byte): (g: GasConfig)
    ensures PackGasConfig(g) == b & !GAS_CFG_RESERVED_MSK
  {
    GasConfig(b & 0x03, b >> 4)
  }

  lemma GasConfigRoundTrip(g: GasConfig)
    ensures UnpackGasConfig(PackGasConfig(g)) == g
  {
  }

  /** The byte `set_gas_config` writes for the caller's `u`: the reserved bits are zero
      and every other bit is the caller's, so both fields arrive unchanged. */
  function GasConfigToWrite(u: Byte): (r: Byte)
    ensures r & GAS_CFG_RESERVED_MSK == 0
    ensures r & !GAS_CFG_RESERVED_MSK == u & !GAS_CFG_RESERVED_MSK
    ensures UnpackGasConfig(r) == UnpackGasConfig(u)
  {
    (u & 0xF3) | (u & 0x03)
  }

  /** Writing a GAS_CFG byte through `set_gas_config` is the packing of its fields. */
  lemma GasConfigWritesFields(u: Byte)
    ensures GasConfigToWrite(u) == PackGasConfig(UnpackGasConfig(u))
  {
  }

  // ------------------- ALARM_HYS (15 bits) -------------------

  /** The two bytes `set_alarm_hysteresis` writes at ALARM_HYS_H for `v`: bit 15 is
      dropped, the high byte carries bits 8-14, the low byte bits 0-7. */
  function HysteresisBytes(v: Word): (s: seq<Byte>)
    ensures |s| == 2 && s[0] & 0x80 == 0
  {
    var m := v & 0x7FFF;
    [((m >> 8) & 0x7F) as Byte, (m & 0xFF) as Byte]
  }

  /** The value `get_alarm_hysteresis` builds from the bytes `h`, `l`: 15 bits, bit 7 of
      the high byte ignored. */
  function HysteresisOf(h: Byte, l: Byte): (v: Word)
    ensures v & 0x8000 == 0
    ensures Lo(v) == l && Hi(v) == h & 0x7F
  {
    ((h & 0x7F) as Word << 8) | l as Word
  }

  /** Reading back what was written gives the value with bit 15 cleared. */
  lemma HysteresisRoundTrip(v: Word)
    ensures var s := HysteresisBytes(v); HysteresisOf(s[0], s[1]) == v & 0x7FFF
  {
  }

  /** Register contents with bit 7 of the high byte clear are exactly what writing
      their value produces. */
  lemma HysteresisBytesRoundTrip(h: Byte, l: Byte)
    requires h & 0x80 == 0
    ensures HysteresisBytes(HysteresisOf(h, l)) == [h, l]
  {
  }

  // ------------------- ABS_HUM_REF (10 bits over two registers) -------------------

  /** ABS_HUM_REF_H as `set_absolute_humidity_ref` writes it: bits 8-9 of `v`. */
  function HumidityHigh(v: Word): (h: Byte)
    ensures h <= 0x03
  {
    (((v & 0x03FF) >> 8) & 0x03) as Byte
  }

  /** ABS_HUM_REF_L as `set_absolute_humidity_ref` writes it: bits 0-7 of `v`. */
  function HumidityLow(v: Word): (l: Byte)
    ensures l == Lo(v)
  {
    ((v & 0x03FF) & 0xFF) as Byte
  }

  /** The value `get_absolute_humidity_ref` builds from the bytes `h`, `l`: 10 bits,
      only bits 0-1 of the high byte used. */
  function HumidityOf(h: Byte, l: Byte): (v: Word)
    ensures v <= 0x03FF
    ensures Lo(v) == l && Hi(v) == h & 0x03
  {
    ((h & 0x03) as Word << 8) | l as Word
  }

  /** Reading back what was written gives the low 10 bits of the value. */
  lemma HumidityRoundTrip(v: Word)
    ensures HumidityOf(HumidityHigh(v), HumidityLow(v)) == v & 0x03FF
  {
  }

  /** Register contents whose high byte uses only bits 0-1 are exactly what writing
      their value produces. */
  lemma HumidityBytesRoundTrip(h: Byte, l: Byte)
    requires h <= 0x03
    ensures HumidityHigh(HumidityOf(h, l)) == h && HumidityLow(HumidityOf(h, l)) == l
  {
  }

  /** The writes of `set_absolute_humidity_ref`, high register first. */
  function HumidityPlan(v: Word): (plan: seq<Step>)
  {
    [Write(ABS_HUM_REF_H, [HumidityHigh(v)]), Write(ABS_HUM_REF_L, [HumidityLow(v)])]
  }

  /** The reads of `get_absolute_humidity_ref`, high register first. */
  function HumidityReadPlan(): (plan: seq<Step>)
  {
    [Read(ABS_HUM_REF_H, [0]), Read(ABS_HUM_REF_L, [0])]
  }

  /** When both humidity writes succeeded, the registers hold bytes that read back as
      the low 10 bits of the value written. */
  lemma HumidityWritten(log: seq<Op>, v: Word)
    requires Follows(log, HumidityPlan(v)) && Succeeded(log[|log| - 1])
    ensures |log| == 2 && HumidityOf(log[0].data[0], log[1].data[0]) == v & 0x03FF
  {
    assert Does(log[0], HumidityPlan(v)[0]);
    assert Does(log[1], HumidityPlan(v)[1]);
    HumidityRoundTrip(v);
  }

  // ------------------- Initialisation -------------------

  /** `xensiv_pas_gas_a2l_init`: bind the variant's rates and the common
      forced-compensation routine, then return what the common initialisation returns. */
  method Init(dev: Sensor, itf: Interface) returns (res: Res, ghost log: seq<Op>)
    requires dev.Valid()
    modifies dev.bus, dev`itf, dev`bound, dev`ops, dev`wires, dev`measRateMin, dev`fcsMeasRate, dev`forceComp
    ensures dev.Valid() && dev.itf == itf && dev.ops == old(dev.ops) + log && InitLog(log, res)
    ensures dev.fcsMeasRate == A2L_FCS_MEAS_RATE_S && dev.measRateMin == A2L_MEAS_RATE_MIN
    ensures dev.forceComp == BaseForceComp
    ensures A2L_FCS_MEAS_RATE_S <= MEAS_RATE_MAX ==> dev.Accepts(dev.fcsMeasRate)
  {
    dev.fcsMeasRate := A2L_FCS_MEAS_RATE_S;
    dev.measRateMin := A2L_MEAS_RATE_MIN;
    dev.forceComp := BaseForceComp;
    res, log := dev.BaseInit(itf);
  }

  // ------------------- Single-register accessors -------------------

  /** One byte `v` written to the extended register `reg`. */
  method PutByte(dev: Sensor, reg: Byte, v: Byte) returns (res: Res)
    requires dev.Valid() && dev.Reaches(reg)
    modifies dev.bus, dev`ops, dev`wires
    ensures dev.Valid() && dev.ops == old(dev.ops) + [Set(reg, [v], res)]
  {
    res := dev.SetReg(reg, [v]);
  }

  /** `xenisv_pas_gas_a2l_set_dev_idx`. */
  method SetDevIdx(dev: Sensor, idx: Byte) returns (res: Res)
    requires dev.Valid() && dev.Reaches(DEV_ID_IDX)
    modifies dev.bus, dev`ops, dev`wires
    ensures dev.Valid() && dev.ops == old(dev.ops) + [Set(DEV_ID_IDX, [idx], res)]
  {
    res := PutByte(dev, DEV_ID_IDX, idx);
  }

  /** `xensiv_pas_gas_a2l_get_dev_idx`: read into the caller's byte `prior`. */
  method GetDevIdx(dev: Sensor, prior: Byte) returns (res: Res, idx: Byte)
    requires dev.Valid() && dev.Reaches(DEV_ID_IDX)
    modifies dev.bus, dev`ops, dev`wires
    ensures dev.Valid() && dev.ops == old(dev.ops) + [Get(DEV_ID_IDX, 1, [prior], [idx], res)]
  {
    res, idx := dev.GetByte(DEV_ID_IDX, prior);
  }

  /** `xensiv_pas_gas_a2l_get_device_id`. */
  method GetDeviceId(dev: Sensor, prior: Byte) returns (res: Res, id: Byte)
    requires dev.Valid() && dev.Reaches(DEV_ID)
    modifies dev.bus, dev`ops, dev`wires
    ensures dev.Valid() && dev.ops == old(dev.ops) + [Get(DEV_ID, 1, [prior], [id], res)]
  {
    res, id := dev.GetByte(DEV_ID, prior);
  }

  /** `xensiv_pas_gas_a2l_aboc_prefill`. */
  method AbocPrefill(dev: Sensor, prefill: Byte) returns (res: Res)
    requires dev.Valid() && dev.Reaches(ABOC_PREFILL)
    modifies dev.bus, dev`ops, dev`wires
    ensures dev.Valid() && dev.ops == old(dev.ops) + [Set(ABOC_PREFILL, [prefill], res)]
  {
    res := PutByte(dev, ABOC_PREFILL, prefill);
  }

  /** `xensiv_pas_gas_a2l_set_alarm_config`. */
  method SetAlarmConfig(dev: Sensor, cfg: Byte) returns (res: Res)
    requires dev.Valid() && dev.Reaches(ALARM_CFG)
    modifies dev.bus, dev`ops, dev`wires
    ensures dev.Valid() && dev.ops == old(dev.ops) + [Set(ALARM_CFG, [cfg], res)]
  {
    res := PutByte(dev, ALARM_CFG, cfg);
  }

  /** `xensiv_pas_gas_a2l_get_alarm_config`. */
  method GetAlarmConfig(dev: Sensor, prior: Byte) returns (res: Res, cfg: Byte)
    requires dev.Valid() && dev.Reaches(ALARM_CFG)
    modifies dev.bus, dev`ops, dev`wires
    ensures dev.Valid() && dev.ops == old(dev.ops) + [Get(ALARM_CFG, 1, [prior], [cfg], res)]
  {
    res, cfg := dev.GetByte(ALARM_CFG, prior);
  }

  /** `xensiv_pas_gas_a2l_set_aboc_cycle`. */
  method SetAbocCycle(dev: Sensor, cycle: Byte) returns (res: Res)
    requires dev.Valid() && dev.Reaches(ABOC_CYCLE)
    modifies dev.bus, dev`ops, dev`wires
    ensures dev.Valid() && dev.ops == old(dev.ops) + [Set(ABOC_CYCLE, [cycle], res)]
  {
    res := PutByte(dev, ABOC_CYCLE, cycle);
  }

  /** `xensiv_pas_gas_a2l_get_aboc_cycle`. */
  method GetAbocCycle(dev: Sensor, prior: Byte) returns (res: Res, cycle: Byte)
    requires dev.Valid() && dev.Reaches(ABOC_CYCLE)
    modifies dev.bus, dev`ops, dev`wires
    ensures dev.Valid() && dev.ops == old(dev.ops) + [Get(ABOC_CYCLE, 1, [prior], [cycle], res)]
  {
    res, cycle := dev.GetByte(ABOC_CYCLE, prior);
  }

  /** `xensiv_pas_gas_a2l_set_denoise_config`. */
  method SetDenoiseConfig(dev: Sensor, cfg: Byte) returns (res: Res)
    requires dev.Valid() && dev.Reaches(DENOISE_CFG)
    modifies dev.bus, dev`ops, dev`wires
    ensures dev.Valid() && dev.ops == old(dev.ops) + [Set(DENOISE_CFG, [cfg], res)]
  {
    res := PutByte(dev, DENOISE_CFG, cfg);
  }

  /** `xensiv_pas_gas_a2l_get_denoise_config`. */
  method GetDenoiseConfig(dev: Sensor, prior: Byte) returns (res: Res, cfg: Byte)
    requires dev.Valid() && dev.Reaches(DENOISE_CFG)
    modifies dev.bus, dev`ops, dev`wires
    ensures dev.Valid() && dev.ops == old(dev.ops) + [Get(DENOISE_CFG, 1, [prior], [cfg], res)]
  {
    res, cfg := dev.GetByte(DENOISE_CFG, prior);
  }

  /** `xensiv_pas_gas_a2l_get_self_test`. */
  method GetSelfTest(dev: Sensor, prior: Byte) returns (res: Res, status: Byte)
    requires dev.Valid() && dev.Reaches(SELF_TEST)
    modifies dev.bus, dev`ops, dev`wires
    ensures dev.Valid() && dev.ops == old(dev.ops) + [Get(SELF_TEST, 1, [prior], [status], res)]
  {
    res, status := dev.GetByte(SELF_TEST, prior);
  }

  /** `xensiv_pas_gas_a2l_clr_self_test`. */
  method ClearSelfTest(dev: Sensor, clr: Byte) returns (res: Res)
    requires dev.Valid() && dev.Reaches(SELF_TEST_CLR)
    modifies dev.bus, dev`ops, dev`wires
    ensures dev.Valid() && dev.ops == old(dev.ops) + [Set(SELF_TEST_CLR, [clr], res)]
  {
    res := PutByte(dev, SELF_TEST_CLR, clr);
  }

  /** `xensiv_pas_gas_a2l_set_humidity_control`. */
  method SetHumidityControl(dev: Sensor, ctrl: Byte) returns (res: Res)
    requires dev.Valid() && dev.Reaches(HC_CTRL)
    modifies dev.bus, dev`ops, dev`wires
    ensures dev.Valid() && dev.ops == old(dev.ops) + [Set(HC_CTRL, [ctrl], res)]
  {
    res := PutByte(dev, HC_CTRL, ctrl);
  }

  /** `xensiv_pas_gas_a2l_get_humidity_control`. */
  method GetHumidityControl(dev: Sensor, prior: Byte) returns (res: Res, ctrl: Byte)
    requires dev.Valid() && dev.Reaches(HC_CTRL)
    modifies dev.bus, dev`ops, dev`wires
    ensures dev.Valid() && dev.ops == old(dev.ops) + [Get(HC_CTRL, 1, [prior], [ctrl], res)]
  {
    res, ctrl := dev.GetByte(HC_CTRL, prior);
  }

  // ------------------- Gas configuration -------------------

  /** `xensiv_pas_gas_a2l_set_gas_config`: the caller's byte with its reserved bits
      cleared. */
  method SetGasConfig(dev: Sensor, u: Byte) returns (res: Res)
    requires dev.Valid() && dev.Reaches(GAS_CFG)
    modifies dev.bus, dev`ops, dev`wires
    ensures dev.Valid() && dev.ops == old(dev.ops) + [Set(GAS_CFG, [GasConfigToWrite(u)], res)]
  {
    res := PutByte(dev, GAS_CFG, GasConfigToWrite(u));
  }

  /** `xensiv_pas_gas_a2l_get_gas_config`. */
  method GetGasConfig(dev: Sensor, prior: Byte) returns (res: Res, u: Byte)
    requires dev.Valid() && dev.Reaches(GAS_CFG)
    modifies dev.bus, dev`ops, dev`wires
    ensures dev.Valid() && dev.ops == old(dev.ops) + [Get(GAS_CFG, 1, [prior], [u], res)]
  {
    res, u := dev.GetByte(GAS_CFG, prior);
  }

  /** `xensiv_pas_gas_a2l_get_gas_selection`: read GAS_CFG into a zeroed local; on
      success the caller's `gas` becomes the selection field, on failure it keeps
      `prior` and the error is returned. */
  method GetGasSelection(dev: Sensor, prior: Bits2) returns (res: Res, gas: Bits2)
    requires dev.Valid() && dev.Reaches(GAS_CFG)
    modifies dev.bus, dev`ops, dev`wires
    ensures dev.Valid() && |dev.ops| == |old(dev.ops)| + 1 && dev.ops[..|old(dev.ops)|] == old(dev.ops)
    ensures var op := dev.ops[|dev.ops| - 1];
      Reads(op, GAS_CFG, [0]) && res == op.res &&
      (res == Ok ==> gas == UnpackGasConfig(op.data[0]).gasSelect) && (res != Ok ==> gas == prior)
  {
    var u;
    res, u := GetGasConfig(dev, 0);
    gas := prior;
    if res == Ok {
      gas := UnpackGasConfig(u).gasSelect & 0x03;
    }
  }

  /** `xensiv_pas_gas_a2l_get_available_gases`: as the selection, for bits 4-7. */
  method GetAvailableGases(dev: Sensor, prior: Byte) returns (res: Res, avail: Byte)
    requires dev.Valid() && dev.Reaches(GAS_CFG)
    modifies dev.bus, dev`ops, dev`wires
    ensures dev.Valid() && |dev.ops| == |old(dev.ops)| + 1 && dev.ops[..|old(dev.ops)|] == old(dev.ops)
    ensures var op := dev.ops[|dev.ops| - 1];
      Reads(op, GAS_CFG, [0]) && res == op.res &&
      (res == Ok ==> avail == UnpackGasConfig(op.data[0]).gasAvail) && (res != Ok ==> avail == prior)
  {
    var u;
    res, u := GetGasConfig(dev, 0);
    avail := prior;
    if res == Ok {
      avail := UnpackGasConfig(u).gasAvail;
    }
  }

  // ------------------- Alarm hysteresis -------------------

  /** `xensiv_pas_gas_a2l_set_alarm_hysteresis`: one two-byte write at ALARM_HYS_H. */
  method SetAlarmHysteresis(dev: Sensor, v: Word) returns (res: Res)
    requires dev.Valid() && dev.Reaches(ALARM_HYS_H)
    modifies dev.bus, dev`ops, dev`wires
    ensures dev.Valid() && dev.ops == old(dev.ops) + [Set(ALARM_HYS_H, HysteresisBytes(v), res)]
  {
    res := dev.SetReg(ALARM_HYS_H, HysteresisBytes(v));
  }

  /** `xensiv_pas_gas_a2l_get_alarm_hysteresis`: one two-byte read into a zeroed buffer,
      whose value is returned even when the read failed. */
  method GetAlarmHysteresis(dev: Sensor) returns (res: Res, v: Word)
    requires dev.Valid() && dev.Reaches(ALARM_HYS_H)
    modifies dev.bus, dev`ops, dev`wires
    ensures dev.Valid() && |dev.ops| == |old(dev.ops)| + 1 && dev.ops[..|old(dev.ops)|] == old(dev.ops)
    ensures var op := dev.ops[|dev.ops| - 1];
      Reads(op, ALARM_HYS_H, [0, 0]) && res == op.res && v == HysteresisOf(op.data[0], op.data[1])
  {
    var data;
    res, data := dev.GetReg(ALARM_HYS_H, [0, 0], 2);
    v := HysteresisOf(data[0], data[1]);
  }

  // ------------------- Absolute humidity reference -------------------

  /** `xensiv_pas_gas_a2l_set_absolute_humidity_ref`: the high register, then the low
      one only if the first write succeeded. */
  method SetAbsoluteHumidityRef(dev: Sensor, v: Word) returns (res: Res, ghost log: seq<Op>)
    requires dev.Valid() && dev.Reaches(ABS_HUM_REF_H) && dev.Reaches(ABS_HUM_REF_L)
    modifies dev.bus, dev`ops, dev`wires
    ensures dev.Valid() && dev.ops == old(dev.ops) + log
    ensures Follows(log, HumidityPlan(v)) && res == log[|log| - 1].res
  {
    res := PutByte(dev, ABS_HUM_REF_H, HumidityHigh(v));
    log := [Set(ABS_HUM_REF_H, [HumidityHigh(v)], res)];
    RunsFirst(log[0], HumidityPlan(v));
    if res == Ok {
      res := PutByte(dev, ABS_HUM_REF_L, HumidityLow(v));
      RunsNext(log, HumidityPlan(v), Set(ABS_HUM_REF_L, [HumidityLow(v)], res));
      AppendAssoc(old(dev.ops), log, [Set(ABS_HUM_REF_L, [HumidityLow(v)], res)]);
      log := log + [Set(ABS_HUM_REF_L, [HumidityLow(v)], res)];
    }
  }

  /** `xensiv_pas_gas_a2l_get_absolute_humidity_ref`: the high register into a zeroed
      local, then the low one into another only if the first read succeeded; the value
      is built from both locals whatever the result. */
  method GetAbsoluteHumidityRef(dev: Sensor) returns (res: Res, v: Word, ghost log: seq<Op>)
    requires dev.Valid() && dev.Reaches(ABS_HUM_REF_H) && dev.Reaches(ABS_HUM_REF_L)
    modifies dev.bus, dev`ops, dev`wires
    ensures dev.Valid() && dev.ops == old(dev.ops) + log
    ensures Follows(log, HumidityReadPlan()) && res == log[|log| - 1].res
    ensures |log| == 1 ==> v == HumidityOf(log[0].data[0], 0)
    ensures |log| == 2 ==> v == HumidityOf(log[0].data[0], log[1].data[0])
  {
    var h, l := 0, 0;
    res, h := dev.GetByte(ABS_HUM_REF_H, h);
    log := [Get(ABS_HUM_REF_H, 1, [0], [h], res)];
    RunsFirst(log[0], HumidityReadPlan());
    if res == Ok {
      res, l := dev.GetByte(ABS_HUM_REF_L, l);
      RunsNext(log, HumidityReadPlan(), Get(ABS_HUM_REF_L, 1, [0], [l], res));
      AppendAssoc(old(dev.ops), log, [Get(ABS_HUM_REF_L, 1, [0], [l], res)]);
      log := log + [Get(ABS_HUM_REF_L, 1, [0], [l], res)];
    }
    v := HumidityOf(h, l);
  }
}
