/**
 * Register map of the sensor core: the common register addresses 0x00-0x10 and the
 * bit layouts of PROD_ID, SENS_STS, MEAS_CFG, MEAS_STS and INT_CFG, each given as a
 * record of named fields with an exact byte pack/unpack, plus the big-endian split of
 * the two-register (high, low) quantities.
 */
module Regs {

  type Byte = bv8
  type Word = bv16

  type Bits2 = b: Byte | b < 4
  type Bits3 = b: Byte | b < 8
  type Bits4 = b: Byte | b < 16
  type Bits5 = b: Byte | b < 32

  // ------------------- Common register addresses -------------------

  const PROD_ID: Byte := 0x00
  const SENS_STS: Byte := 0x01
  const MEAS_RATE_H: Byte := 0x02
  const MEAS_RATE_L: Byte := 0x03
  const MEAS_CFG: Byte := 0x04
  const GASPPM_H: Byte := 0x05
  const GASPPM_L: Byte := 0x06
  const MEAS_STS: Byte := 0x07
  const INT_CFG: Byte := 0x08
  const ALARM_TH_H: Byte := 0x09
  const ALARM_TH_L: Byte := 0x0a
  const PRESS_REF_H: Byte := 0x0b
  const PRESS_REF_L: Byte := 0x0c
  const CALIB_REF_H: Byte := 0x0d
  const CALIB_REF_L: Byte := 0x0e
  const SCRATCH_PAD: Byte := 0x0f
  const SENS_RST: Byte := 0x10

  /** The common registers in address order. */
  const CommonRegisters: seq<Byte> :=
    [PROD_ID, SENS_STS, MEAS_RATE_H, MEAS_RATE_L, MEAS_CFG, GASPPM_H, GASPPM_L, MEAS_STS,
     INT_CFG, ALARM_TH_H, ALARM_TH_L, PRESS_REF_H, PRESS_REF_L, CALIB_REF_H, CALIB_REF_L,
     SCRATCH_PAD, SENS_RST]

  /** The high registers of the five 16-bit quantities (rate, concentration, threshold,
      pressure reference, calibration reference) and their low partners. */
  const WordHighRegisters: seq<Byte> := [MEAS_RATE_H, GASPPM_H, ALARM_TH_H, PRESS_REF_H, CALIB_REF_H]
  const WordLowRegisters: seq<Byte> := [MEAS_RATE_L, GASPPM_L, ALARM_TH_L, PRESS_REF_L, CALIB_REF_L]

  /** The common registers occupy 0x00..0x10 in strictly increasing order, so no two of
      them share an address, and every 16-bit quantity sits at H, H+1. */
  lemma CommonRegisterMap()
    ensures |CommonRegisters| == 17 && CommonRegisters[0] == 0x00 && CommonRegisters[16] == 0x10
    ensures PROD_ID < SENS_STS < MEAS_RATE_H < MEAS_RATE_L < MEAS_CFG < GASPPM_H < GASPPM_L <
            MEAS_STS < INT_CFG < ALARM_TH_H < ALARM_TH_L < PRESS_REF_H < PRESS_REF_L <
            CALIB_REF_H < CALIB_REF_L < SCRATCH_PAD < SENS_RST
    ensures |WordHighRegisters| == |WordLowRegisters| == 5
    ensures forall k :: 0 <= k < 5 ==> WordLowRegisters[k] == WordHighRegisters[k] + 1
  {
  }

  // ------------------- Two-register quantities (high byte first) -------------------

  function Hi(v: Word): Byte { (v >> 8) as Byte }
  function Lo(v: Word): Byte { (v & 0xFF) as Byte }

  /** Bytes of a 16-bit value in wire order (network order): high, then low. */
  function Split(v: Word): (s: seq<Byte>)
    ensures |s| == 2 && Join(s[0], s[1]) == v
  {
    [Hi(v), Lo(v)]
  }

  /** Value of a (high, low) register pair. */
  function Join(h: Byte, l: Byte): (v: Word)
    ensures Hi(v) == h && Lo(v) == l
  {
    (h as Word << 8) | l as Word
  }

  lemma SplitJoin(h: Byte, l: Byte)
    ensures Split(Join(h, l)) == [h, l]
  {
  }

  // ------------------- Bit helpers -------------------

  predicate Bit(b: Byte, pos: nat)
    requires pos < 8
  {
    (b >> pos) & 1 == 1
  }

  function Flag(x: bool, pos: nat): (r: Byte)
    requires pos < 8
  {
    if x then (1 as Byte) << pos else 0
  }

  // ------------------- PROD_ID -------------------

  const PROD_ID_REV_MSK: Byte := 0x1F
  const PROD_ID_PROD_MSK: Byte := 0xE0

  datatype ProdId = ProdId(rev: Bits5, prod: Bits3)

  function PackProdId(p: ProdId): Byte
  {
    p.rev | (p.prod << 5)
  }

  function UnpackProdId(b: Byte): (p: ProdId)
    ensures PackProdId(p) == b
  {
    ProdId(b & PROD_ID_REV_MSK, (b & PROD_ID_PROD_MSK) >> 5)
  }

  lemma ProdIdRoundTrip(p: ProdId)
    ensures UnpackProdId(PackProdId(p)) == p
    ensures PROD_ID_REV_MSK & PROD_ID_PROD_MSK == 0 && PROD_ID_REV_MSK | PROD_ID_PROD_MSK == 0xFF
  {
  }

  // ------------------- SENS_STS -------------------

  const SENS_STS_ICCER_CLR_MSK: Byte := 0x01
  const SENS_STS_ORVS_CLR_MSK: Byte := 0x02
  const SENS_STS_ORTMP_CLR_MSK: Byte := 0x04
  const SENS_STS_ICCER_MSK: Byte := 0x08
  const SENS_STS_ORVS_MSK: Byte := 0x10
  const SENS_STS_ORTMP_MSK: Byte := 0x20
  const SENS_STS_SEN_RDY_MSK: Byte := 0x80

  /** SENS_STS fields; bit 6 has no meaning in the common core (the CO2 variant uses it
      for the PWM_DIS pin status) and is carried as `bit6`. */
  datatype SensStatus = SensStatus(
    iccerClr: bool, orvsClr: bool, ortmpClr: bool,
    iccer: bool, orvs: bool, ortmp: bool, bit6: bool, senRdy: bool)

  function PackSensStatus(s: SensStatus): Byte
  {
    Flag(s.iccerClr, 0) | Flag(s.orvsClr, 1) | Flag(s.ortmpClr, 2) | Flag(s.iccer, 3) |
    Flag(s.orvs, 4) | Flag(s.ortmp, 5) | Flag(s.bit6, 6) | Flag(s.senRdy, 7)
  }

  function UnpackSensStatus(b: Byte): (s: SensStatus)
    ensures PackSensStatus(s) == b
    ensures s.iccer == (b & SENS_STS_ICCER_MSK != 0) && s.orvs == (b & SENS_STS_ORVS_MSK != 0)
    ensures s.ortmp == (b & SENS_STS_ORTMP_MSK != 0) && s.senRdy == (b & SENS_STS_SEN_RDY_MSK != 0)
  {
    SensStatus(Bit(b, 0), Bit(b, 1), Bit(b, 2), Bit(b, 3), Bit(b, 4), Bit(b, 5), Bit(b, 6), Bit(b, 7))
  }

  lemma SensStatusRoundTrip(s: SensStatus)
    ensures UnpackSensStatus(PackSensStatus(s)) == s
  {
  }

  // ------------------- MEAS_CFG -------------------

  const MEAS_CFG_OP_MODE_MSK: Byte := 0x03
  const MEAS_CFG_BOC_CFG_MSK: Byte := 0x0C

  /** MEAS_CFG fields; bits 4-7 are variant-specific (PWM mode and enable on the CO2
      variant) and are carried unchanged as `upper`. */
  datatype MeasConfig = MeasConfig(opMode: Bits2, bocCfg: Bits2, upper: Bits4)

  function PackMeasConfig(c: MeasConfig): Byte
  {
    c.opMode | (c.bocCfg << 2) | (c.upper << 4)
  }

  function UnpackMeasConfig(b: Byte): (c: MeasConfig)
    ensures PackMeasConfig(c) == b
  {
    MeasConfig(b & MEAS_CFG_OP_MODE_MSK, (b & MEAS_CFG_BOC_CFG_MSK) >> 2, b >> 4)
  }

  lemma MeasConfigRoundTrip(c: MeasConfig)
    ensures UnpackMeasConfig(PackMeasConfig(c)) == c
  {
  }

  function OpModeOf(b: Byte): Bits2 { UnpackMeasConfig(b).opMode }
  function BocOf(b: Byte): Bits2 { UnpackMeasConfig(b).bocCfg }

  /** `cfg.b.op_mode = m`: only the OP_MODE bits change. */
  function WithOpMode(b: Byte, m: Bits2): (r: Byte)
    ensures r & MEAS_CFG_OP_MODE_MSK == m
    ensures r & !MEAS_CFG_OP_MODE_MSK == b & !MEAS_CFG_OP_MODE_MSK
    ensures BocOf(r) == BocOf(b)
  {
    PackMeasConfig(UnpackMeasConfig(b).(opMode := m))
  }

  /** Of two writes of OP_MODE the second wins. */
  lemma WithOpModeTwice(b: Byte, m1: Bits2, m2: Bits2)
    ensures WithOpMode(WithOpMode(b, m1), m2) == WithOpMode(b, m2)
  {
  }

  /** `cfg.b.boc_cfg = c`: only the BOC_CFG bits change. */
  function WithBoc(b: Byte, c: Bits2): (r: Byte)
    ensures r & MEAS_CFG_BOC_CFG_MSK == c << 2
    ensures r & !MEAS_CFG_BOC_CFG_MSK == b & !MEAS_CFG_BOC_CFG_MSK
    ensures OpModeOf(r) == OpModeOf(b)
  {
    PackMeasConfig(UnpackMeasConfig(b).(bocCfg := c))
  }

  // ------------------- MEAS_STS -------------------

  const MEAS_STS_ALARM_CLR_MSK: Byte := 0x01
  const MEAS_STS_INT_STS_CLR_MSK: Byte := 0x02
  const MEAS_STS_ALARM_MSK: Byte := 0x04
  const MEAS_STS_INT_STS_MSK: Byte := 0x08
  const MEAS_STS_DRDY_MSK: Byte := 0x10

  /** MEAS_STS fields; bits 5-7 are reserved and carried as `reserved`. */
  datatype MeasStatus = MeasStatus(
    alarmClr: bool, intStsClr: bool, alarm: bool, intSts: bool, drdy: bool, reserved: Bits3)

  function PackMeasStatus(s: MeasStatus): Byte
  {
    Flag(s.alarmClr, 0) | Flag(s.intStsClr, 1) | Flag(s.alarm, 2) | Flag(s.intSts, 3) |
    Flag(s.drdy, 4) | (s.reserved << 5)
  }

  function UnpackMeasStatus(b: Byte): (s: MeasStatus)
    ensures PackMeasStatus(s) == b
    ensures s.drdy == (b & MEAS_STS_DRDY_MSK != 0)
  {
    MeasStatus(Bit(b, 0), Bit(b, 1), Bit(b, 2), Bit(b, 3), Bit(b, 4), b >> 5)
  }

  lemma MeasStatusRoundTrip(s: MeasStatus)
    ensures UnpackMeasStatus(PackMeasStatus(s)) == s
  {
  }

  // ------------------- INT_CFG -------------------

  const INT_CFG_ALARM_TYP_MSK: Byte := 0x01
  const INT_CFG_INT_FUNC_MSK: Byte := 0x0E
  const INT_CFG_INT_TYP_MSK: Byte := 0x10

  /** INT_CFG fields; bits 5-7 are reserved and carried as `reserved`. */
  datatype IntConfig = IntConfig(alarmTyp: bool, intFunc: Bits3, intTyp: bool, reserved: Bits3)

  function PackIntConfig(c: IntConfig): Byte
  {
    Flag(c.alarmTyp, 0) | (c.intFunc << 1) | Flag(c.intTyp, 4) | (c.reserved << 5)
  }

  function UnpackIntConfig(b: Byte): (c: IntConfig)
    ensures PackIntConfig(c) == b
  {
    IntConfig(Bit(b, 0), (b & INT_CFG_INT_FUNC_MSK) >> 1, Bit(b, 4), b >> 5)
  }

  lemma IntConfigRoundTrip(c: IntConfig)
    ensures UnpackIntConfig(PackIntConfig(c)) == c
    ensures INT_CFG_ALARM_TYP_MSK & INT_CFG_INT_FUNC_MSK == 0
    ensures INT_CFG_ALARM_TYP_MSK & INT_CFG_INT_TYP_MSK == 0
    ensures INT_CFG_INT_FUNC_MSK & INT_CFG_INT_TYP_MSK == 0
  {
  }
}
