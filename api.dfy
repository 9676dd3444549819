/**
 * Declarations of the driver's public header: result codes, transport kinds, the
 * operating-mode and offset-compensation enumerations, the soft-reset command and the
 * measurement-rate ceiling. The header itself (xensiv_pas_gas.h) is not part of this
 * model, so the values it alone defines are left abstract: nothing proved here depends
 * on them beyond their type.
 */
module Api {
  import opened Regs

  /** Result of a driver call. `Ok` is 0 in the source (the variant code compares
      results against 0); a non-zero code returned by the platform layer is passed up
      unchanged as `Plat(code)`. */
  datatype Res =
    | Ok
    | ErrComm          // XENSIV_PAS_GAS_ERR_COMM
    | ErrNotReady      // XENSIV_PAS_GAS_ERR_NOT_READY: sensor not ready after reset
    | IccErr           // XENSIV_PAS_GAS_ICCERR
    | Orvs             // XENSIV_PAS_GAS_ORVS
    | Ortmp            // XENSIV_PAS_GAS_ORTMP
    | ReadNotReady     // XENSIV_PAS_GAS_READ_NRDY: no new measurement available
    | Plat(code: int)

  /** Result code of a platform call. */
  function FromPlat(code: int): (r: Res)
    ensures r == Ok <==> code == 0
    ensures r != Ok ==> r == Plat(code)
  {
    if code == 0 then Ok else Plat(code)
  }

  datatype Option<T> = None | Some(value: T)

  /** The two transports a handle can be bound to. */
  datatype Interface = I2C | UART

  /** 7-bit bus address of the sensor. */
  const I2C_ADDR: Word

  /** Upper bound of the measurement rate in seconds. */
  const MEAS_RATE_MAX: Word

  /** Register holding the high byte of the gas concentration result. */
  const GASCONC_H: Byte

  /** Values of MEAS_CFG.OP_MODE. */
  const OP_MODE_IDLE: Bits2
  const OP_MODE_SINGLE: Bits2
  const OP_MODE_CONTINUOUS: Bits2

  /** Values of MEAS_CFG.BOC_CFG. */
  const BOC_CFG_AUTOMATIC: Bits2
  const BOC_CFG_FORCED: Bits2

  /** Soft-reset command written to SENS_RST. */
  const CMD_SOFT_RESET: Byte := 0xA3
}
