# XENSIV PAS gas sensor driver: a Dafny model

This project models the core of the Infineon XENSIV PAS gas sensor driver (the CO2,
R290 and A2L sensors) and proves properties of that model. It covers:

- the two register transports: I2C transfers, and the UART ASCII-hex protocol with
  its ACK check and address auto-increment;
- the register façade `set_reg`/`get_reg`, which adds a 5 ms delay after every access;
- the typed register operations and the bit layouts of the common registers;
- the start modes and the base initialisation (communication check, soft reset,
  status check);
- the forced-compensation sequence with its poll loop;
- the variant bindings: CO2 with its save-offset command, A2L with its extended
  registers, and the legacy stand-alone R290 routine.

The platform layer is an oracle. A `Platform.Bus` records every platform call in a
`trace` of wire events and answers each transfer from a finite `script` of replies.
Each reply gives a status and the bytes delivered into the receive buffer. Once the
script is used up, every transfer fails and delivers nothing.

A `Driver.Sensor` is the C handle: its transport, the variant's rates and its
compensation routine. It also keeps a ghost register-level log `ops` of the register
writes, the register reads (with the buffer each read started from and the number of
bytes asked for) and the delays. Through
`Valid()` it proves that each entry of the log is exactly what its transport made of
the replies it consumed, and that every entry since the last initialisation went
through the transport that initialisation bound.

Composite operations (init, the start modes, forced compensation) are specified by
the log they append. Ghost predicates over that log (`InitLog`, `StartLog`,
`FcsTrace`, `SaveLog`, `ResultLog`) state the order of the accesses, the point where
each operation stops on failure, and the result it returns. Lemmas then derive what
the driver promises from these predicates.

Modules follow the source files:

- `Regs`: `xensiv_pas_gas_regs.h`.
- `Api`: the public header's enumerations.
- `Platform`: the platform calls.
- `Transport`: the codecs of `xensiv_pas_gas.c`.
- `Driver`: the façade, register operations, start modes and initialisation.
- `Compensation`: the forced-compensation sequence.
- `Co2`, `A2l`, `R290`: the variants.
- `Dispatch`: the `force_comp` call.

## Model

| member | source | states |
|---|---|---|
| Regs.CommonRegisterMap | src/xensiv_pas_gas_regs.h:38-54 | the common register addresses run 0x00-0x10 in order, and each 16-bit value occupies a high register followed by its low register |
| Regs.Split | src/xensiv_pas_gas.c:347-353 | the two bytes sent for a word after `htons` are high then low, and joining them gives the word back |
| Regs.SplitJoin | src/xensiv_pas_gas.c:328-345 | splitting a joined pair of bytes gives the same bytes back |
| Regs.Join | src/xensiv_pas_gas.c:328-345 | the word built from a register pair has those bytes as its high and low halves |
| Regs.UnpackProdId | src/xensiv_pas_gas_regs.h:57-60 | packing the decoded PROD_ID fields gives the byte back |
| Regs.ProdIdRoundTrip | src/xensiv_pas_gas_regs.h:57-60 | decoding packed PROD_ID fields gives them back, and the revision and product masks are disjoint and cover the byte |
| Regs.UnpackSensStatus | src/xensiv_pas_gas_regs.h:63-76 | each SENS_STS flag is set exactly when its mask bit is set, and the fields pack back to the byte |
| Regs.SensStatusRoundTrip | src/xensiv_pas_gas_regs.h:63-76 | decoding packed SENS_STS fields gives them back |
| Regs.UnpackMeasConfig | src/xensiv_pas_gas_regs.h:86-89 | the MEAS_CFG fields pack back to the byte |
| Regs.MeasConfigRoundTrip | src/xensiv_pas_gas_regs.h:86-89 | decoding packed MEAS_CFG fields gives them back |
| Regs.WithOpMode | src/xensiv_pas_gas.c:408-428 | assigning the `op_mode` bit-field sets bits 0-1 to the mode and leaves every other bit, including the offset-compensation field, unchanged |
| Regs.WithOpModeTwice | src/xensiv_pas_gas.c:414-424 | setting the mode twice is the same as setting it once to the second mode |
| Regs.WithBoc | src/xensiv_pas_gas.c:422-424 | assigning the `boc_cfg` bit-field sets bits 2-3 and leaves every other bit, including the mode, unchanged |
| Regs.UnpackMeasStatus | src/xensiv_pas_gas_regs.h:99-108 | DRDY is set exactly when its mask bit is, and the fields pack back to the byte |
| Regs.MeasStatusRoundTrip | src/xensiv_pas_gas_regs.h:99-108 | decoding packed MEAS_STS fields gives them back |
| Regs.UnpackIntConfig | src/xensiv_pas_gas_regs.h:111-116 | the INT_CFG fields pack back to the byte |
| Regs.IntConfigRoundTrip | src/xensiv_pas_gas_regs.h:111-116 | decoding packed INT_CFG fields gives them back, and the three field masks are pairwise disjoint |
| Api.FromPlat | src/xensiv_pas_gas.c:61-67 | a platform status is `Ok` exactly when it is 0; any other status is passed up unchanged |
| Platform.At | src/xensiv_pas_gas_platform.c:33-41 | past the end of the script, every transfer fails and delivers nothing |
| Platform.Deliver | src/xensiv_pas_gas_platform.c:33-48 | the platform overwrites only the first `n` bytes of the receive buffer that its reply covers, and every other byte keeps its value |
| Platform.DeliverPrefix | src/xensiv_pas_gas_platform.c:43-48 | delivering into a prefix leaves the rest of a longer buffer untouched |
| Platform.Bus.I2cTransfer | src/xensiv_pas_gas_platform.c:33-41 | an I2C transfer records one event, returns the status of the next reply, and fills the receive buffer from it |
| Platform.Bus.UartWrite | src/xensiv_pas_gas_platform.c:50-55 | a UART send records one event and returns the status of the next reply |
| Platform.Bus.UartRead | src/xensiv_pas_gas_platform.c:43-48 | a UART receive records one event, returns the next reply's status, and delivers its bytes |
| Platform.Bus.Delay | src/xensiv_pas_gas_platform.c:57-59 | a delay is recorded and consumes no reply |
| Transport.DigitRoundTrip | src/xensiv_pas_gas.c:41-59 | a nibble is encoded as an upper-case hex character, which decodes back to the nibble |
| Transport.HexDigitRoundTrip | src/xensiv_pas_gas.c:41-59 | every hex character decodes to a nibble whose encoding is that character |
| Transport.HexPairRoundTrip | src/xensiv_pas_gas.c:87-168 | both characters sent for a byte are hex digits, and the decoding the read loop applies gives the byte back |
| Transport.HexPairOfDecode | src/xensiv_pas_gas.c:87-123 | on two hex characters, decoding followed by encoding gives the characters back, so decoding inverts encoding |
| Transport.FramesParse | src/xensiv_pas_gas.c:87-168 | the read request "r,HH\n" and the write request "w,HH,VV\n" name exactly the register and value the driver encoded |
| Transport.ParseFramesExact | src/xensiv_pas_gas.c:87-168 | every well-formed request is the frame the driver builds for the register and value it names |
| Transport.ReadEventsAt | src/xensiv_pas_gas.c:87-123 | read exchange `j` sends the request for register `reg + j` (wrapping at 8 bits) and receives 3 characters |
| Transport.WriteEventsAt | src/xensiv_pas_gas.c:125-168 | write exchange `j` sends `data[j]` for register `reg + j` and receives 2 characters |
| Transport.UartReadOk | src/xensiv_pas_gas.c:87-123 | a UART read succeeds exactly when every send and every receive of its `len` exchanges returns status 0 |
| Transport.UartReadFailure | src/xensiv_pas_gas.c:87-123 | a failed UART read stopped before its last register and returns the status of its first failed transfer |
| Transport.UncheckedReply | src/xensiv_pas_gas.c:105-112 | a read exchange whose send and receive succeed returns Ok with the decoding of the two characters received, hex or not; "GG" is stored as 0x10 |
| Transport.UartReadStored | src/xensiv_pas_gas.c:87-123 | a UART read stores the decoded byte of each exchange that succeeded, and leaves every later byte of the buffer as it was |
| Transport.UartReadAnswered | src/xensiv_pas_gas.c:87-123 | a UART read that the sensor answers with the hex characters of `vals` returns `Ok`, stores exactly `vals`, and uses two replies per register |
| Transport.UartWriteOk | src/xensiv_pas_gas.c:125-168 | a UART write succeeds exactly when every request is sent and every reply is received and starts with ACK; the reply to the soft reset on SENS_RST is the one exception |
| Transport.UartWriteFailure | src/xensiv_pas_gas.c:125-168 | a failed UART write returns the platform status when a request could not be sent, and ERR_COMM when the reply was missing or not ACK |
| Transport.NakRefused | src/xensiv_pas_gas.c:145-157 | a NAK reply to a sent one-byte write makes it fail with ERR_COMM, except for the soft reset, whose reply is ignored |
| Transport.SoftResetReplyIgnored | src/xensiv_pas_gas.c:147-157 | writing the soft-reset command to SENS_RST returns the status of sending it, whatever the sensor replies |
| Transport.UartUsesReplies | src/xensiv_pas_gas.c:87-168 | a UART call on at least one register consumes between one and two replies per register |
| Transport.I2cRead | src/xensiv_pas_gas.c:61-67 | the I2C read is one transfer that sends the address and receives `len` bytes into the caller's buffer, and its result is the platform status |
| Transport.I2cWrite | src/xensiv_pas_gas.c:69-85 | the I2C write copies the address and the data into a 17-byte buffer and sends `[reg] + data` in one transfer |
| Transport.UartRead | src/xensiv_pas_gas.c:87-123 | the UART read loop leaves the result, buffer, wire events and replies used that `UartReadOutcome` gives |
| Transport.UartWrite | src/xensiv_pas_gas.c:125-168 | the UART write loop returns the result and makes exactly the wire events that `UartWriteOutcome` gives |
| Driver.ReadThrough | src/xensiv_pas_gas.c:170-181 | a read keeps the caller's buffer length and, on either transport, consumes at least one reply when it asks for at least one byte |
| Driver.ExhaustedReadFails | src/xensiv_pas_gas.c:61-123 | once the platform has no replies left, every read fails on either transport |
| Driver.StatusPrecedence | src/xensiv_pas_gas.c:200-212 | the status check returns `Ok` exactly when no fault is flagged and the sensor is ready, and ICCER masks ORVS, which masks ORTMP, which masks not-ready |
| Driver.InitEchoFailure | src/xensiv_pas_gas.c:183-215 | a failed communication check returns ERR_COMM after at most two accesses and never writes SENS_RST |
| Driver.InitOk | src/xensiv_pas_gas.c:170-220 | initialisation returns `Ok` exactly when all five steps succeed, the echo matches 0xA5, and the status shows a ready sensor without faults |
| Driver.InitDelayFollowsReset | src/xensiv_pas_gas.c:192-194 | the 2000 ms delay immediately follows the soft reset, whatever the reset returned |
| Driver.InitUndelivered | src/xensiv_pas_gas.c:184-211 | the echo and the status are read into the variable holding 0xA5; an echo read that succeeds without delivering its byte passes the check and the reset follows, and a status read that does the same decodes 0xA5 as ORTMP |
| Driver.InitEchoFails | src/xensiv_pas_gas.c:191-215 | any failed or mismatched echo makes the whole initialisation log, with result ERR_COMM |
| Driver.InitJoin | src/xensiv_pas_gas.c:191-213 | a passed echo followed by the reset step makes the whole initialisation log |
| Driver.ResultNotReady | src/xensiv_pas_gas.c:334-342 | without DRDY, `get_result` returns READ_NRDY, makes no further access, and leaves `*val` unchanged |
| Driver.ResultUndelivered | src/xensiv_pas_gas.c:336-338 | the concentration is read into `*val` itself and converted whatever the read returned, so a read that leaves the buffer as it was returns the caller's value with its bytes swapped |
| Driver.Sensor.SetReg | src/xensiv_pas_gas.c:263-271 | the codec's result passes through unchanged, the 5 ms delay always follows, and one write entry is logged |
| Driver.Sensor.GetReg | src/xensiv_pas_gas.c:273-281 | the codec's result and buffer pass through unchanged, the 5 ms delay always follows, and one read entry is logged with the caller's buffer and length |
| Driver.Sensor.GetId | src/xensiv_pas_gas.c:283-288 | exactly one 1-byte read of PROD_ID into the caller's byte is logged |
| Driver.Sensor.GetStatus | src/xensiv_pas_gas.c:290-295 | exactly one 1-byte read of SENS_STS into the caller's byte is logged |
| Driver.Sensor.ClearStatus | src/xensiv_pas_gas.c:297-301 | the mask is written to SENS_STS, and nothing else |
| Driver.Sensor.GetInterruptConfig | src/xensiv_pas_gas.c:303-308 | exactly one 1-byte read of INT_CFG into the caller's byte is logged |
| Driver.Sensor.SetInterruptConfig | src/xensiv_pas_gas.c:310-314 | the byte is written to INT_CFG |
| Driver.Sensor.GetMeasurementConfig | src/xensiv_pas_gas.c:316-321 | exactly one 1-byte read of MEAS_CFG into the caller's byte is logged |
| Driver.Sensor.SetMeasurementConfig | src/xensiv_pas_gas.c:323-326 | the byte is written to MEAS_CFG |
| Driver.Sensor.GetMeasurementStatus | src/xensiv_pas_gas.c:355-360 | exactly one 1-byte read of MEAS_STS into the caller's byte is logged |
| Driver.Sensor.ClearMeasurementStatus | src/xensiv_pas_gas.c:362-366 | the mask is written to MEAS_STS |
| Driver.Sensor.GetResult | src/xensiv_pas_gas.c:328-345 | reads MEAS_STS; returns its error or READ_NRDY and leaves `*val` alone; with DRDY set, reads two bytes at GASCONC_H into `*val` (stored low byte first) and returns the buffer taken high byte first |
| Driver.Sensor.SetMeasurementRate | src/xensiv_pas_gas.c:347-353 | for a rate in the variant's range, the rate is written high byte first at MEAS_RATE_H |
| Driver.Sensor.SetAlarmThreshold | src/xensiv_pas_gas.c:368-373 | the threshold is written high byte first at ALARM_TH_H |
| Driver.Sensor.SetPressureCompensation | src/xensiv_pas_gas.c:375-380 | the pressure reference is written high byte first at PRESS_REF_H |
| Driver.Sensor.SetOffsetCompensation | src/xensiv_pas_gas.c:382-387 | the offset reference is written high byte first at CALIB_REF_H |
| Driver.Sensor.SetScratchPad | src/xensiv_pas_gas.c:389-393 | the byte is written to SCRATCH_PAD |
| Driver.Sensor.GetScratchPad | src/xensiv_pas_gas.c:395-400 | exactly one 1-byte read of SCRATCH_PAD into the caller's byte is logged |
| Driver.Sensor.Cmd | src/xensiv_pas_gas.c:402-406 | the command byte is written to SENS_RST |
| Driver.Sensor.StartSingleMode | src/xensiv_pas_gas.c:408-428 | reads MEAS_CFG; writes idle only if the sensor was not idle; then writes single mode with automatic compensation; stops at the first failure and returns that access's result |
| Driver.Sensor.StartContinuousMode | src/xensiv_pas_gas.c:430-456 | as the single mode, but writes the rate high byte first between the idle step and the continuous-mode write |
| Driver.Sensor.StartMode | src/xensiv_pas_gas.c:408-456 | the log follows `StartPlan` for the MEAS_CFG byte read and stops at the first failure |
| Driver.StartJoin | src/xensiv_pas_gas.c:414-427 | a completed idle step followed by the mode step makes the start plan of the originally read byte, even though the mode write starts from the idle byte |
| Driver.StartStop | src/xensiv_pas_gas.c:414-419 | a failed idle step ends the start mode with that failure |
| Driver.Sensor.BaseInit | src/xensiv_pas_gas.c:170-220 | binds the transport, every access it and later calls make goes through that transport, and the log it appends satisfies `InitLog`: echo, reset, delay, status, each only after the previous step succeeded |
| Compensation.ForcedCompensation | src/xensiv_pas_gas.c:222-261 | the log is the five set-up accesses, the polls and the final idle write, as `FcsTrace` states; it polls forever only once the platform has no replies left |
| Compensation.BaseForcedCompensation | src/xensiv_pas_gas.c:222-261 | the same sequence at the compensation rate the variant bound at initialisation |
| Compensation.Poll | src/xensiv_pas_gas.c:247-253 | the poll loop repeats while a read fails or the compensation is still running, and ends on a successful read showing it finished; each poll reads into the local the previous one left |
| Compensation.FcsOk | src/xensiv_pas_gas.c:222-261 | `Ok` means: set-up in the source's order, each access successful; at least one poll, the first reading into the configuration last written; the last poll `Ok` and no longer forced; last of all, that polled byte written back with only the mode set to idle |
| Compensation.FcsAbort | src/xensiv_pas_gas.c:225-247 | a failed set-up access ends the routine with its error; every earlier access succeeded and no poll is made |
| Compensation.FcsPollErrorContinues | src/xensiv_pas_gas.c:249-253 | a failed poll never ends the loop |
| Compensation.FcsResultIsLast | src/xensiv_pas_gas.c:222-261 | whenever the routine returns, its result is the result of its last access |
| Compensation.FcsForever | src/xensiv_pas_gas.c:249-253 | polling forever happens only after a complete set-up; no final write is made, and every poll let the loop go on |
| Co2.Init | src/xensiv_pas_gas_co2.c:45-54 | binds the minimum rate 5 s, the compensation rate 10 s and the CO2 routine, then runs the base initialisation |
| Co2.ForcedCompensation | src/xensiv_pas_gas_co2.c:33-43 | runs the common sequence, then sends the save command 0xCF to SENS_RST only when that returned `Ok`, and returns the command's result |
| Co2.SaveOnlyAfterSuccess | src/xensiv_pas_gas_co2.c:33-43 | the save command is sent exactly when the common sequence succeeded, and the routine succeeds exactly when both did |
| Co2.SaveCommandAcked | src/xensiv_pas_gas.c:125-168 | the save command is not the soft reset, so over UART it succeeds only with an ACK reply |
| R290.PerformForcedCompensation | xensiv_pas_gas_r290.c:31-69 | the legacy routine is the common sequence at the fixed rate of 3 s |
| R290.RateWritten | xensiv_pas_gas_r290.c:29-48 | the rate write of the legacy routine is the two bytes 0x00, 0x03 |
| Dispatch.PerformForcedCompensation | src/xensiv_pas_gas.c:458-462 | runs the routine bound in the handle: the base sequence alone, or the CO2 sequence with its save command |
| A2l.Init | src/xensiv_pas_gas_a2l.c:217-226 | binds the minimum rate 3 s, the compensation rate 3 s and the base routine, then runs the base initialisation |
| A2l.PackGasConfig | src/xensiv_pas_gas_a2l.h:65-73 | a packed GAS_CFG byte has its reserved bits 2-3 clear |
| A2l.UnpackGasConfig | src/xensiv_pas_gas_a2l.h:65-73 | packing the decoded fields gives the byte with its reserved bits cleared |
| A2l.GasConfigRoundTrip | src/xensiv_pas_gas_a2l.h:65-73 | decoding packed GAS_CFG fields gives them back |
| A2l.GasConfigToWrite | src/xensiv_pas_gas_a2l.c:109-115 | the byte written has its reserved bits clear, keeps every other bit of the caller's byte, and so keeps both fields |
| A2l.GasConfigWritesFields | src/xensiv_pas_gas_a2l.c:109-115 | the byte written is the packing of the caller's fields |
| A2l.HysteresisBytes | src/xensiv_pas_gas_a2l.c:148-161 | bit 7 of the high byte written is clear |
| A2l.HysteresisOf | src/xensiv_pas_gas_a2l.c:163-173 | the hysteresis read back has bit 15 clear, its low byte is the low register, and its high byte is the high register without bit 7 |
| A2l.HysteresisRoundTrip | src/xensiv_pas_gas_a2l.c:148-173 | reading back the written hysteresis gives the value with bit 15 cleared |
| A2l.HysteresisBytesRoundTrip | src/xensiv_pas_gas_a2l.c:148-173 | register contents with bit 7 of the high byte clear are exactly what writing their value produces |
| A2l.HumidityHigh | src/xensiv_pas_gas_a2l.c:175-189 | the high humidity byte written is at most 3 |
| A2l.HumidityLow | src/xensiv_pas_gas_a2l.c:175-189 | the low humidity byte written is the low byte of the value |
| A2l.HumidityOf | src/xensiv_pas_gas_a2l.c:191-202 | the humidity read back is a 10-bit value built from bits 0-1 of the high byte and the whole low byte |
| A2l.HumidityRoundTrip | src/xensiv_pas_gas_a2l.c:175-202 | reading back the written humidity reference gives the low 10 bits of the value |
| A2l.HumidityBytesRoundTrip | src/xensiv_pas_gas_a2l.c:175-202 | register contents whose high byte is at most 3 are exactly what writing their value produces |
| A2l.HumidityWritten | src/xensiv_pas_gas_a2l.c:175-189 | when both humidity writes succeeded, the registers hold bytes that read back as the low 10 bits of the value |
| A2l.SetDevIdx | src/xensiv_pas_gas_a2l.c:31-35 | the index is written to DEV_ID_IDX |
| A2l.GetDevIdx | src/xensiv_pas_gas_a2l.c:37-42 | exactly one 1-byte read of DEV_ID_IDX into the caller's byte is logged |
| A2l.GetDeviceId | src/xensiv_pas_gas_a2l.c:44-49 | exactly one 1-byte read of DEV_ID into the caller's byte is logged |
| A2l.AbocPrefill | src/xensiv_pas_gas_a2l.c:51-55 | the byte is written to ABOC_PREFILL |
| A2l.SetAlarmConfig | src/xensiv_pas_gas_a2l.c:57-61 | the byte is written to ALARM_CFG |
| A2l.GetAlarmConfig | src/xensiv_pas_gas_a2l.c:63-68 | exactly one 1-byte read of ALARM_CFG into the caller's byte is logged |
| A2l.SetAbocCycle | src/xensiv_pas_gas_a2l.c:70-74 | the byte is written to ABOC_CYCLE |
| A2l.GetAbocCycle | src/xensiv_pas_gas_a2l.c:76-81 | exactly one 1-byte read of ABOC_CYCLE into the caller's byte is logged |
| A2l.SetDenoiseConfig | src/xensiv_pas_gas_a2l.c:83-87 | the byte is written to DENOISE_CFG |
| A2l.GetDenoiseConfig | src/xensiv_pas_gas_a2l.c:89-94 | exactly one 1-byte read of DENOISE_CFG into the caller's byte is logged |
| A2l.GetSelfTest | src/xensiv_pas_gas_a2l.c:96-101 | exactly one 1-byte read of SELF_TEST into the caller's byte is logged |
| A2l.ClearSelfTest | src/xensiv_pas_gas_a2l.c:103-107 | the byte is written to SELF_TEST_CLR |
| A2l.SetHumidityControl | src/xensiv_pas_gas_a2l.c:204-208 | the byte is written to HC_CTRL |
| A2l.GetHumidityControl | src/xensiv_pas_gas_a2l.c:210-215 | exactly one 1-byte read of HC_CTRL into the caller's byte is logged |
| A2l.SetGasConfig | src/xensiv_pas_gas_a2l.c:109-115 | the caller's byte, with its reserved bits cleared, is written to GAS_CFG |
| A2l.GetGasConfig | src/xensiv_pas_gas_a2l.c:117-122 | exactly one 1-byte read of GAS_CFG into the caller's byte is logged |
| A2l.GetGasSelection | src/xensiv_pas_gas_a2l.c:124-134 | one GAS_CFG read into a zeroed local; on success the selection field (bits 0-1), on failure the caller's value is kept and the error returned |
| A2l.GetAvailableGases | src/xensiv_pas_gas_a2l.c:136-146 | one GAS_CFG read into a zeroed local; on success the available-gases field (bits 4-7), on failure the caller's value is kept and the error returned |
| A2l.SetAlarmHysteresis | src/xensiv_pas_gas_a2l.c:148-161 | one two-byte write at ALARM_HYS_H of the 15-bit value, high byte first |
| A2l.GetAlarmHysteresis | src/xensiv_pas_gas_a2l.c:163-173 | one two-byte read at ALARM_HYS_H into a zeroed buffer; the 15-bit value built from it is returned even when the read failed |
| A2l.SetAbsoluteHumidityRef | src/xensiv_pas_gas_a2l.c:175-189 | writes the high register, then the low one only if the first write succeeded, and returns the last result |
| A2l.GetAbsoluteHumidityRef | src/xensiv_pas_gas_a2l.c:191-202 | reads the high register, then the low one only if the first read succeeded, each into a zeroed local; the value is built from both locals, with the low one still 0 if it was not read |

## Left out

- Platform calls: I2C, UART, delay and the device are an oracle, a scripted reply per
  transfer plus a recorded trace. Time does not pass, and delays are only recorded.
- `ctx` and the handle's callbacks `read`/`write` and `force_comp`: `ctx` is not
  modelled. The callbacks become the handle's `itf` and `forceComp` fields, dispatched by `match`.
- `xensiv_pas_gas_plat_assert`: its default implementation does nothing. Each
  assertion on what the caller passes becomes a `requires`. They are: an I2C write of
  at most 15 bytes, a UART start register of at most SENS_RST (`Reaches`), and a
  measurement rate in the variant's range (`Accepts`). Checks against NULL have no
  counterpart. One assertion is on what the sensor sends: `ascii_to_digit` asserts
  that each reply character is a hex digit. The model does not require this of the
  replies. It decodes any byte with the code's unsigned 8-bit arithmetic, so a UART
  read of non-hex characters returns Ok with the value that arithmetic gives
  (`Transport.UncheckedReply`).
- `xensiv_pas_gas_plat_htons`: modelled as the swap of a little-endian host, so a word
  goes on the wire high byte first. The command enumeration is likewise passed as its
  first byte.
- Constants that only the public header `xensiv_pas_gas.h` defines are left abstract,
  and nothing proved depends on their values: the I2C address, MEAS_RATE_MAX, GASCONC_H
  and the OP_MODE and BOC_CFG codes. That header is not part of this model.
- Compensation.ForcedCompensation: the source's poll loop has no bound and never ends
  while every read fails. The model stops when the script is used up, after which
  every read fails, and reports `PollsForever`. It does not prove that a non-empty
  script of failures keeps polling beyond its end.
- R290.PerformForcedCompensation: the legacy file repeats the common sequence
  statement for statement. The model runs the shared `Compensation.ForcedCompensation`
  at rate 3 instead of a second copy.
- Uninitialised locals (the MEAS_STS byte in `get_result`, the MEAS_CFG byte in the
  start modes and in forced compensation) are taken as 0 before the read that fills
  them.
- A2L: the UART codec cannot reach the extended registers. Every A2L accessor
  therefore requires a handle whose transport reaches the register (in practice I2C).
- A2L: the header's bit-field structs other than GAS_CFG (alarm, ABOC cycle, denoise,
  self-test, humidity control) are passed as opaque bytes.
- A2L: the set-device-index function is spelt `xenisv_pas_gas_a2l_set_dev_idx` in the
  source. It is modelled as `A2l.SetDevIdx`.
- The copy of the platform defaults at the repository root (the same stubs, not weak)
  is not modelled separately.
- A2l.SetGasConfig: the source's comment says only bits 1-0 are set, but the code
  writes `(u & 0xF3) | (u & 0x03)`, which keeps bits 4-7 as well. The model follows
  the code.
- A2l.GetAlarmHysteresis: the source masks the high byte with 0x7F before shifting.
  The contract states the resulting 15-bit value, not the raw register pair.
