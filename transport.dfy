/**
 * The two register-access codecs of the driver core.
 *
 * I2C: a write is one transfer of `[reg] ++ data`; a read sends `[reg]` and receives
 * `len` bytes in the same transfer.
 *
 * UART: one register per exchange, in ASCII hex. A read sends "r,HH\n", receives three
 * characters and decodes the first two; a write sends "w,HH,VV\n", receives two
 * characters and requires the first to be ACK, except when the soft-reset command is
 * written to SENS_RST, whose reply is ignored. The register address advances by one per
 * byte (wrapping at 8 bits) and the loop stops at the first failure.
 *
 * Each codec is given twice: as a function of the prior buffer and the reply script
 * (`I2cReadOutcome`, `I2cWriteOutcome`, `UartReadOutcome`, `UartWriteOutcome`), and as the method
 * the driver runs against a `Bus`, proved equal to that function.
 */
module Transport {
  import opened Regs
  import opened Api
  import opened Platform

  const I2C_WRITE_BUFFER_LEN: nat := 17
  const UART_WRITE_XFER_BUF_SIZE: nat := 8
  const UART_READ_XFER_BUF_SIZE: nat := 5
  const UART_WRITE_XFER_RESP_LEN: nat := 2
  const UART_READ_XFER_RESP_LEN: nat := 3
  const UART_ACK: Byte := 0x06
  /** Defined next to ACK; the codec never compares against it: any byte other than
      ACK is a refusal (`NakRefused`). */
  const UART_NAK: Byte := 0x15

  // ------------------- ASCII hex digits -------------------

  /** The ASCII characters the UART frames use. */
  const CHAR_0: Byte := 0x30      // '0'
  const CHAR_9: Byte := 0x39      // '9'
  const CHAR_A: Byte := 0x41      // 'A'
  const CHAR_F: Byte := 0x46      // 'F'
  const CHAR_R: Byte := 0x72      // 'r'
  const CHAR_W: Byte := 0x77      // 'w'
  const CHAR_COMMA: Byte := 0x2C  // ','
  const CHAR_LF: Byte := 0x0A     // '\n'

  predicate IsHexChar(c: Byte)
  {
    (CHAR_0 <= c <= CHAR_9) || (CHAR_A <= c <= CHAR_F)
  }

  /** `digit_to_ascii`: upper-case hex character of a nibble. */
  function DigitToAscii(d: Byte): Byte
    requires d <= 0xF
  {
    if d < 10 then d + 0x30 else d + 0x37
  }

  /** `ascii_to_digit`. The source only asserts (with a no-op platform assert) that the
      character is a hex digit; the characters come from the device, so the model keeps
      the unsigned 8-bit arithmetic of the code for every input. */
  function AsciiToDigit(c: Byte): Byte
  {
    if c < CHAR_A then c - CHAR_0 else 10 + (c - CHAR_A)
  }

  /** Encoding a nibble yields '0'-'9' or 'A'-'F', and decoding gives the nibble back. */
  lemma DigitRoundTrip(d: Byte)
    requires d <= 0xF
    ensures IsHexChar(DigitToAscii(d))
    ensures AsciiToDigit(DigitToAscii(d)) == d
  {
  }

  /** Every hex character decodes to a nibble whose encoding is that character. */
  lemma HexDigitRoundTrip(c: Byte)
    requires IsHexChar(c)
    ensures AsciiToDigit(c) <= 0xF
    ensures DigitToAscii(AsciiToDigit(c)) == c
  {
  }

  /** Two hex characters of a byte, high nibble first. */
  function HexPair(b: Byte): (s: seq<Byte>)
    ensures |s| == 2
  {
    [DigitToAscii((b & 0xF0) >> 4), DigitToAscii(b & 0x0F)]
  }

  /** `(ascii_to_digit(hi) << 4) + ascii_to_digit(lo)`, truncated to 8 bits. */
  function HexDecode(hi: Byte, lo: Byte): Byte
  {
    (AsciiToDigit(hi) << 4) + AsciiToDigit(lo)
  }

  /** The two characters of a byte are hex digits and decode back to the byte. */
  lemma HexPairRoundTrip(b: Byte)
    ensures IsHexChar(HexPair(b)[0]) && IsHexChar(HexPair(b)[1])
    ensures HexDecode(HexPair(b)[0], HexPair(b)[1]) == b
  {
    DigitRoundTrip((b & 0xF0) >> 4);
    DigitRoundTrip(b & 0x0F);
  }

  /** A byte built from two nibbles gives them back under the masks `HexPair` uses. */
  lemma NibbleSplit(a: Byte, b: Byte)
    requires a <= 0xF && b <= 0xF
    ensures (((a << 4) + b) & 0xF0) >> 4 == a
    ensures ((a << 4) + b) & 0x0F == b
  {
  }

  /** On pairs of hex characters decoding is injective: it inverts `HexPair`. */
  lemma HexPairOfDecode(hi: Byte, lo: Byte)
    requires IsHexChar(hi) && IsHexChar(lo)
    ensures HexPair(HexDecode(hi, lo)) == [hi, lo]
  {
    HexDigitRoundTrip(hi);
    HexDigitRoundTrip(lo);
    NibbleSplit(AsciiToDigit(hi), AsciiToDigit(lo));
  }

  // ------------------- UART frames -------------------

  /** Sensor-side view of a read request: the register it names. */
  function ParseReadFrame(f: seq<Byte>): Option<Byte>
  {
    if |f| == UART_READ_XFER_BUF_SIZE && f[0] == CHAR_R && f[1] == CHAR_COMMA &&
       IsHexChar(f[2]) && IsHexChar(f[3]) && f[4] == CHAR_LF
    then Some(HexDecode(f[2], f[3]))
    else None
  }

  /** Sensor-side view of a write request: the register and the value it names. */
  function ParseWriteFrame(f: seq<Byte>): Option<(Byte, Byte)>
  {
    if |f| == UART_WRITE_XFER_BUF_SIZE && f[0] == CHAR_W && f[1] == CHAR_COMMA &&
       IsHexChar(f[2]) && IsHexChar(f[3]) && f[4] == CHAR_COMMA &&
       IsHexChar(f[5]) && IsHexChar(f[6]) && f[7] == CHAR_LF
    then Some((HexDecode(f[2], f[3]), HexDecode(f[5], f[6])))
    else None
  }

  /** The read request "r,HH\n" for register `addr`. */
  function ReadFrame(addr: Byte): (f: seq<Byte>)
    ensures |f| == UART_READ_XFER_BUF_SIZE
  {
    [CHAR_R, CHAR_COMMA] + HexPair(addr) + [CHAR_LF]
  }

  /** The write request "w,HH,VV\n" for value `v` at register `addr`. */
  function WriteFrame(addr: Byte, v: Byte): (f: seq<Byte>)
    ensures |f| == UART_WRITE_XFER_BUF_SIZE
  {
    [CHAR_W, CHAR_COMMA] + HexPair(addr) + [CHAR_COMMA] + HexPair(v) + [CHAR_LF]
  }

  /** The sensor reads back from each request exactly what the driver put in it. */
  lemma FramesParse(addr: Byte, v: Byte)
    ensures ParseReadFrame(ReadFrame(addr)) == Some(addr)
    ensures ParseWriteFrame(WriteFrame(addr, v)) == Some((addr, v))
  {
    var h, w := HexPair(addr), HexPair(v);
    HexPairRoundTrip(addr);
    HexPairRoundTrip(v);
    assert ReadFrame(addr)[2..4] == h;
    assert WriteFrame(addr, v)[2..4] == h && WriteFrame(addr, v)[5..7] == w;
  }

  /** A frame the sensor accepts is exactly the frame the driver builds for it. */
  lemma ParseFramesExact(f: seq<Byte>)
    ensures ParseReadFrame(f).Some? ==> f == ReadFrame(ParseReadFrame(f).value)
    ensures ParseWriteFrame(f).Some? ==>
              f == WriteFrame(ParseWriteFrame(f).value.0, ParseWriteFrame(f).value.1)
  {
    if ParseReadFrame(f).Some? {
      HexPairOfDecode(f[2], f[3]);
    }
    if ParseWriteFrame(f).Some? {
      HexPairOfDecode(f[2], f[3]);
      HexPairOfDecode(f[5], f[6]);
    }
  }


  /** Register `j` places after `addr`, with the 8-bit wrap of `reg_addr++`. */
  function Offset(addr: Byte, j: nat): Byte
    decreases j
  {
    if j == 0 then addr else Offset(addr, j - 1) + 1
  }

  // ------------------- Wire events of the UART loops -------------------

  /** Wire events of `n` successful UART register reads starting at `reg`. */
  function ReadEvents(reg: Byte, n: nat): (e: seq<Event>)
    ensures |e| == 2 * n
    decreases n
  {
    if n == 0 then []
    else ReadEvents(reg, n - 1) + [UartTx(ReadFrame(Offset(reg, n - 1))), UartRx(UART_READ_XFER_RESP_LEN)]
  }

  /** Wire events of successful UART register writes of `data[..n]` starting at `reg`. */
  function WriteEvents(reg: Byte, data: seq<Byte>, n: nat): (e: seq<Event>)
    requires n <= |data|
    ensures |e| == 2 * n
    decreases n
  {
    if n == 0 then []
    else WriteEvents(reg, data, n - 1) +
         [UartTx(WriteFrame(Offset(reg, n - 1), data[n - 1])), UartRx(UART_WRITE_XFER_RESP_LEN)]
  }

  /** Read exchange `j` sends the request for register `reg + j` and receives three bytes. */
  lemma {:induction false} ReadEventsAt(reg: Byte, n: nat, j: nat)
    requires j < n
    ensures ReadEvents(reg, n)[2 * j] == UartTx(ReadFrame(Offset(reg, j)))
    ensures ReadEvents(reg, n)[2 * j + 1] == UartRx(UART_READ_XFER_RESP_LEN)
    decreases n
  {
    if j < n - 1 {
      ReadEventsAt(reg, n - 1, j);
    }
  }

  /** Write exchange `j` sends `data[j]` for register `reg + j` and receives two bytes. */
  lemma {:induction false} WriteEventsAt(reg: Byte, data: seq<Byte>, n: nat, j: nat)
    requires j < n <= |data|
    ensures WriteEvents(reg, data, n)[2 * j] == UartTx(WriteFrame(Offset(reg, j), data[j]))
    ensures WriteEvents(reg, data, n)[2 * j + 1] == UartRx(UART_WRITE_XFER_RESP_LEN)
    decreases n
  {
    if j < n - 1 {
      WriteEventsAt(reg, data, n - 1, j);
    }
  }

  // ------------------- Outcomes of the codecs -------------------

  /** What a register read leaves behind: its result, the wire events, the whole
      receive buffer afterwards and the number of replies it used. */
  datatype ReadOutcome = ReadOutcome(res: Res, events: seq<Event>, data: seq<Byte>, used: nat)

  /** What a register write leaves behind. */
  datatype WriteOutcome = WriteOutcome(res: Res, events: seq<Event>, used: nat)

  /** `xensiv_pas_gas_i2c_read` meeting the script at reply `p`: one transfer sending the
      register address and receiving `len` bytes into the buffer `prior`. */
  function I2cReadOutcome(reg: Byte, prior: seq<Byte>, len: nat, script: seq<Reply>, p: nat): (o: ReadOutcome)
    requires len <= |prior|
  {
    ReadOutcome(FromPlat(At(script, p).status), [I2cXfer(I2C_ADDR, [reg], len)],
                Deliver(prior, len, At(script, p).rx), 1)
  }

  /** `xensiv_pas_gas_i2c_write`: one transfer of the register address followed by `data`. */
  function I2cWriteOutcome(reg: Byte, data: seq<Byte>, script: seq<Reply>, p: nat): (o: WriteOutcome)
  {
    WriteOutcome(FromPlat(At(script, p).status), [I2cXfer(I2C_ADDR, [reg] + data, 0)], 1)
  }

  /** One pass of a UART loop: its result, its wire events, the byte it carries (read:
      the decoded reply; write: the byte sent) and how many replies it used. */
  datatype Exchange = Exchange(res: Res, events: seq<Event>, value: Byte, used: nat)

  /** The byte a read of register `addr` stores when the receive delivered `rx` into the
      request buffer: the first two characters of the buffer, decoded. */
  function ReadValue(addr: Byte, rx: seq<Byte>): Byte
  {
    var buf := Deliver(ReadFrame(addr), UART_READ_XFER_RESP_LEN, rx);
    HexDecode(buf[0], buf[1])
  }

  /** One pass of the UART read loop for register `addr`, answered from reply `p` on:
      send the request; if that succeeded, receive three characters into the request
      buffer and decode two. */
  function ReadExchange(addr: Byte, script: seq<Reply>, p: nat): (x: Exchange)
  {
    var tx := UartTx(ReadFrame(addr));
    if At(script, p).status != 0 then Exchange(FromPlat(At(script, p).status), [tx], 0, 1)
    else if At(script, p + 1).status != 0 then
      Exchange(FromPlat(At(script, p + 1).status), [tx, UartRx(UART_READ_XFER_RESP_LEN)], 0, 2)
    else Exchange(Ok, [tx, UartRx(UART_READ_XFER_RESP_LEN)], ReadValue(addr, At(script, p + 1).rx), 2)
  }

  /** The first character of a write reply is ACK. */
  predicate Acked(rx: seq<Byte>)
  {
    |rx| > 0 && rx[0] == UART_ACK
  }

  /** The soft-reset command to SENS_RST succeeds whatever the sensor replies. */
  predicate IgnoresReply(addr: Byte, v: Byte)
  {
    addr == SENS_RST && v == CMD_SOFT_RESET
  }

  /** One pass of the UART write loop for `v` at register `addr`: send the request; if
      that succeeded, receive two characters; unless the reply is ignored, the pass
      succeeds only on a successful receive starting with ACK. */
  function WriteExchange(addr: Byte, v: Byte, script: seq<Reply>, p: nat): (x: Exchange)
  {
    var tx := UartTx(WriteFrame(addr, v));
    if At(script, p).status != 0 then Exchange(FromPlat(At(script, p).status), [tx], v, 1)
    else if IgnoresReply(addr, v) || (At(script, p + 1).status == 0 && Acked(At(script, p + 1).rx)) then
      Exchange(Ok, [tx, UartRx(UART_WRITE_XFER_RESP_LEN)], v, 2)
    else Exchange(ErrComm, [tx, UartRx(UART_WRITE_XFER_RESP_LEN)], v, 2)
  }

  /** Pass `j` of a UART read from `reg` that started at reply `p`. */
  function ReadPass(reg: Byte, script: seq<Reply>, p: nat, j: nat): Exchange
  {
    ReadExchange(Offset(reg, j), script, p + 2 * j)
  }

  /** Pass `j` of a UART write of `data` to `reg` that started at reply `p`. */
  function WritePass(reg: Byte, data: seq<Byte>, script: seq<Reply>, p: nat, j: nat): Exchange
    requires j < |data|
  {
    WriteExchange(Offset(reg, j), data[j], script, p + 2 * j)
  }

  /** Number of passes of a UART read of `len` registers that succeed before the first
      failing one. */
  function ReadsDone(reg: Byte, script: seq<Reply>, p: nat, len: nat): (n: nat)
    ensures n <= len
    ensures forall j :: 0 <= j < n ==> ReadPass(reg, script, p, j).res == Ok
    ensures n < len ==> ReadPass(reg, script, p, n).res != Ok
  {
    if len == 0 then 0
    else
      var m := ReadsDone(reg, script, p, len - 1);
      if m == len - 1 && ReadPass(reg, script, p, len - 1).res == Ok then len else m
  }

  /** Number of passes of a UART write of `data[..len]` that succeed before the first
      failing one. */
  function WritesDone(reg: Byte, data: seq<Byte>, script: seq<Reply>, p: nat, len: nat): (n: nat)
    requires len <= |data|
    ensures n <= len
    ensures forall j :: 0 <= j < n ==> WritePass(reg, data, script, p, j).res == Ok
    ensures n < len ==> WritePass(reg, data, script, p, n).res != Ok
  {
    if len == 0 then 0
    else
      var m := WritesDone(reg, data, script, p, len - 1);
      if m == len - 1 && WritePass(reg, data, script, p, len - 1).res == Ok then len else m
  }

  /** The buffer `prior` after the first `n` read passes stored their bytes. */
  function Filled(reg: Byte, prior: seq<Byte>, n: nat, script: seq<Reply>, p: nat): (d: seq<Byte>)
    ensures |d| == |prior|
  {
    seq(|prior|, k requires 0 <= k < |prior| => if k < n then ReadPass(reg, script, p, k).value else prior[k])
  }

  /** `xensiv_pas_gas_uart_read` of `len` registers into the buffer `prior`: the first
      `n` passes succeed and store their bytes; the loop ends after all of them or at the
      first failing pass, whose result it returns. */
  function UartReadOutcome(reg: Byte, prior: seq<Byte>, len: nat, script: seq<Reply>, p: nat): (o: ReadOutcome)
    requires len <= |prior|
  {
    var n := ReadsDone(reg, script, p, len);
    if n == len then ReadOutcome(Ok, ReadEvents(reg, n), Filled(reg, prior, n, script, p), 2 * n)
    else
      var x := ReadPass(reg, script, p, n);
      ReadOutcome(x.res, ReadEvents(reg, n) + x.events, Filled(reg, prior, n, script, p), 2 * n + x.used)
  }

  /** `xensiv_pas_gas_uart_write` of `data`. */
  function UartWriteOutcome(reg: Byte, data: seq<Byte>, script: seq<Reply>, p: nat): (o: WriteOutcome)
  {
    var n := WritesDone(reg, data, script, p, |data|);
    if n == |data| then WriteOutcome(Ok, WriteEvents(reg, data, n), 2 * n)
    else
      var x := WritePass(reg, data, script, p, n);
      WriteOutcome(x.res, WriteEvents(reg, data, n) + x.events, 2 * n + x.used)
  }

  /** Storing the byte of pass `i` extends the filled prefix by one. */
  lemma FilledStep(reg: Byte, prior: seq<Byte>, i: nat, script: seq<Reply>, p: nat)
    requires i < |prior|
    ensures Filled(reg, prior, i, script, p)[i := ReadPass(reg, script, p, i).value] ==
            Filled(reg, prior, i + 1, script, p)
  {
  }

  /** A read whose first `i` passes succeed and whose pass `i` fails (or which has no
      pass `i`) has the outcome of stopping there. */
  lemma ReadStopsAt(reg: Byte, prior: seq<Byte>, len: nat, script: seq<Reply>, p: nat, i: nat)
    requires len <= |prior| && i <= len
    requires forall j :: 0 <= j < i ==> ReadPass(reg, script, p, j).res == Ok
    requires i < len ==> ReadPass(reg, script, p, i).res != Ok
    ensures var x := ReadPass(reg, script, p, i);
      UartReadOutcome(reg, prior, len, script, p) ==
      if i == len then ReadOutcome(Ok, ReadEvents(reg, i), Filled(reg, prior, i, script, p), 2 * i)
      else ReadOutcome(x.res, ReadEvents(reg, i) + x.events, Filled(reg, prior, i, script, p), 2 * i + x.used)
  {
    assert ReadsDone(reg, script, p, len) == i;
  }

  /** The same for writes. */
  lemma WriteStopsAt(reg: Byte, data: seq<Byte>, script: seq<Reply>, p: nat, i: nat)
    requires i <= |data|
    requires forall j :: 0 <= j < i ==> WritePass(reg, data, script, p, j).res == Ok
    requires i < |data| ==> WritePass(reg, data, script, p, i).res != Ok
    ensures UartWriteOutcome(reg, data, script, p) ==
      if i == |data| then WriteOutcome(Ok, WriteEvents(reg, data, i), 2 * i)
      else
        var x := WritePass(reg, data, script, p, i);
        WriteOutcome(x.res, WriteEvents(reg, data, i) + x.events, 2 * i + x.used)
  {
    assert WritesDone(reg, data, script, p, |data|) == i;
  }

  // ------------------- Properties of the UART codec -------------------

  /** Both replies of read pass `j` (from reply `p`) have status 0. */
  predicate ReadReplied(script: seq<Reply>, p: nat, j: nat)
  {
    At(script, p + 2 * j).status == 0 && At(script, p + 2 * j + 1).status == 0
  }

  /** A UART read succeeds exactly when every transfer of its `len` passes gets status
      0: the reply bytes cannot make it fail. */
  lemma UartReadOk(reg: Byte, prior: seq<Byte>, len: nat, script: seq<Reply>, p: nat)
    requires len <= |prior|
    ensures UartReadOutcome(reg, prior, len, script, p).res == Ok <==>
            forall j :: 0 <= j < len ==> ReadReplied(script, p, j)
  {
    var n := ReadsDone(reg, script, p, len);
    forall j | 0 <= j < len
      ensures ReadPass(reg, script, p, j).res == Ok <==> ReadReplied(script, p, j)
    {
    }
  }

  /** A failed UART read returns the status of its first failed transfer. */
  lemma UartReadFailure(reg: Byte, prior: seq<Byte>, len: nat, script: seq<Reply>, p: nat)
    requires len <= |prior|
    ensures var o := UartReadOutcome(reg, prior, len, script, p);
      var q := p + 2 * ReadsDone(reg, script, p, len);
      o.res != Ok ==>
        ReadsDone(reg, script, p, len) < len &&
        o.res == Plat(if At(script, q).status != 0 then At(script, q).status else At(script, q + 1).status)
  {
  }

  /** A UART read stores the bytes of the passes that succeeded and leaves every later
      byte of the buffer as it was. */
  lemma UartReadStored(reg: Byte, prior: seq<Byte>, len: nat, script: seq<Reply>, p: nat)
    requires len <= |prior|
    ensures var o := UartReadOutcome(reg, prior, len, script, p);
      var n := ReadsDone(reg, script, p, len);
      (forall k :: 0 <= k < n ==> o.data[k] == ReadValue(Offset(reg, k), At(script, p + 2 * k + 1).rx)) &&
      (forall k :: n <= k < |prior| ==> o.data[k] == prior[k])
  {
    var n := ReadsDone(reg, script, p, len);
    var d := Filled(reg, prior, n, script, p);
    assert UartReadOutcome(reg, prior, len, script, p).data == d;
    forall k | 0 <= k < n
      ensures d[k] == ReadValue(Offset(reg, k), At(script, p + 2 * k + 1).rx)
    {
      assert ReadPass(reg, script, p, k).res == Ok;
    }
  }

  /** Decoding the two characters the sensor sends for `v` gives `v` back. */
  lemma ReadValueOfPair(addr: Byte, rx: seq<Byte>, v: Byte)
    requires |rx| >= 2 && rx[..2] == HexPair(v)
    ensures ReadValue(addr, rx) == v
  {
    var buf := Deliver(ReadFrame(addr), UART_READ_XFER_RESP_LEN, rx);
    assert buf[0] == HexPair(v)[0] && buf[1] == HexPair(v)[1];
    HexPairRoundTrip(v);
  }

  /** `ascii_to_digit` only asserts that a character is a hex digit, so nothing checks
      the characters the sensor sends: a read pass whose send and receive succeed
      returns Ok with the decoding of whatever two characters arrived. The reply "GG",
      for one, is stored as 0x10. */
  lemma UncheckedReply(addr: Byte, script: seq<Reply>, p: nat)
    requires At(script, p).status == 0 && At(script, p + 1).status == 0 && |At(script, p + 1).rx| >= 2
    ensures var rx, x := At(script, p + 1).rx, ReadExchange(addr, script, p);
      x.res == Ok && x.value == HexDecode(rx[0], rx[1])
    ensures !IsHexChar(0x47) && HexDecode(0x47, 0x47) == 0x10  // 0x47 is 'G'
  {
    var rx := At(script, p + 1).rx;
    var buf := Deliver(ReadFrame(addr), UART_READ_XFER_RESP_LEN, rx);
    assert buf[0] == rx[0] && buf[1] == rx[1];
  }

  /** The sensor answers read pass `j` of `vals` with status 0 and the two hex
      characters of `vals[j]`. */
  predicate AnswersReads(script: seq<Reply>, p: nat, vals: seq<Byte>)
  {
    forall j :: 0 <= j < |vals| ==>
      ReadReplied(script, p, j) && |At(script, p + 2 * j + 1).rx| >= 2 &&
      At(script, p + 2 * j + 1).rx[..2] == HexPair(vals[j])
  }

  /** A UART read the sensor answers with `vals` succeeds, stores exactly `vals`, sends
      one request per register and uses two replies per register. */
  lemma UartReadAnswered(reg: Byte, prior: seq<Byte>, script: seq<Reply>, p: nat, vals: seq<Byte>)
    requires |vals| <= |prior| && AnswersReads(script, p, vals)
    ensures var o := UartReadOutcome(reg, prior, |vals|, script, p);
      o.res == Ok && o.data == vals + prior[|vals|..] && o.events == ReadEvents(reg, |vals|) &&
      o.used == 2 * |vals|
  {
    UartReadOk(reg, prior, |vals|, script, p);
    var o := UartReadOutcome(reg, prior, |vals|, script, p);
    forall k | 0 <= k < |vals|
      ensures o.data[k] == vals[k]
    {
      ReadValueOfPair(Offset(reg, k), At(script, p + 2 * k + 1).rx, vals[k]);
    }
    assert o.data == vals + prior[|vals|..];
  }

  /** Both replies of write pass `j` accept the byte `v` sent to `addr`. */
  predicate WriteReplied(script: seq<Reply>, p: nat, j: nat, addr: Byte, v: Byte)
  {
    At(script, p + 2 * j).status == 0 &&
    (IgnoresReply(addr, v) || (At(script, p + 2 * j + 1).status == 0 && Acked(At(script, p + 2 * j + 1).rx)))
  }

  /** A UART write succeeds exactly when every request is sent and every reply is
      received and starts with ACK, except that the reply to the soft-reset command at
      SENS_RST is ignored. */
  lemma UartWriteOk(reg: Byte, data: seq<Byte>, script: seq<Reply>, p: nat)
    ensures UartWriteOutcome(reg, data, script, p).res == Ok <==>
            forall j :: 0 <= j < |data| ==> WriteReplied(script, p, j, Offset(reg, j), data[j])
  {
    var n := WritesDone(reg, data, script, p, |data|);
    forall j | 0 <= j < |data|
      ensures WritePass(reg, data, script, p, j).res == Ok <==> WriteReplied(script, p, j, Offset(reg, j), data[j])
    {
    }
  }

  /** A failed UART write returns the platform's status when the request could not be
      sent, and ERR_COMM when the reply was missing or not ACK. */
  lemma UartWriteFailure(reg: Byte, data: seq<Byte>, script: seq<Reply>, p: nat)
    ensures var o := UartWriteOutcome(reg, data, script, p);
      var n := WritesDone(reg, data, script, p, |data|);
      var q := p + 2 * n;
      o.res != Ok ==>
        n < |data| &&
        (At(script, q).status != 0 ==> o.res == Plat(At(script, q).status) && o.used == 2 * n + 1) &&
        (At(script, q).status == 0 ==> o.res == ErrComm && !IgnoresReply(Offset(reg, n), data[n]) &&
                                       o.used == 2 * n + 2)
  {
  }

  /** A NAK reply to a sent request makes a one-byte write fail with ERR_COMM, unless it
      is the soft reset, whose reply is ignored. */
  lemma NakRefused(addr: Byte, v: Byte, script: seq<Reply>, p: nat)
    requires At(script, p).status == 0 && At(script, p + 1).status == 0
    requires |At(script, p + 1).rx| > 0 && At(script, p + 1).rx[0] == UART_NAK
    ensures UartWriteOutcome(addr, [v], script, p).res == if IgnoresReply(addr, v) then Ok else ErrComm
  {
    UartWriteOk(addr, [v], script, p);
    UartWriteFailure(addr, [v], script, p);
  }

  /** Writing the soft-reset command to SENS_RST succeeds whatever the sensor replies,
      but a request that could not be sent still fails with the platform's status. */
  lemma SoftResetReplyIgnored(script: seq<Reply>, p: nat)
    ensures UartWriteOutcome(SENS_RST, [CMD_SOFT_RESET], script, p).res == FromPlat(At(script, p).status)
  {
    assert WritesDone(SENS_RST, [CMD_SOFT_RESET], script, p, 1) == if At(script, p).status == 0 then 1 else 0;
  }

  /** Every UART transfer of a call answers one reply: a call of `len >= 1` registers
      uses at least one reply and at most two per register. */
  lemma UartUsesReplies(reg: Byte, prior: seq<Byte>, data: seq<Byte>, script: seq<Reply>, p: nat)
    requires |data| <= |prior|
    ensures 1 <= |data| ==> 1 <= UartReadOutcome(reg, prior, |data|, script, p).used <= 2 * |data|
    ensures 1 <= |data| ==> 1 <= UartWriteOutcome(reg, data, script, p).used <= 2 * |data|
  {
  }

  // ------------------- The codecs -------------------

  /** `xensiv_pas_gas_i2c_read`. */
  method I2cRead(bus: Bus, reg: Byte, data: array<Byte>, len: nat) returns (res: Res)
    requires len <= data.Length
    modifies bus, data
    ensures var o := I2cReadOutcome(reg, old(data[..]), len, bus.script, old(bus.used));
      res == o.res && data[..] == o.data && bus.trace == old(bus.trace) + o.events &&
      bus.used == old(bus.used) + o.used
  {
    var status := bus.I2cTransfer(I2C_ADDR, [reg], data, len);
    res := FromPlat(status);
  }

  /** `xensiv_pas_gas_i2c_write`: the register address and the data are copied into a
      buffer of `I2C_WRITE_BUFFER_LEN` bytes, which must hold them. */
  method I2cWrite(bus: Bus, reg: Byte, data: seq<Byte>) returns (res: Res)
    requires |data| + 1 < I2C_WRITE_BUFFER_LEN
    modifies bus
    ensures var o := I2cWriteOutcome(reg, data, bus.script, old(bus.used));
      res == o.res && bus.trace == old(bus.trace) + o.events && bus.used == old(bus.used) + o.used
  {
    var wData := new Byte[I2C_WRITE_BUFFER_LEN];
    wData[0] := reg;
    var i := 0;
    while i < |data|
      invariant 0 <= i <= |data|
      invariant wData[..i + 1] == [reg] + data[..i]
      modifies wData
    {
      wData[i + 1] := data[i];
      i := i + 1;
    }
    assert wData[..|data| + 1] == [reg] + data;
    var status := bus.I2cTransfer(I2C_ADDR, wData[..|data| + 1], null, 0);
    res := FromPlat(status);
  }

  /** The request buffer of a UART read, as the loop initialises it. */
  method NewReadFrame(addr: Byte) returns (buf: array<Byte>)
    ensures fresh(buf) && buf[..] == ReadFrame(addr)
  {
    buf := new Byte[UART_READ_XFER_BUF_SIZE];
    buf[0], buf[1], buf[2], buf[3], buf[4] :=
      CHAR_R, CHAR_COMMA, DigitToAscii((addr & 0xF0) >> 4), DigitToAscii(addr & 0x0F), CHAR_LF;
  }

  /** The request buffer of a UART write. */
  method NewWriteFrame(addr: Byte, v: Byte) returns (buf: array<Byte>)
    ensures fresh(buf) && buf[..] == WriteFrame(addr, v)
  {
    buf := new Byte[UART_WRITE_XFER_BUF_SIZE];
    buf[0], buf[1], buf[2], buf[3] := CHAR_W, CHAR_COMMA, DigitToAscii((addr & 0xF0) >> 4), DigitToAscii(addr & 0x0F);
    buf[4], buf[5], buf[6], buf[7] := CHAR_COMMA, DigitToAscii((v & 0xF0) >> 4), DigitToAscii(v & 0x0F), CHAR_LF;
  }

  /** Body of the UART read loop for register `addr`: the request is built in a
      five-byte buffer that then receives the answer. */
  method UartReadPass(bus: Bus, addr: Byte) returns (res: Res, value: Byte)
    modifies bus
    ensures var x := ReadExchange(addr, bus.script, old(bus.used));
      res == x.res && value == x.value && bus.trace == old(bus.trace) + x.events &&
      bus.used == old(bus.used) + x.used
  {
    var buf := NewReadFrame(addr);
    var status := bus.UartWrite(buf[..]);
    res, value := FromPlat(status), 0;
    if res == Ok {
      status := bus.UartRead(buf, UART_READ_XFER_RESP_LEN);
      res := FromPlat(status);
      if res == Ok {
        value := HexDecode(buf[0], buf[1]);
      }
    }
  }

  /** Body of the UART write loop for `v` at register `addr`. */
  method UartWritePass(bus: Bus, addr: Byte, v: Byte) returns (res: Res)
    modifies bus
    ensures var x := WriteExchange(addr, v, bus.script, old(bus.used));
      res == x.res && bus.trace == old(bus.trace) + x.events && bus.used == old(bus.used) + x.used
  {
    var buf := NewWriteFrame(addr, v);
    ghost var p := bus.used;
    var status := bus.UartWrite(buf[..]);
    res := FromPlat(status);
    if res == Ok {
      status := bus.UartRead(buf, UART_WRITE_XFER_RESP_LEN);
      assert buf[0] == UART_ACK <==> Acked(At(bus.script, p + 1).rx);
      if addr != SENS_RST || v != CMD_SOFT_RESET {
        res := if status == 0 then (if buf[0] == UART_ACK then Ok else ErrComm) else ErrComm;
      } else {
        res := Ok;
      }
    }
  }

  /** `xensiv_pas_gas_uart_read`. */
  method UartRead(bus: Bus, reg: Byte, data: array<Byte>, len: nat) returns (res: Res)
    requires reg <= SENS_RST && len <= data.Length
    modifies bus, data
    ensures var o := UartReadOutcome(reg, old(data[..]), len, bus.script, old(bus.used));
      res == o.res && data[..] == o.data && bus.trace == old(bus.trace) + o.events &&
      bus.used == old(bus.used) + o.used
  {
    ghost var p, trace, prior := bus.used, bus.trace, data[..];
    res := Ok;
    var addr := reg;
    var i := 0;
    while i < len
      invariant 0 <= i <= len && res == Ok
      invariant addr == Offset(reg, i)
      invariant forall j :: 0 <= j < i ==> ReadPass(reg, bus.script, p, j).res == Ok
      invariant bus.trace == trace + ReadEvents(reg, i)
      invariant bus.used == p + 2 * i
      invariant data[..] == Filled(reg, prior, i, bus.script, p)
    {
      assert ReadPass(reg, bus.script, p, i) == ReadExchange(addr, bus.script, bus.used);
      var value;
      res, value := UartReadPass(bus, addr);
      ghost var x := ReadPass(reg, bus.script, p, i);
      AppendAssoc(trace, ReadEvents(reg, i), x.events);
      if res != Ok {
        ReadStopsAt(reg, prior, len, bus.script, p, i);
        return;
      }
      data[i] := value;
      FilledStep(reg, prior, i, bus.script, p);
      addr := addr + 1;
      i := i + 1;
    }
    ReadStopsAt(reg, prior, len, bus.script, p, len);
  }

  /** `xensiv_pas_gas_uart_write`. */
  method UartWrite(bus: Bus, reg: Byte, data: seq<Byte>) returns (res: Res)
    requires reg <= SENS_RST
    modifies bus
    ensures var o := UartWriteOutcome(reg, data, bus.script, old(bus.used));
      res == o.res && bus.trace == old(bus.trace) + o.events && bus.used == old(bus.used) + o.used
  {
    ghost var p, trace := bus.used, bus.trace;
    res := Ok;
    var addr := reg;
    var i := 0;
    while i < |data|
      invariant 0 <= i <= |data| && res == Ok
      invariant addr == Offset(reg, i)
      invariant forall j :: 0 <= j < i ==> WritePass(reg, data, bus.script, p, j).res == Ok
      invariant bus.trace == trace + WriteEvents(reg, data, i)
      invariant bus.used == p + 2 * i
    {
      assert WritePass(reg, data, bus.script, p, i) == WriteExchange(addr, data[i], bus.script, bus.used);
      res := UartWritePass(bus, addr, data[i]);
      ghost var x := WritePass(reg, data, bus.script, p, i);
      AppendAssoc(trace, WriteEvents(reg, data, i), x.events);
      if res != Ok {
        WriteStopsAt(reg, data, bus.script, p, i);
        return;
      }
      addr := addr + 1;
      i := i + 1;
    }
    WriteStopsAt(reg, data, bus.script, p, |data|);
  }
}
