/**
 * The platform layer the driver calls into (I2C transfer, UART write and read, delay),
 * seen as an oracle. A `Bus` records every call in `trace` and answers each transfer
 * from a finite `script` of replies: the first reply gives the call's status and the
 * bytes the platform writes into the receive buffer; `used` counts the replies given so
 * far. When the script is used up every transfer fails with `NO_REPLY` and writes
 * nothing. The weak default implementations
 * of the platform (status 0, nothing written) are the reply `Reply(0, [])`.
 */
module Platform {
  import opened Regs

  /** Status of a transfer once the script is exhausted (any non-zero code will do). */
  const NO_REPLY: int := -1

  /** One platform call as seen on the wire. */
  datatype Event =
    | I2cXfer(devAddr: Word, tx: seq<Byte>, rxLen: nat)
    | UartTx(tx: seq<Byte>)
    | UartRx(len: nat)
    | Delay(ms: nat)

  /** The platform's answer to one transfer. */
  datatype Reply = Reply(status: int, rx: seq<Byte>)

  /** Reply `k` of `script`; past its end every transfer fails with `NO_REPLY` and
      delivers nothing. */
  function At(script: seq<Reply>, k: nat): (r: Reply)
    ensures k >= |script| ==> r == Reply(NO_REPLY, [])
  {
    if k < |script| then script[k] else Reply(NO_REPLY, [])
  }

  /** Appending to a trace is associative (stated once for any element type, so that
      proofs need not unfold events). */
  lemma AppendAssoc<T>(a: seq<T>, b: seq<T>, c: seq<T>)
    ensures a + b + c == a + (b + c)
  {
  }

  /** Buffer `buf` after the platform wrote the reply `rx` into its first `n` bytes:
      bytes the reply does not cover keep their previous value. */
  function Deliver(buf: seq<Byte>, n: nat, rx: seq<Byte>): (r: seq<Byte>)
    ensures |r| == |buf|
    ensures forall k :: 0 <= k < |r| && k < n && k < |rx| ==> r[k] == rx[k]
    ensures forall k :: 0 <= k < |r| && !(k < n && k < |rx|) ==> r[k] == buf[k]
  {
    seq(|buf|, k requires 0 <= k < |buf| => if k < n && k < |rx| then rx[k] else buf[k])
  }

  /** Delivering into the first `n` bytes of a longer buffer touches only that prefix. */
  lemma DeliverPrefix(buf: seq<Byte>, n: nat, rx: seq<Byte>)
    requires n <= |buf|
    ensures Deliver(buf, n, rx) == Deliver(buf[..n], n, rx) + buf[n..]
  {
  }

  class Bus {
    /** Every platform call so far, in order. */
    var trace: seq<Event>
    /** The replies the platform gives, in order. */
    const script: seq<Reply>
    /** How many transfers have been answered so far. */
    var used: nat

    constructor(replies: seq<Reply>)
      ensures trace == [] && script == replies && used == 0
    {
      trace := [];
      script := replies;
      used := 0;
    }

    /** `xensiv_pas_gas_plat_i2c_transfer`: send `tx`, then receive `rxLen` bytes into
        `rx` (no receive phase when `rx` is null). */
    method I2cTransfer(devAddr: Word, tx: seq<Byte>, rx: array?<Byte>, rxLen: nat) returns (status: int)
      requires rx == null ==> rxLen == 0
      requires rx != null ==> rxLen <= rx.Length
      modifies this, rx
      ensures trace == old(trace) + [I2cXfer(devAddr, tx, rxLen)]
      ensures status == At(script, old(used)).status && used == old(used) + 1
      ensures rx != null ==> rx[..] == Deliver(old(rx[..]), rxLen, At(script, old(used)).rx)
    {
      var a := At(script, used);
      trace := trace + [I2cXfer(devAddr, tx, rxLen)];
      used := used + 1;
      status := a.status;
      if rx != null {
        forall k | 0 <= k < rx.Length {
          rx[k] := if k < rxLen && k < |a.rx| then a.rx[k] else rx[k];
        }
      }
    }

    /** `xensiv_pas_gas_plat_uart_write`: send `tx`. */
    method UartWrite(tx: seq<Byte>) returns (status: int)
      modifies this
      ensures trace == old(trace) + [UartTx(tx)]
      ensures status == At(script, old(used)).status && used == old(used) + 1
    {
      trace := trace + [UartTx(tx)];
      status := At(script, used).status;
      used := used + 1;
    }

    /** `xensiv_pas_gas_plat_uart_read`: receive `len` bytes into `buf`. */
    method UartRead(buf: array<Byte>, len: nat) returns (status: int)
      requires len <= buf.Length
      modifies this, buf
      ensures trace == old(trace) + [UartRx(len)]
      ensures status == At(script, old(used)).status && used == old(used) + 1
      ensures buf[..] == Deliver(old(buf[..]), len, At(script, old(used)).rx)
    {
      var a := At(script, used);
      trace := trace + [UartRx(len)];
      used := used + 1;
      status := a.status;
      forall k | 0 <= k < buf.Length {
        buf[k] := if k < len && k < |a.rx| then a.rx[k] else buf[k];
      }
    }

    /** `xensiv_pas_gas_plat_delay`: recorded, takes no time in the model. */
    method Delay(ms: nat)
      modifies this
      ensures trace == old(trace) + [Event.Delay(ms)] && used == old(used)
    {
      trace := trace + [Event.Delay(ms)];
    }
  }
}
