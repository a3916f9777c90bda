/**
 The software UART the sensors hang off, seen as two byte streams: `rx`, the
 bytes the sensor has sent and nobody has read yet, and `tx`, everything the
 firmware has written. Arrival timing and the `readBytes` timeout are folded
 into `rx`: a read takes whatever part of the wanted bytes is there.
 */
module Serial {
  import opened Bytes

  datatype Uart = Uart(open: bool, rx: seq<byte>, tx: seq<byte>)

  /** Bytes taken off the stream and the stream that remains. */
  datatype Chunk = Chunk(data: seq<byte>, rest: seq<byte>)

  function Min(a: int, b: int): int
  {
    if a <= b then a else b
  }

  /** `available()`: some byte is waiting. */
  predicate Available(rx: seq<byte>): (b: bool)
    ensures b <==> 1 <= |rx|
  {
    |rx| > 0
  }

  /** `peek()`: the next byte without consuming it, or -1 when none is waiting. */
  function Peek(rx: seq<byte>): (r: int)
    ensures r == -1 <==> !Available(rx)
    ensures Available(rx) ==> r == rx[0] as int
  {
    if |rx| == 0 then -1 else rx[0]
  }

  /** `read()`: drops the next byte; on an empty stream nothing is consumed. */
  function ReadOne(rx: seq<byte>): (r: seq<byte>)
    ensures !Available(rx) ==> r == rx
    ensures Available(rx) ==> rx == [rx[0]] + r
  {
    if |rx| == 0 then rx else rx[1..]
  }

  /** `readBytes(buf, n)`: takes up to `n` of the waiting bytes, in order. */
  function ReadBytes(rx: seq<byte>, n: nat): (r: Chunk)
    ensures |r.data| == Min(n, |rx|)
    ensures r.data + r.rest == rx
  {
    Chunk(rx[..Min(n, |rx|)], rx[Min(n, |rx|)..])
  }

  function Zeros(n: nat): seq<byte>
  {
    seq(n, _ => 0)
  }

  /**
   A buffer of `n` bytes that was zeroed (`reset`) and then filled by
   `readBytes(buf, n)`: the bytes that arrived, then zeros where nothing did.
   */
  function ZeroFilled(rx: seq<byte>, n: nat): (p: seq<byte>)
    ensures |p| == n
    ensures forall i :: 0 <= i < n ==> p[i] == (if i < |rx| then rx[i] else 0)
  {
    ReadBytes(rx, n).data + Zeros(n - Min(n, |rx|))
  }

  /** `uart.begin(baud)`: the port is open; nothing is read or written. */
  function Begin(u: Uart): (r: Uart)
    ensures r.open && r.rx == u.rx && r.tx == u.tx
  {
    u.(open := true)
  }

  /** `uart.end()`: the port is closed; nothing is read or written. */
  function End(u: Uart): (r: Uart)
    ensures !r.open && r.rx == u.rx && r.tx == u.tx
  {
    u.(open := false)
  }

  /** `uart.write(buf, n)`: the bytes follow what was written before, in order. */
  function Write(u: Uart, bytes: seq<byte>): (r: Uart)
    ensures |r.tx| == |u.tx| + |bytes|
    ensures r.tx[..|u.tx|] == u.tx && r.tx[|u.tx|..] == bytes
    ensures r.open == u.open && r.rx == u.rx
  {
    u.(tx := u.tx + bytes)
  }
}
