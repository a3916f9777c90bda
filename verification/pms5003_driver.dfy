/**
 The dedicated PMS5003/PMS7003 driver (`PMS5003`): the same read loop, retry,
 lifecycle and commands as the generic driver, fixed to the 32-byte
 `PMS5003::Packet`, with `sizeof(Packet)` loop passes per read, eight tries per
 probe, and a report that takes a single frame.
 */
module Pms5003Driver {
  import opened Bytes
  import opened Serial
  import opened Frame
  import Scanner
  import Pms
  import Command

  /** `read()` runs `sizeof(Packet)` loop passes. */
  const ReadAttempts: nat := FrameSize
  /** `probe()` calls `readUntilSuccessful(8)`. */
  const ProbeTries: nat := 8
  /** `report()` calls `readUntilSuccessful(8)`. */
  const ReportTries: nat := 8

  /** `PMS5003::Packet` seen through the interface the read loop needs. */
  function FrameCodec(lay: Layout): (c: Scanner.Codec)
    requires ValidLayout(lay)
  {
    Scanner.Codec(
      FrameSize,
      p => |p| == FrameSize && IsValid(p),
      p => if |p| == FrameSize then Pm1Value(lay, p) else 0,
      p => if |p| == FrameSize then Pm25Value(lay, p) else 0,
      p => if |p| == FrameSize then Pm10Value(lay, p) else 0)
  }

  /** `PMS5003::read()`: true only with a valid 32-byte frame in the packet. */
  function Read(lay: Layout, l: Pms.Link): (r: Pms.Driven)
    requires ValidLayout(lay)
    ensures Pms.SameControl(r.link, l)
    ensures !Available(l.uart.rx) ==> !r.ok && r.link == l
    ensures r.ok ==> |r.link.drv.packet| == FrameSize && IsValid(r.link.drv.packet)
    ensures r.ok <==> Available(l.uart.rx) && exists k :: 0 <= k < ReadAttempts && Scanner.FoundAt(FrameCodec(lay), k, Pms.PortOf(l))
  {
    Pms.Read(FrameCodec(lay), ReadAttempts, l)
  }

  /** `PMS5003::readUntilSuccessful(tries)`. */
  function ReadUntilSuccessful(lay: Layout, tries: nat, l: Pms.Link): (r: Pms.Driven)
    requires ValidLayout(lay)
    ensures Pms.SameControl(r.link, l)
    ensures r.ok <==> exists j :: 0 <= j < tries && Scanner.SucceedsAt(FrameCodec(lay), ReadAttempts, j, Pms.PortOf(l))
    ensures r.ok ==> |r.link.drv.packet| == FrameSize && IsValid(r.link.drv.packet)
    ensures !Available(l.uart.rx) ==> !r.ok && r.link == l
  {
    Pms.ReadUntilSuccessful(FrameCodec(lay), ReadAttempts, tries, l)
  }

  /** `PMS5003::probe()`: eight tries, the outcome kept in `detected`, the UART closed. */
  function Probe(lay: Layout, l: Pms.Link): (r: Pms.Driven)
    requires ValidLayout(lay)
    ensures r.link.drv.detected == r.ok
    ensures !r.link.uart.open
    ensures r.link.uart.tx == l.uart.tx + Command.WakeCmd
    ensures r.ok <==> exists j :: 0 <= j < ProbeTries && Scanner.SucceedsAt(FrameCodec(lay), ReadAttempts, j, Pms.PortOf(l))
    ensures r.ok ==> |r.link.drv.packet| == FrameSize && IsValid(r.link.drv.packet)
  {
    var s := Pms.ProbeWith(FrameCodec(lay), ReadAttempts, ProbeTries, l);
    assert s.ok ==> FrameCodec(lay).valid(s.link.drv.packet);
    s
  }

  /** The outcome of `PMS5003::report()`. */
  datatype FrameReport = FrameReport(ok: bool, data: seq<Pms.Reading>, link: Pms.Link)

  /** The three entries reported for one frame, in the order pm1, pm25, pm10. */
  function FrameReadings(lay: Layout, p: seq<byte>): seq<Pms.Reading>
    requires ValidLayout(lay) && |p| == FrameSize
  {
    [Pms.Value(Pms.Pm1, Pm1Value(lay, p)), Pms.Value(Pms.Pm25, Pm25Value(lay, p)), Pms.Value(Pms.Pm10, Pm10Value(lay, p))]
  }

  /**
   `PMS5003::report()`: when one of eight reads succeeds, the frame's three
   values are appended; otherwise nothing is.
   */
  function Report(lay: Layout, l: Pms.Link, data: seq<Pms.Reading>): (r: FrameReport)
    requires ValidLayout(lay)
    ensures Pms.SameControl(r.link, l)
    ensures r.ok <==> exists j :: 0 <= j < ReportTries && Scanner.SucceedsAt(FrameCodec(lay), ReadAttempts, j, Pms.PortOf(l))
    ensures r.ok ==> |r.link.drv.packet| == FrameSize && IsValid(r.link.drv.packet)
    ensures r.ok ==> r.data == data + FrameReadings(lay, r.link.drv.packet)
    ensures !r.ok ==> r.data == data
    ensures !Available(l.uart.rx) ==> !r.ok && r.link == l
  {
    var s := ReadUntilSuccessful(lay, ReportTries, l);
    if s.ok then FrameReport(true, data + FrameReadings(lay, s.link.drv.packet), s.link)
    else FrameReport(false, data, s.link)
  }

  /** A field that starts on a data-word boundary. */
  predicate Aligned(off: nat)
  {
    HeaderSize <= off && (off - HeaderSize) % 2 == 0
  }

  /** The data word a field at `off` holds. */
  function WordIndex(off: nat): nat
    requires Aligned(off)
  {
    (off - HeaderSize) / 2
  }

  /** On an aligned offset the field reads back the data word the sender put there. */
  lemma FieldOfEncoded(w: seq<nat>, off: nat)
    requires IsWords(w) && InData(off) && Aligned(off)
    ensures WordIndex(off) < |w|
    ensures Field(Encode(w), off) == w[WordIndex(off)]
  {
    EncodeIsValid(w);
    var k := WordIndex(off);
    assert off == HeaderSize + 2 * k;
    assert Payload(Encode(w))[k] == Field(Encode(w), HeaderSize + 2 * k);
  }

  /**
   A sensor that sends fewer than 32 bytes of noise (no 0x42 among them) and
   then a frame: the first read of the report takes the frame, and the
   report appends the three words the sensor encoded.
   */
  lemma {:induction false} ReportDecodesFrame(
    lay: Layout, w: seq<nat>, noise: seq<byte>, tail: seq<byte>, l: Pms.Link, data: seq<Pms.Reading>)
    requires ValidLayout(lay) && Aligned(lay.pm1) && Aligned(lay.pm25) && Aligned(lay.pm10)
    requires IsWords(w)
    requires |noise| < ReadAttempts && Scanner.NoStart(noise)
    requires l.uart.rx == noise + Encode(w) + tail
    ensures WordIndex(lay.pm1) < |w| && WordIndex(lay.pm25) < |w| && WordIndex(lay.pm10) < |w|
    ensures var r := Report(lay, l, data);
      && r.ok
      && r.link.drv.packet == Encode(w)
      && r.link.uart.rx == tail
      && r.data == data + [
        Pms.Value(Pms.Pm1, w[WordIndex(lay.pm1)]),
        Pms.Value(Pms.Pm25, w[WordIndex(lay.pm25)]),
        Pms.Value(Pms.Pm10, w[WordIndex(lay.pm10)])]
  {
    var c := FrameCodec(lay);
    var f := Encode(w);
    EncodeIsValid(w);
    assert f[..HeaderSize] == Header;
    assert f[0] == Start1;
    assert c.valid(f);
    var p := Pms.PortOf(l);
    Scanner.ReadFindsFrame(c, ReadAttempts, noise, f, tail, l.drv.packet);
    assert Scanner.ReadUntil(c, ReadAttempts, ReportTries, p) == Scanner.Retry(true, Scanner.Port(tail, f), 1);
    FieldOfEncoded(w, lay.pm1);
    FieldOfEncoded(w, lay.pm25);
    FieldOfEncoded(w, lay.pm10);
  }
}
