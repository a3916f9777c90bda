/**
 The firmware's control flow (`main.cpp`): one shared UART and two generic PMS
 drivers (one with the PMS1003/3003 packet class, one with the PMS5003/7003
 packet class) besides the SDS011; `detectSensor()` picks the first sensor that
 answers, `setup()` starts the chosen driver or halts, and every `loop()` pass
 reports, puts the sensor to sleep, idles, and wakes the drivers up again.

 The SDS011 driver is not part of this model: whether its probe answers and
 the bytes its `sleep()` and `wake_up()` write are parameters, and its calls
 otherwise appear only as events.
 */
module Firmware {
  import opened Bytes
  import opened Serial
  import Scanner
  import Command
  import Pms

  /** `PM_Sensor_Type`. */
  datatype Sensor = NoSensor | Sds011 | Pms3003 | Pms5003

  /** The packet classes behind the two generic drivers. */
  datatype Board = Board(c3003: Scanner.Codec, c5003: Scanner.Codec)

  /** The state the sensor code keeps: the shared UART and the two PMS drivers. */
  datatype Device = Device(uart: Uart, pms3003: Pms.Driver, pms5003: Pms.Driver)

  function Link3003(d: Device): Pms.Link
  {
    Pms.Link(d.pms3003, d.uart)
  }

  function Link5003(d: Device): Pms.Link
  {
    Pms.Link(d.pms5003, d.uart)
  }

  function With3003(d: Device, l: Pms.Link): Device
  {
    d.(pms3003 := l.drv, uart := l.uart)
  }

  function With5003(d: Device, l: Pms.Link): Device
  {
    d.(pms5003 := l.drv, uart := l.uart)
  }

  /** The device as constructed: nothing detected, packets zeroed, the UART closed. */
  function PowerOn(b: Board, rx: seq<byte>): (d: Device)
    ensures !d.uart.open && d.uart.rx == rx && d.uart.tx == []
    ensures !d.pms3003.detected && !d.pms5003.detected
  {
    Device(Uart(false, rx, []), Pms.Driver(false, Zeros(b.c3003.size)), Pms.Driver(false, Zeros(b.c5003.size)))
  }

  // Detection.

  /** A driver's `probe()` as a call on its link. */
  function ProbeCall(c: Scanner.Codec): Pms.Link -> Pms.Driven
  {
    l => Pms.Probe(c, l)
  }

  /** The PMS1003/3003 probe, run first. */
  function FirstProbe(b: Board, d: Device): Pms.Driven
  {
    Pms.Probe(b.c3003, Link3003(d))
  }

  /** The PMS5003/7003 probe, run on the UART as the first probe left it. */
  function SecondProbe(b: Board, d: Device): Pms.Driven
  {
    Pms.Probe(b.c5003, Link5003(With3003(d, FirstProbe(b, d).link)))
  }

  /** What detection found and the device after it. */
  datatype Detection = Detection(sensor: Sensor, dev: Device)

  /**
   The detection rule for any two PMS probe calls `p3` and `p5`: the first one
   that answers true decides, SDS011 comes last, and once PMS1003/3003 has
   answered the PMS5003/7003 driver is left as it was.
   */
  function DetectWith(p3: Pms.Link -> Pms.Driven, p5: Pms.Link -> Pms.Driven, d: Device, sdsAnswers: bool): (r: Detection)
    ensures var first := p3(Link3003(d));
      && (r.sensor == Pms3003 <==> first.ok)
      && (first.ok ==> r.dev == With3003(d, first.link) && r.dev.pms5003 == d.pms5003)
    ensures var first := p3(Link3003(d));
      var second := p5(Link5003(With3003(d, first.link)));
      && (r.sensor == Pms5003 <==> !first.ok && second.ok)
      && (r.sensor == Sds011 <==> !first.ok && !second.ok && sdsAnswers)
      && (r.sensor == NoSensor <==> !first.ok && !second.ok && !sdsAnswers)
      && (!first.ok ==> r.dev == With5003(With3003(d, first.link), second.link))
  {
    var first := p3(Link3003(d));
    var d1 := With3003(d, first.link);
    if first.ok then
      Detection(Pms3003, d1)
    else
      var second := p5(Link5003(d1));
      var d2 := With5003(d1, second.link);
      if second.ok then Detection(Pms5003, d2)
      else if sdsAnswers then Detection(Sds011, d2)
      else Detection(NoSensor, d2)
  }

  /**
   `detectSensor()`: the first sensor in the order PMS1003/3003, PMS5003/7003,
   SDS011 whose probe succeeds wins. A PMS1003/3003 win means the
   PMS5003/7003 probe never ran: one forced wake-up on the line and that
   driver untouched; otherwise both PMS probes ran, one after the other.
   */
  function Detect(b: Board, d: Device, sdsAnswers: bool): (r: Detection)
    ensures r.sensor == Pms3003 <==> FirstProbe(b, d).ok
    ensures r.sensor == Pms5003 <==> !FirstProbe(b, d).ok && SecondProbe(b, d).ok
    ensures r.sensor == Sds011 <==> !FirstProbe(b, d).ok && !SecondProbe(b, d).ok && sdsAnswers
    ensures r.sensor == NoSensor <==> !FirstProbe(b, d).ok && !SecondProbe(b, d).ok && !sdsAnswers
    ensures r.sensor == Pms3003 ==> r.dev.pms5003 == d.pms5003 && r.dev.uart.tx == d.uart.tx + Command.WakeCmd
    ensures r.sensor == Pms5003 ==> r.dev.uart.tx == d.uart.tx + Command.WakeCmd + Command.WakeCmd
  {
    var p3 := ProbeCall(b.c3003);
    var p5 := ProbeCall(b.c5003);
    assert p3(Link3003(d)) == FirstProbe(b, d);
    assert p5(Link5003(With3003(d, FirstProbe(b, d).link))) == SecondProbe(b, d);
    DetectWith(p3, p5, d, sdsAnswers)
  }

  /**
   The device after detection is what the probes that ran left: the first
   probe's alone when PMS1003/3003 answered, otherwise the second probe's,
   run on the UART as the first one left it.
   */
  lemma DetectRunsProbesInSequence(b: Board, d: Device, sdsAnswers: bool)
    ensures var r := Detect(b, d, sdsAnswers);
      && (r.sensor == Pms3003 ==> r.dev == With3003(d, FirstProbe(b, d).link))
      && (r.sensor != Pms3003 ==> r.dev == With5003(With3003(d, FirstProbe(b, d).link), SecondProbe(b, d).link))
  {
    var p3 := ProbeCall(b.c3003);
    var p5 := ProbeCall(b.c5003);
    assert Detect(b, d, sdsAnswers) == DetectWith(p3, p5, d, sdsAnswers);
    assert p3(Link3003(d)) == FirstProbe(b, d);
    assert p5(Link5003(With3003(d, FirstProbe(b, d).link))) == SecondProbe(b, d);
  }

  /**
   After detection the UART is closed, the winner's PMS driver alone is marked
   detected, and a driver that was never probed is untouched.
   */
  lemma DetectLeavesOnlyWinner(b: Board, d: Device, sdsAnswers: bool)
    ensures var r := Detect(b, d, sdsAnswers);
      && !r.dev.uart.open
      && (r.dev.pms3003.detected <==> r.sensor == Pms3003)
      && (r.sensor == Pms3003 ==> r.dev.pms5003 == d.pms5003)
      && (r.sensor != Pms3003 ==> (r.dev.pms5003.detected <==> r.sensor == Pms5003))
  {
    var first := FirstProbe(b, d);
    if !first.ok {
      var second := SecondProbe(b, d);
      assert !second.link.uart.open && second.link.drv.detected == second.ok;
    }
  }

  // Setup and the main loop.

  /** The sensor the firmware runs with, or the `while (1);` it fell into. */
  datatype Session = Running(sensor: Sensor, dev: Device) | Halted(dev: Device)

  /** Exactly the running sensor's PMS driver, if any, holds the detected flag. */
  predicate Exclusive(s: Session)
  {
    match s
    case Halted(_) => true
    case Running(sensor, dev) =>
      && (dev.pms3003.detected <==> sensor == Pms3003)
      && (dev.pms5003.detected <==> sensor == Pms5003)
  }

  /** What `setup()` did: the drivers whose `begin()` it called, and the session. */
  datatype Startup = Startup(begun: seq<Sensor>, session: Session)

  /**
   The `switch` of `setup()`: `begin()` on the detected sensor's driver, which
   opens the UART for a PMS driver holding the detected flag, or the halt.
   */
  function Start(det: Detection): (s: Startup)
    ensures s.session.Halted? <==> det.sensor == NoSensor
    ensures s.session.Running? ==> s.session.sensor == det.sensor && s.begun == [det.sensor]
    ensures s.session.Halted? ==> s.begun == [] && s.session.dev == det.dev
    ensures s.session.dev.pms3003 == det.dev.pms3003 && s.session.dev.pms5003 == det.dev.pms5003
    ensures s.session.dev.uart.tx == det.dev.uart.tx && s.session.dev.uart.rx == det.dev.uart.rx
    ensures det.sensor == Pms3003 && det.dev.pms3003.detected ==> s.session.dev.uart.open
    ensures det.sensor == Pms5003 && det.dev.pms5003.detected ==> s.session.dev.uart.open
  {
    var dev := det.dev;
    match det.sensor
    case Sds011 => Startup([Sds011], Running(Sds011, dev))
    case Pms3003 => Startup([Pms3003], Running(Pms3003, With3003(dev, Pms.Begin(Link3003(dev)))))
    case Pms5003 => Startup([Pms5003], Running(Pms5003, With5003(dev, Pms.Begin(Link5003(dev)))))
    case NoSensor => Startup([], Halted(dev))
  }

  /**
   `setup()` from power-on: detects the sensor, calls `begin()` on exactly the
   matching driver, and halts when nothing was detected.
   */
  function Setup(b: Board, rx: seq<byte>, sdsAnswers: bool): (s: Startup)
    ensures var det := Detect(b, PowerOn(b, rx), sdsAnswers);
      && (s.session.Halted? <==> det.sensor == NoSensor)
      && (s.session.Running? ==> s.session.sensor == det.sensor && s.begun == [det.sensor])
      && (s.session.Halted? ==> s.begun == [])
    ensures s.session.Running? && s.session.sensor in {Pms3003, Pms5003} ==> s.session.dev.uart.open
    ensures Exclusive(s.session)
  {
    var d0 := PowerOn(b, rx);
    var det := Detect(b, d0, sdsAnswers);
    DetectLeavesOnlyWinner(b, d0, sdsAnswers);
    Start(det)
  }

  /**
   What `setup()` has written to the line: one forced wake-up per PMS probe
   that ran, so one when PMS1003/3003 won (the PMS5003/7003 driver still as
   constructed) and two when PMS5003/7003 won.
   */
  lemma SetupWakeups(b: Board, rx: seq<byte>, sdsAnswers: bool)
    ensures var s := Setup(b, rx, sdsAnswers);
      && (s.session.Running? && s.session.sensor == Pms3003 ==>
        s.session.dev.uart.tx == Command.WakeCmd && s.session.dev.pms5003 == PowerOn(b, rx).pms5003)
      && (s.session.Running? && s.session.sensor == Pms5003 ==>
        s.session.dev.uart.tx == Command.WakeCmd + Command.WakeCmd)
  {
    var d0 := PowerOn(b, rx);
    var det := Detect(b, d0, sdsAnswers);
    assert Setup(b, rx, sdsAnswers) == Start(det);
    StartKeepsWakeups(det, d0);
  }

  /** `begin()` writes nothing, so the session's line holds what detection wrote after power-on. */
  lemma StartKeepsWakeups(det: Detection, d0: Device)
    requires d0.uart.tx == []
    requires det.sensor == Pms3003 ==> det.dev.uart.tx == d0.uart.tx + Command.WakeCmd && det.dev.pms5003 == d0.pms5003
    requires det.sensor == Pms5003 ==> det.dev.uart.tx == d0.uart.tx + Command.WakeCmd + Command.WakeCmd
    ensures var s := Start(det);
      && (s.session.Running? && s.session.sensor == Pms3003 ==>
        s.session.dev.uart.tx == Command.WakeCmd && s.session.dev.pms5003 == d0.pms5003)
      && (s.session.Running? && s.session.sensor == Pms5003 ==>
        s.session.dev.uart.tx == Command.WakeCmd + Command.WakeCmd)
  {
    assert d0.uart.tx + Command.WakeCmd == Command.WakeCmd;
    assert d0.uart.tx + Command.WakeCmd + Command.WakeCmd == Command.WakeCmd + Command.WakeCmd;
  }

  /** The seconds a `loop()` pass idles between the sleep and the wake-ups. */
  const IdleTicks: nat := 300

  /** The driver calls of a `loop()` pass, as they happen. */
  datatype Event = Reported(sensor: Sensor) | Slept(sensor: Sensor) | Idled(ticks: nat) | Woke(sensor: Sensor)

  /** Where an event falls in a pass: report, then sleep, then idle, then wake. */
  function Phase(e: Event): nat
  {
    match e
    case Reported(_) => 0
    case Slept(_) => 1
    case Idled(_) => 2
    case Woke(_) => 3
  }

  /** The events never go back to an earlier phase; in particular no wake-up precedes a sleep. */
  predicate InPhaseOrder(events: seq<Event>)
  {
    forall i, j :: 0 <= i < j < |events| ==> Phase(events[i]) <= Phase(events[j])
  }

  /** The bytes the SDS011 driver's `sleep()` and `wake_up()` write on the shared UART. */
  datatype SdsBytes = SdsBytes(sleep: seq<byte>, wake: seq<byte>)

  /** A `loop()` pass in progress: the device and the driver calls made so far. */
  datatype Run = Run(dev: Device, log: seq<Event>)

  /** One `loop()` pass: its events, the PMS window, the entries it reported, and the session after it. */
  datatype Pass = Pass(events: seq<Event>, window: seq<Pms.Sample>, data: seq<Pms.Reading>, session: Session)

  /**
   `report()` then `sleep()` on one PMS driver: the entries are the columns of
   the window the driver collected, or nothing when every slot failed, and the
   sleep command follows the report on the line.
   */
  method ReportAndSleep(c: Scanner.Codec, sensor: Sensor, l: Pms.Link, log: seq<Event>)
    returns (report: Pms.WindowReport, after: Pms.Link, events: seq<Event>)
    ensures |report.window| == Pms.WindowSize
    ensures Pms.SlotsMatch(Pms.SampleCall(c), c, l, report.window, Pms.WindowSize)
    ensures report.data == [] <==> Pms.AllSlotsFail(Pms.SampleCall(c), l)
    ensures report.data == [] || report.data == Pms.Readings(report.window)
    ensures after.drv.detected == l.drv.detected && after.uart.open == l.uart.open
    ensures after.uart.tx == l.uart.tx + Command.SleepCmd
    ensures events == log + [Reported(sensor), Slept(sensor)]
    ensures report.link == Pms.Slot(Pms.SampleCall(c), Pms.WindowSize, l)
    ensures after == Pms.Sleep(report.link)
  {
    report := Pms.Report(c, l, []);
    assert report.ok ==> report.data == Pms.Readings(report.window);
    events := log + [Reported(sensor)];
    after := Pms.Sleep(report.link);
    events := events + [Slept(sensor)];
  }

  /** The `while (t--)` idle of 300 one-second ticks: nothing is written. */
  function Idle(run: Run): (r: Run)
    ensures r.dev == run.dev
    ensures r.log == run.log + [Idled(IdleTicks)]
  {
    Run(run.dev, run.log + [Idled(IdleTicks)])
  }

  /**
   The wake-ups at the end of a pass: SDS011, then the PMS5003/7003 driver,
   then the PMS1003/3003 driver, the PMS ones unforced, so only a detected
   PMS driver writes its wake-up command.
   */
  function WakeAll(sds: SdsBytes, run: Run): (r: Run)
    ensures r.dev.pms3003 == run.dev.pms3003 && r.dev.pms5003 == run.dev.pms5003
    ensures r.dev.uart.rx == run.dev.uart.rx && r.dev.uart.open == run.dev.uart.open
    ensures r.dev.uart.tx == run.dev.uart.tx + sds.wake
      + (if run.dev.pms5003.detected then Command.WakeCmd else [])
      + (if run.dev.pms3003.detected then Command.WakeCmd else [])
    ensures r.log == run.log + [Woke(Sds011), Woke(Pms5003), Woke(Pms3003)]
  {
    var r0 := Run(run.dev.(uart := Write(run.dev.uart, sds.wake)), run.log + [Woke(Sds011)]);
    var r1 := Run(With5003(r0.dev, Pms.WakeUp(Link5003(r0.dev), false)), r0.log + [Woke(Pms5003)]);
    Run(With3003(r1.dev, Pms.WakeUp(Link3003(r1.dev), false)), r1.log + [Woke(Pms3003)])
  }

  /** SDS011's `report()` and `sleep()`: only the events and the bytes its `sleep()` writes are modelled. */
  function SdsReportAndSleep(sds: SdsBytes, run: Run): (r: Run)
    ensures r.dev.pms3003 == run.dev.pms3003 && r.dev.pms5003 == run.dev.pms5003
    ensures r.dev.uart.tx == run.dev.uart.tx + sds.sleep
    ensures r.log == run.log + [Reported(Sds011), Slept(Sds011)]
  {
    var reported := Run(run.dev, run.log + [Reported(Sds011)]);
    Run(reported.dev.(uart := Write(reported.dev.uart, sds.sleep)), reported.log + [Slept(Sds011)])
  }

  /**
   The `switch` of `loop()`: the running sensor's `report()` and then its
   `sleep()`. Only the sleeping sensor writes, and a PMS window is kept.
   */
  method ReportPhase(b: Board, sds: SdsBytes, sensor: Sensor, dev: Device)
    returns (window: seq<Pms.Sample>, data: seq<Pms.Reading>, run: Run)
    requires sensor != NoSensor
    ensures run.log == [Reported(sensor), Slept(sensor)]
    ensures run.dev.pms3003.detected == dev.pms3003.detected && run.dev.pms5003.detected == dev.pms5003.detected
    ensures run.dev.uart.tx == dev.uart.tx + (if sensor == Sds011 then sds.sleep else Command.SleepCmd)
    ensures sensor == Pms3003 ==>
      && |window| == Pms.WindowSize
      && Pms.SlotsMatch(Pms.SampleCall(b.c3003), b.c3003, Link3003(dev), window, Pms.WindowSize)
      && (data == [] <==> Pms.AllSlotsFail(Pms.SampleCall(b.c3003), Link3003(dev)))
    ensures sensor == Pms5003 ==>
      && |window| == Pms.WindowSize
      && Pms.SlotsMatch(Pms.SampleCall(b.c5003), b.c5003, Link5003(dev), window, Pms.WindowSize)
      && (data == [] <==> Pms.AllSlotsFail(Pms.SampleCall(b.c5003), Link5003(dev)))
    ensures sensor == Sds011 ==> window == [] && data == []
    ensures data == [] || data == Pms.Readings(window)
    ensures sensor == Pms3003 ==>
      run.dev == With3003(dev, Pms.Sleep(Pms.Slot(Pms.SampleCall(b.c3003), Pms.WindowSize, Link3003(dev))))
    ensures sensor == Pms5003 ==>
      run.dev == With5003(dev, Pms.Sleep(Pms.Slot(Pms.SampleCall(b.c5003), Pms.WindowSize, Link5003(dev))))
  {
    if sensor == Pms3003 {
      var report, after, log := ReportAndSleep(b.c3003, Pms3003, Link3003(dev), []);
      window, data := report.window, report.data;
      run := Run(With3003(dev, after), log);
    } else if sensor == Pms5003 {
      var report, after, log := ReportAndSleep(b.c5003, Pms5003, Link5003(dev), []);
      window, data := report.window, report.data;
      run := Run(With5003(dev, after), log);
    } else {
      window, data := [], [];
      run := SdsReportAndSleep(sds, Run(dev, []));
    }
  }

  /**
   `loop()`: the running sensor's report, then its sleep, then the idle
   period, then `wake_up()` on all three drivers; a halted firmware does
   nothing, and a session without a sensor halts.
   */
  method Loop(b: Board, sds: SdsBytes, s: Session) returns (p: Pass)
    ensures s.Halted? ==> p == Pass([], [], [], s)
    ensures s.Running? && s.sensor == NoSensor ==> p == Pass([], [], [], Halted(s.dev))
    ensures s.Running? && s.sensor != NoSensor ==>
      && p.session.Running? && p.session.sensor == s.sensor
      && p.events == [Reported(s.sensor), Slept(s.sensor), Idled(IdleTicks), Woke(Sds011), Woke(Pms5003), Woke(Pms3003)]
    ensures InPhaseOrder(p.events)
    ensures Exclusive(s) ==> Exclusive(p.session)
    ensures Exclusive(s) && s.Running? && s.sensor in {Pms3003, Pms5003} ==>
      p.session.dev.uart.tx == s.dev.uart.tx + Command.SleepCmd + sds.wake + Command.WakeCmd
    ensures Exclusive(s) && s.Running? && s.sensor == Sds011 ==>
      p.session.dev.uart.tx == s.dev.uart.tx + sds.sleep + sds.wake
    ensures s.Running? && s.sensor == Pms3003 ==>
      && |p.window| == Pms.WindowSize
      && Pms.SlotsMatch(Pms.SampleCall(b.c3003), b.c3003, Link3003(s.dev), p.window, Pms.WindowSize)
      && (p.data == [] <==> Pms.AllSlotsFail(Pms.SampleCall(b.c3003), Link3003(s.dev)))
    ensures s.Running? && s.sensor == Pms5003 ==>
      && |p.window| == Pms.WindowSize
      && Pms.SlotsMatch(Pms.SampleCall(b.c5003), b.c5003, Link5003(s.dev), p.window, Pms.WindowSize)
      && (p.data == [] <==> Pms.AllSlotsFail(Pms.SampleCall(b.c5003), Link5003(s.dev)))
    ensures p.data == [] || p.data == Pms.Readings(p.window)
    ensures s.Running? && s.sensor == Pms3003 ==>
      var left := Pms.Slot(Pms.SampleCall(b.c3003), Pms.WindowSize, Link3003(s.dev));
      p.session.dev.uart.rx == left.uart.rx && p.session.dev.pms3003.packet == left.drv.packet
    ensures s.Running? && s.sensor == Pms5003 ==>
      var left := Pms.Slot(Pms.SampleCall(b.c5003), Pms.WindowSize, Link5003(s.dev));
      p.session.dev.uart.rx == left.uart.rx && p.session.dev.pms5003.packet == left.drv.packet
  {
    if s.Halted? {
      return Pass([], [], [], s);
    }
    var sensor, dev := s.sensor, s.dev;
    if sensor == NoSensor {
      return Pass([], [], [], Halted(dev));
    }
    var window, data, run := ReportPhase(b, sds, sensor, dev);
    run := Idle(run);
    run := WakeAll(sds, run);
    p := Pass(run.log, window, data, Running(sensor, run.dev));
  }
}
