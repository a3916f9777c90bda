/**
 The generic PMS driver (`PMS`): one packet class behind the shared UART, a
 `detected` flag set by probing, the sleep and wake-up commands, and the
 30-sample report window.
 */
module Pms {
  import opened Bytes
  import opened Serial
  import opened Scanner
  import opened Command

  /** `read()` gives up after this many loop passes. */
  const ReadAttempts: nat := 32
  /** `probe()` calls `readUntilSuccessful(4)`. */
  const ProbeTries: nat := 4
  /** Each window slot calls `readUntilSuccessful(8)`. */
  const SampleTries: nat := 8
  /** `report()` collects this many samples. */
  const WindowSize: nat := 30

  /** The driver's own state: its detection flag and its packet buffer. */
  datatype Driver = Driver(detected: bool, packet: seq<byte>)

  /** A driver together with the UART it talks through. */
  datatype Link = Link(drv: Driver, uart: Uart)

  /** A driver call that answers true or false. */
  datatype Driven = Driven(ok: bool, link: Link)

  function PortOf(l: Link): Port
  {
    Port(l.uart.rx, l.drv.packet)
  }

  function WithPort(l: Link, p: Port): Link
  {
    Link(l.drv.(packet := p.packet), l.uart.(rx := p.rx))
  }

  /** The detection flag, the port's open state and the written bytes agree. */
  predicate SameControl(a: Link, b: Link)
  {
    a.drv.detected == b.drv.detected && a.uart.open == b.uart.open && a.uart.tx == b.uart.tx
  }

  /** `begin()`: opens the UART only for a driver whose probe succeeded. */
  function Begin(l: Link): (r: Link)
    ensures r.drv == l.drv && r.uart.rx == l.uart.rx && r.uart.tx == l.uart.tx
    ensures r.uart.open <==> l.uart.open || l.drv.detected
    ensures !l.drv.detected ==> r == l
  {
    if !l.drv.detected then l else l.(uart := Serial.Begin(l.uart))
  }

  /** `sleep()`: always sends the sleep command and changes nothing else. */
  function Sleep(l: Link): (r: Link)
    ensures r.drv == l.drv && r.uart.rx == l.uart.rx && r.uart.open == l.uart.open
    ensures r.uart.tx == l.uart.tx + SleepCmd
  {
    l.(uart := Write(l.uart, SleepCmd))
  }

  /**
   `wake_up(force)`: sends the wake-up command when the driver was detected
   or the call forces it, and writes nothing otherwise.
   */
  function WakeUp(l: Link, force: bool): (r: Link)
    ensures r.drv == l.drv && r.uart.rx == l.uart.rx && r.uart.open == l.uart.open
    ensures r.uart.tx == l.uart.tx + (if l.drv.detected || force then WakeCmd else [])
  {
    if l.drv.detected || force then l.(uart := Write(l.uart, WakeCmd)) else l
  }

  /** `read()` with `attempts` loop passes. */
  function Read(c: Codec, attempts: nat, l: Link): (r: Driven)
    ensures SameControl(r.link, l)
    ensures !Available(l.uart.rx) ==> !r.ok && r.link == l
    ensures r.ok ==> c.valid(r.link.drv.packet) && |r.link.drv.packet| == c.size
    ensures r.ok <==> Available(l.uart.rx) && exists k :: 0 <= k < attempts && FoundAt(c, k, PortOf(l))
    ensures PortOf(r.link) == Scanner.Read(c, attempts, PortOf(l)).port
  {
    var s := Scanner.Read(c, attempts, PortOf(l));
    ReadSucceedsIff(c, attempts, PortOf(l));
    Driven(s.ok, WithPort(l, s.port))
  }

  /**
   `readUntilSuccessful(tries)`: true exactly when one of `tries` consecutive
   reads succeeds; a silent line fails without consuming anything.
   */
  function ReadUntilSuccessful(c: Codec, attempts: nat, tries: nat, l: Link): (r: Driven)
    ensures SameControl(r.link, l)
    ensures r.ok <==> exists j :: 0 <= j < tries && SucceedsAt(c, attempts, j, PortOf(l))
    ensures r.ok ==> c.valid(r.link.drv.packet) && |r.link.drv.packet| == c.size
    ensures !Available(l.uart.rx) ==> !r.ok && r.link == l
    ensures PortOf(r.link) == ReadUntil(c, attempts, tries, PortOf(l)).port
  {
    var t := ReadUntil(c, attempts, tries, PortOf(l));
    ReadUntilSucceedsIff(c, attempts, tries, PortOf(l));
    SilentLineFails(c, attempts, tries, PortOf(l));
    Driven(t.ok, WithPort(l, t.port))
  }

  /**
   `probe()`: opens the UART, forces a wake-up, tries to read, records the
   outcome in `detected` and closes the UART again whatever the outcome.
   */
  function ProbeWith(c: Codec, attempts: nat, tries: nat, l: Link): (r: Driven)
    ensures r.link.drv.detected == r.ok
    ensures !r.link.uart.open
    ensures r.link.uart.tx == l.uart.tx + WakeCmd
    ensures r.ok <==> exists j :: 0 <= j < tries && SucceedsAt(c, attempts, j, PortOf(l))
    ensures r.ok ==> c.valid(r.link.drv.packet)
  {
    var begun := l.(uart := Serial.Begin(l.uart));
    // `wake_up(true)`: the force flag passes the gate, so the command is always written.
    var woken := begun.(uart := Write(begun.uart, WakeCmd));
    assert woken == WakeUp(begun, true);
    assert PortOf(woken) == PortOf(l);
    var s := ReadUntilSuccessful(c, attempts, tries, woken);
    Driven(s.ok, Link(s.link.drv.(detected := s.ok), End(s.link.uart)))
  }

  /** `PMS::probe()`: four tries of 32-pass reads. */
  function Probe(c: Codec, l: Link): (r: Driven)
    ensures r.link.drv.detected == r.ok
    ensures !r.link.uart.open
    ensures r.link.uart.tx == l.uart.tx + WakeCmd
    ensures r.ok <==> exists j :: 0 <= j < ProbeTries && SucceedsAt(c, ReadAttempts, j, PortOf(l))
    ensures r.ok ==> c.valid(r.link.drv.packet)
  {
    ProbeWith(c, ReadAttempts, ProbeTries, l)
  }

  // The report window.

  /** The `kind` tag a reading is reported under. */
  datatype Kind = Pm1 | Pm25 | Pm10

  /** One entry of the float arrays handed to `avg`/`sd`: NAN, or a decoded value. */
  datatype Cell = NaN | Num(value: nat)

  /** One slot of the window: missing, or the three values of the packet read for it. */
  datatype Sample = Missing | Present(pm1: nat, pm25: nat, pm10: nat)
  {
    function Get(k: Kind): Cell
    {
      match this
      case Missing => NaN
      case Present(a, b, d) => Num(match k case Pm1 => a case Pm25 => b case Pm10 => d)
    }
  }

  /**
   A reported entry: a single value, or the column of a window from which
   `avg` and `sd` are computed.
   */
  datatype Reading = Value(kind: Kind, value: nat) | Stats(kind: Kind, column: seq<Cell>)

  datatype WindowReport = WindowReport(ok: bool, window: seq<Sample>, errors: nat, data: seq<Reading>, link: Link)

  function SampleOf(c: Codec, packet: seq<byte>): Sample
  {
    Present(c.pm1(packet), c.pm25(packet), c.pm10(packet))
  }

  /** The call each window slot makes: `readUntilSuccessful(8)`. */
  function SampleCall(c: Codec): Link -> Driven
  {
    l => ReadUntilSuccessful(c, ReadAttempts, SampleTries, l)
  }

  // The window below is stated for any per-slot call `rd`; `PMS::report()`
  // instantiates it with `SampleCall`.

  /** The link as slot `i` of the window starts: after `i` earlier slots. */
  function Slot(rd: Link -> Driven, i: nat, l: Link): Link
    decreases i, 0
  {
    if i == 0 then l else SlotRead(rd, i - 1, l).link
  }

  /** The call of slot `i`. */
  function SlotRead(rd: Link -> Driven, i: nat, l: Link): Driven
    decreases i, 1
  {
    rd(Slot(rd, i, l))
  }

  /** The number of missing slots. */
  function CountMissing(w: seq<Sample>): nat
  {
    if |w| == 0 then 0 else CountMissing(w[..|w| - 1]) + (if w[|w| - 1].Missing? then 1 else 0)
  }

  lemma {:induction false} CountMissingBounds(w: seq<Sample>)
    ensures CountMissing(w) <= |w|
    ensures CountMissing(w) == |w| <==> forall k :: 0 <= k < |w| ==> w[k] == Missing
  {
    if |w| > 0 {
      var init := w[..|w| - 1];
      CountMissingBounds(init);
      if CountMissing(w) == |w| {
        forall k | 0 <= k < |w|
          ensures w[k] == Missing
        {
          if k < |w| - 1 {
            assert init[k] == w[k];
          }
        }
      }
      if forall k :: 0 <= k < |w| ==> w[k] == Missing {
        assert forall k :: 0 <= k < |init| ==> init[k] == Missing;
      }
    }
  }

  /**
   The column for one kind: NAN exactly where the slot is missing, and the
   slot's value of that kind everywhere else.
   */
  function Column(w: seq<Sample>, k: Kind): (col: seq<Cell>)
    ensures |col| == |w|
    ensures forall i :: 0 <= i < |w| ==> (col[i] == NaN <==> w[i] == Missing)
    ensures forall i :: 0 <= i < |w| && w[i].Present? ==>
      col[i] == Num(if k == Pm1 then w[i].pm1 else if k == Pm25 then w[i].pm25 else w[i].pm10)
  {
    seq(|w|, i requires 0 <= i < |w| => w[i].Get(k))
  }

  /** The three entries a successful window adds, in the order pm1, pm25, pm10. */
  function Readings(w: seq<Sample>): seq<Reading>
  {
    [Stats(Pm1, Column(w, Pm1)), Stats(Pm25, Column(w, Pm25)), Stats(Pm10, Column(w, Pm10))]
  }

  /** The sample slot `i` contributes to the window. */
  function SlotSample(rd: Link -> Driven, c: Codec, i: nat, l: Link): Sample
  {
    var s := SlotRead(rd, i, l);
    if s.ok then SampleOf(c, s.link.drv.packet) else Missing
  }

  /** Whether the first `n` slots of `w` hold what the calls of those slots produced. */
  predicate SlotsMatch(rd: Link -> Driven, c: Codec, l: Link, w: seq<Sample>, n: nat)
    requires n <= |w|
  {
    forall k :: 0 <= k < n ==> w[k] == SlotSample(rd, c, k, l)
  }

  /** Every slot of the window fails. */
  predicate AllSlotsFail(rd: Link -> Driven, l: Link)
  {
    forall k :: 0 <= k < WindowSize ==> !SlotRead(rd, k, l).ok
  }

  lemma SlotsMatchStep(rd: Link -> Driven, c: Codec, l: Link, w: seq<Sample>, i: nat)
    requires |w| == i && SlotsMatch(rd, c, l, w, i)
    ensures SlotsMatch(rd, c, l, w + [SlotSample(rd, c, i, l)], i + 1)
  {
    var w' := w + [SlotSample(rd, c, i, l)];
    assert forall k :: 0 <= k < i ==> w'[k] == w[k];
  }

  lemma CountMissingSnoc(w: seq<Sample>, x: Sample)
    ensures CountMissing(w + [x]) == CountMissing(w) + (if x.Missing? then 1 else 0)
  {
    assert (w + [x])[..|w|] == w;
  }

  /** The sampling loop of `PMS::report()`: one call per slot, failures counted. */
  method Collect(rd: Link -> Driven, c: Codec, l: Link) returns (window: seq<Sample>, errors: nat, cur: Link)
    ensures |window| == WindowSize && SlotsMatch(rd, c, l, window, WindowSize)
    ensures errors == CountMissing(window)
    ensures cur == Slot(rd, WindowSize, l)
  {
    window := [];
    errors := 0;
    cur := l;
    var i: nat := 0;
    while i < WindowSize
      invariant i <= WindowSize && |window| == i
      invariant cur == Slot(rd, i, l)
      invariant errors == CountMissing(window)
      invariant SlotsMatch(rd, c, l, window, i)
    {
      var s := rd(cur);
      assert s == SlotRead(rd, i, l);
      var next := if s.ok then SampleOf(c, s.link.drv.packet) else Missing;
      SlotsMatchStep(rd, c, l, window, i);
      CountMissingSnoc(window, next);
      window := window + [next];
      if !s.ok {
        errors := errors + 1;
      }
      cur := s.link;
      i := i + 1;
    }
  }

  /**
   The generic window: slot by slot what the calls produced, the failures
   counted, and the outcome decided by whether every slot failed.
   */
  method Window(rd: Link -> Driven, c: Codec, l: Link, data: seq<Reading>) returns (r: WindowReport)
    ensures |r.window| == WindowSize && SlotsMatch(rd, c, l, r.window, WindowSize)
    ensures forall k :: 0 <= k < WindowSize ==> (r.window[k].Present? <==> SlotRead(rd, k, l).ok)
    ensures forall k :: 0 <= k < WindowSize && SlotRead(rd, k, l).ok ==>
      r.window[k] == SampleOf(c, SlotRead(rd, k, l).link.drv.packet)
    ensures r.errors == CountMissing(r.window) && r.errors <= WindowSize
    ensures r.ok <==> r.errors < WindowSize
    ensures !r.ok <==> AllSlotsFail(rd, l)
    ensures r.ok ==> r.data == data + Readings(r.window)
    ensures !r.ok ==> r.data == data
    ensures r.link == Slot(rd, WindowSize, l)
  {
    var window, errors, cur := Collect(rd, c, l);
    CountMissingBounds(window);
    var ok := errors != WindowSize;
    r := WindowReport(ok, window, errors, if ok then data + Readings(window) else data, cur);
  }

  /** A slot's call leaves the detection flag, the open state and the output alone. */
  lemma SampleCallKeepsControl(c: Codec)
    ensures forall l :: SameControl(SampleCall(c)(l).link, l)
  {
    forall l
      ensures SameControl(SampleCall(c)(l).link, l)
    {
      assert SampleCall(c)(l) == ReadUntilSuccessful(c, ReadAttempts, SampleTries, l);
    }
  }

  /** When every call keeps the control state, so do any number of slots. */
  lemma {:induction false} SlotsKeepControl(rd: Link -> Driven, l: Link, k: nat)
    requires forall m :: SameControl(rd(m).link, m)
    ensures SameControl(Slot(rd, k, l), l)
    decreases k
  {
    if k > 0 {
      SlotsKeepControl(rd, l, k - 1);
      var prev := Slot(rd, k - 1, l);
      assert SlotRead(rd, k - 1, l) == rd(prev);
      assert SameControl(rd(prev).link, prev);
    }
  }

  /** A slot's call on a silent line fails and leaves the link as it was. */
  lemma SilentCall(c: Codec, l: Link)
    requires !Available(l.uart.rx)
    ensures !SampleCall(c)(l).ok && SampleCall(c)(l).link == l
  {
    var s := ReadUntilSuccessful(c, ReadAttempts, SampleTries, l);
    assert SampleCall(c)(l) == s;
  }

  /** A call that fails without moving leaves every slot where the window started, failing. */
  lemma {:induction false} StuckSlots(rd: Link -> Driven, l: Link, k: nat)
    requires !rd(l).ok && rd(l).link == l
    ensures Slot(rd, k, l) == l && !SlotRead(rd, k, l).ok
    decreases k
  {
    if k > 0 {
      StuckSlots(rd, l, k - 1);
      assert Slot(rd, k, l) == SlotRead(rd, k - 1, l).link;
    }
    assert SlotRead(rd, k, l) == rd(Slot(rd, k, l));
  }

  /** A sensor that sends nothing fails every slot, so its report fails. */
  lemma SilentWindowFails(c: Codec, l: Link)
    requires !Available(l.uart.rx)
    ensures AllSlotsFail(SampleCall(c), l)
  {
    SilentCall(c, l);
    forall k | 0 <= k < WindowSize
      ensures !SlotRead(SampleCall(c), k, l).ok
    {
      StuckSlots(SampleCall(c), l, k);
    }
  }

  /**
   `PMS::report()`: thirty slots, each holding the packet's three values when
   its `readUntilSuccessful(8)` succeeded and missing otherwise, with the
   number of missing slots counted; the report fails, adding nothing, exactly
   when every slot failed.
   */
  method Report(c: Codec, l: Link, data: seq<Reading>) returns (r: WindowReport)
    ensures |r.window| == WindowSize && SlotsMatch(SampleCall(c), c, l, r.window, WindowSize)
    ensures forall k :: 0 <= k < WindowSize ==> (r.window[k].Present? <==> SlotRead(SampleCall(c), k, l).ok)
    ensures forall k :: 0 <= k < WindowSize && SlotRead(SampleCall(c), k, l).ok ==>
      r.window[k] == SampleOf(c, SlotRead(SampleCall(c), k, l).link.drv.packet)
    ensures r.errors == CountMissing(r.window) && r.errors <= WindowSize
    ensures r.ok <==> r.errors < WindowSize
    ensures !r.ok <==> AllSlotsFail(SampleCall(c), l)
    ensures r.ok ==> r.data == data + Readings(r.window)
    ensures !r.ok ==> r.data == data
    ensures r.link == Slot(SampleCall(c), WindowSize, l) && SameControl(r.link, l)
  {
    r := Window(SampleCall(c), c, l, data);
    SampleCallKeepsControl(c);
    SlotsKeepControl(SampleCall(c), l, WindowSize);
  }
}
