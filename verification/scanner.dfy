/**
 The read loop shared by the PMS drivers (`PMS::read`, `PMS5003::read`) and the
 bounded retry around it (`readUntilSuccessful`). Both drivers run the same
 loop; they differ in the packet class behind it and in the attempt bound,
 so both are parameters here.
 */
module Scanner {
  import opened Bytes
  import opened Serial

  /**
   What a driver needs of its packet class: how many bytes one frame takes, the
   `is_valid` check, and the three PM fields. Filling the packet (`reset`
   followed by `readFrom`/`readBytes`) reads `size` bytes into a zeroed buffer.
   */
  datatype Codec = Codec(
    size: nat,
    valid: seq<byte> -> bool,
    pm1: seq<byte> -> nat,
    pm25: seq<byte> -> nat,
    pm10: seq<byte> -> nat)

  /** The unread input and the driver's packet buffer. */
  datatype Port = Port(rx: seq<byte>, packet: seq<byte>)

  /** One pass of the loop body: whether it found a valid frame. */
  datatype Attempt = Attempt(found: bool, port: Port)

  /** One `read()` call: its result and how many loop passes it ran. */
  datatype Scan = Scan(ok: bool, port: Port, steps: nat)

  /** One `readUntilSuccessful()` call: its result and how many `read()` calls it made. */
  datatype Retry = Retry(ok: bool, port: Port, calls: nat)

  /** `after` is what remains of `before` once a prefix has been consumed. */
  predicate Suffix(after: seq<byte>, before: seq<byte>)
  {
    |after| <= |before| && after == before[|before| - |after|..]
  }

  lemma SuffixTrans(a: seq<byte>, b: seq<byte>, c: seq<byte>)
    requires Suffix(a, b) && Suffix(b, c)
    ensures Suffix(a, c)
  {
    assert c[|c| - |b|..][|b| - |a|..] == c[|c| - |a|..];
  }

  /** The most bytes one loop pass may consume. */
  function MaxStep(c: Codec): nat
  {
    if c.size == 0 then 1 else c.size
  }

  /**
   The loop body: on a 0x42 head the packet is reset and filled with up to
   `size` bytes, which are consumed whether or not they form a valid frame;
   on any other head exactly one byte is dropped.
   */
  function Step(c: Codec, p: Port): (r: Attempt)
    ensures Peek(p.rx) != Start1 ==> !r.found && r.port.packet == p.packet
    ensures Peek(p.rx) != Start1 && Available(p.rx) ==> |p.rx| - |r.port.rx| == 1
    ensures !Available(p.rx) ==> r.port == p
    ensures Peek(p.rx) == Start1 ==> |p.rx| - |r.port.rx| == Min(c.size, |p.rx|)
    ensures Peek(p.rx) == Start1 ==> r.port.packet == ZeroFilled(p.rx, c.size)
    ensures Peek(p.rx) == Start1 ==> r.found == c.valid(r.port.packet)
    ensures r.found ==> c.valid(r.port.packet) && |r.port.packet| == c.size
    ensures |p.rx| - |r.port.rx| <= MaxStep(c)
  {
    if Peek(p.rx) == Start1 then
      var packet := ZeroFilled(p.rx, c.size);
      var chunk := ReadBytes(p.rx, c.size);
      assert chunk.rest == p.rx[Min(c.size, |p.rx|)..];
      Attempt(c.valid(packet), Port(chunk.rest, packet))
    else
      Attempt(false, Port(ReadOne(p.rx), p.packet))
  }

  /** The `while (attempts--)` loop. */
  function ScanLoop(c: Codec, attempts: nat, p: Port): (r: Scan)
    decreases attempts
    ensures r.steps <= attempts
    ensures r.ok ==> 1 <= r.steps && c.valid(r.port.packet) && |r.port.packet| == c.size
    ensures !r.ok ==> r.steps == attempts
  {
    if attempts == 0 then Scan(false, p, 0)
    else
      var a := Step(c, p);
      if a.found then Scan(true, a.port, 1)
      else
        var s := ScanLoop(c, attempts - 1, a.port);
        Scan(s.ok, s.port, s.steps + 1)
  }

  /** The port after `k` loop passes, whatever they found. */
  function PassPort(c: Codec, k: nat, p: Port): Port
    decreases k
  {
    if k == 0 then p else PassPort(c, k - 1, Step(c, p).port)
  }

  /** Whether pass `k` of the loop fills the packet with a valid frame. */
  predicate FoundAt(c: Codec, k: nat, p: Port)
  {
    Step(c, PassPort(c, k, p)).found
  }

  /** The passes after the first one start where the first one stopped. */
  lemma PassShift(c: Codec, k: nat, p: Port)
    requires 1 <= k
    ensures PassPort(c, k, p) == PassPort(c, k - 1, Step(c, p).port)
    ensures FoundAt(c, k, p) == FoundAt(c, k - 1, Step(c, p).port)
  {
  }

  /** The loop succeeds exactly when one of its first `attempts` passes finds a valid frame. */
  lemma {:induction false} ScanSucceedsIff(c: Codec, attempts: nat, p: Port)
    ensures ScanLoop(c, attempts, p).ok <==> exists k :: 0 <= k < attempts && FoundAt(c, k, p)
    decreases attempts
  {
    if attempts > 0 {
      var a := Step(c, p);
      assert PassPort(c, 0, p) == p;
      if a.found {
        assert FoundAt(c, 0, p);
      } else {
        ScanSucceedsIff(c, attempts - 1, a.port);
        assert ScanLoop(c, attempts, p).ok == ScanLoop(c, attempts - 1, a.port).ok;
        if ScanLoop(c, attempts - 1, a.port).ok {
          var k :| 0 <= k < attempts - 1 && FoundAt(c, k, a.port);
          PassShift(c, k + 1, p);
        } else {
          forall k | 0 <= k < attempts
            ensures !FoundAt(c, k, p)
          {
            if k > 0 {
              PassShift(c, k, p);
            }
          }
        }
      }
    }
  }

  /**
   On success the loop has stopped right after the first pass that found a
   valid frame, and holds what that pass left; on failure it has run all
   `attempts` passes.
   */
  lemma ScanStopsAtFirst(c: Codec, attempts: nat, p: Port)
    ensures var r := ScanLoop(c, attempts, p);
      && (r.ok ==> FoundAt(c, r.steps - 1, p))
      && (r.ok ==> forall k :: 0 <= k < r.steps - 1 ==> !FoundAt(c, k, p))
      && (r.ok ==> r.port == Step(c, PassPort(c, r.steps - 1, p)).port)
      && (!r.ok ==> r.port == PassPort(c, attempts, p))
  {
    ScanStopsOnSuccess(c, attempts, p);
    ScanRunsAllOnFailure(c, attempts, p);
  }

  lemma {:induction false} ScanStopsOnSuccess(c: Codec, attempts: nat, p: Port)
    ensures var r := ScanLoop(c, attempts, p);
      r.ok ==> && FoundAt(c, r.steps - 1, p)
               && (forall k :: 0 <= k < r.steps - 1 ==> !FoundAt(c, k, p))
               && r.port == Step(c, PassPort(c, r.steps - 1, p)).port
    decreases attempts
  {
    if attempts > 0 {
      var a := Step(c, p);
      assert PassPort(c, 0, p) == p;
      if !a.found {
        ScanStopsOnSuccess(c, attempts - 1, a.port);
        var r := ScanLoop(c, attempts - 1, a.port);
        var s := ScanLoop(c, attempts, p);
        assert s == Scan(r.ok, r.port, r.steps + 1);
        if r.ok {
          forall k | 0 <= k < s.steps - 1
            ensures !FoundAt(c, k, p)
          {
            if k > 0 {
              PassShift(c, k, p);
            }
          }
          PassShift(c, r.steps, p);
        }
      }
    }
  }

  lemma {:induction false} ScanRunsAllOnFailure(c: Codec, attempts: nat, p: Port)
    ensures !ScanLoop(c, attempts, p).ok ==> ScanLoop(c, attempts, p).port == PassPort(c, attempts, p)
    decreases attempts
  {
    if attempts > 0 {
      var a := Step(c, p);
      if !a.found {
        ScanRunsAllOnFailure(c, attempts - 1, a.port);
        assert ScanLoop(c, attempts, p).port == ScanLoop(c, attempts - 1, a.port).port;
        PassShift(c, attempts, p);
      }
    }
  }

  /**
   `read()`: nothing waiting means false at once with nothing consumed;
   otherwise at most `attempts` passes, true only right after a pass that
   filled the packet with a valid frame.
   */
  function Read(c: Codec, attempts: nat, p: Port): (r: Scan)
    ensures !Available(p.rx) ==> !r.ok && r.port == p
    ensures r.steps <= attempts
    ensures r.ok ==> 1 <= r.steps && c.valid(r.port.packet) && |r.port.packet| == c.size
    ensures Available(p.rx) && !r.ok ==> r.steps == attempts
  {
    if !Available(p.rx) then Scan(false, p, 0) else ScanLoop(c, attempts, p)
  }

  /**
   `read()` is true exactly when input is waiting and one of its `attempts`
   passes fills the packet with a valid frame; it returns right after the
   first such pass.
   */
  lemma ReadSucceedsIff(c: Codec, attempts: nat, p: Port)
    ensures var r := Read(c, attempts, p);
      && (r.ok <==> Available(p.rx) && exists k :: 0 <= k < attempts && FoundAt(c, k, p))
      && (r.ok ==> FoundAt(c, r.steps - 1, p) && forall k :: 0 <= k < r.steps - 1 ==> !FoundAt(c, k, p))
  {
    if Available(p.rx) {
      ScanSucceedsIff(c, attempts, p);
      ScanStopsAtFirst(c, attempts, p);
    }
  }

  /** A pass consumes a prefix of the input, never more than one frame's worth. */
  lemma StepConsumesPrefix(c: Codec, p: Port)
    ensures Suffix(Step(c, p).port.rx, p.rx)
    ensures |p.rx| - |Step(c, p).port.rx| <= MaxStep(c)
  {
  }

  /** The loop consumes a prefix of the input. */
  lemma {:induction false} ScanConsumesPrefix(c: Codec, attempts: nat, p: Port)
    ensures Suffix(ScanLoop(c, attempts, p).port.rx, p.rx)
    decreases attempts
  {
    if attempts > 0 {
      var a := Step(c, p);
      StepConsumesPrefix(c, p);
      if !a.found {
        ScanConsumesPrefix(c, attempts - 1, a.port);
        SuffixTrans(ScanLoop(c, attempts - 1, a.port).port.rx, a.port.rx, p.rx);
      }
    }
  }

  /** `k` passes of at most `m` bytes each, counted without multiplication. */
  function Times(k: nat, m: nat): nat
  {
    if k == 0 then 0 else Times(k - 1, m) + m
  }

  lemma {:induction false} TimesIsProduct(k: nat, m: nat)
    ensures Times(k, m) == k * m
  {
    if k > 0 {
      TimesIsProduct(k - 1, m);
      assert k * m == (k - 1) * m + m;
    }
  }

  /** Each pass of the loop consumes at most one frame's worth (one byte when the frame size is zero). */
  lemma {:induction false} ScanConsumesBounded(c: Codec, attempts: nat, p: Port)
    ensures |p.rx| - |ScanLoop(c, attempts, p).port.rx| <= Times(attempts, MaxStep(c))
    decreases attempts
  {
    if attempts > 0 {
      var a := Step(c, p);
      var first := |p.rx| - |a.port.rx|;
      assert first <= MaxStep(c);
      if a.found {
        assert ScanLoop(c, attempts, p).port == a.port;
        TimesAtLeast(attempts, MaxStep(c));
      } else {
        var rest := ScanLoop(c, attempts - 1, a.port).port.rx;
        assert ScanLoop(c, attempts, p).port.rx == rest;
        ScanConsumesBounded(c, attempts - 1, a.port);
        assert |p.rx| - |rest| == first + (|a.port.rx| - |rest|);
        assert Times(attempts, MaxStep(c)) == Times(attempts - 1, MaxStep(c)) + MaxStep(c);
      }
    }
  }

  lemma TimesAtLeast(k: nat, m: nat)
    requires 1 <= k
    ensures m <= Times(k, m)
  {
    if k > 1 {
      TimesAtLeast(k - 1, m);
    }
  }

  /** `read()` consumes a prefix of the input, at most `attempts` frames' worth. */
  lemma ReadConsumesPrefix(c: Codec, attempts: nat, p: Port)
    ensures Suffix(Read(c, attempts, p).port.rx, p.rx)
    ensures |p.rx| - |Read(c, attempts, p).port.rx| <= attempts * MaxStep(c)
  {
    TimesIsProduct(attempts, MaxStep(c));
    if Available(p.rx) {
      assert Read(c, attempts, p) == ScanLoop(c, attempts, p);
      ScanConsumesPrefix(c, attempts, p);
      ScanConsumesBounded(c, attempts, p);
    } else {
      assert Read(c, attempts, p).port == p;
    }
  }

  predicate NoStart(noise: seq<byte>)
  {
    forall k :: 0 <= k < |noise| ==> noise[k] != Start1
  }

  /** A pass that meets a whole valid frame at the head takes exactly that frame. */
  lemma StepTakesFrame(c: Codec, f: seq<byte>, tail: seq<byte>, packet: seq<byte>)
    requires |f| == c.size && 0 < |f| && f[0] == Start1 && c.valid(f)
    ensures Step(c, Port(f + tail, packet)) == Attempt(true, Port(tail, f))
  {
    var rx := f + tail;
    var z := ZeroFilled(rx, c.size);
    forall i | 0 <= i < c.size
      ensures z[i] == f[i]
    {
      assert rx[i] == f[i];
    }
    assert z == f;
    assert rx[c.size..] == tail;
  }

  /** A pass that meets any other byte at the head drops just that byte. */
  lemma StepSkipsNoise(c: Codec, rx: seq<byte>, packet: seq<byte>)
    requires 0 < |rx| && rx[0] != Start1
    ensures Step(c, Port(rx, packet)) == Attempt(false, Port(rx[1..], packet))
  {
  }

  /**
   Resynchronisation: noise without a 0x42 in front of a valid frame costs one
   pass and one byte per noise byte, and then the frame is found whole.
   */
  lemma {:induction false} ScanFindsFrame(
    c: Codec, attempts: nat, noise: seq<byte>, f: seq<byte>, tail: seq<byte>, packet: seq<byte>)
    requires |noise| < attempts && NoStart(noise)
    requires |f| == c.size && 0 < |f| && f[0] == Start1 && c.valid(f)
    ensures ScanLoop(c, attempts, Port(noise + f + tail, packet)) == Scan(true, Port(tail, f), |noise| + 1)
    decreases |noise|
  {
    var rx := noise + f + tail;
    if |noise| == 0 {
      assert rx == f + tail;
      StepTakesFrame(c, f, tail, packet);
    } else {
      assert rx[0] == noise[0];
      assert rx[1..] == noise[1..] + f + tail;
      StepSkipsNoise(c, rx, packet);
      assert NoStart(noise[1..]);
      ScanFindsFrame(c, attempts - 1, noise[1..], f, tail, packet);
      var s := ScanLoop(c, attempts - 1, Port(rx[1..], packet));
      assert ScanLoop(c, attempts, Port(rx, packet)) == Scan(s.ok, s.port, s.steps + 1);
    }
  }

  lemma ReadFindsFrame(
    c: Codec, attempts: nat, noise: seq<byte>, f: seq<byte>, tail: seq<byte>, packet: seq<byte>)
    requires |noise| < attempts && NoStart(noise)
    requires |f| == c.size && 0 < |f| && f[0] == Start1 && c.valid(f)
    ensures Read(c, attempts, Port(noise + f + tail, packet)) == Scan(true, Port(tail, f), |noise| + 1)
  {
    assert (noise + f + tail)[|noise|] == f[0];
    ScanFindsFrame(c, attempts, noise, f, tail, packet);
  }

  /** `readUntilSuccessful(tries)`: `read()` until one succeeds or the tries run out. */
  function ReadUntil(c: Codec, attempts: nat, tries: nat, p: Port): (r: Retry)
    decreases tries
    ensures r.calls <= tries
    ensures r.ok ==> 1 <= r.calls && c.valid(r.port.packet) && |r.port.packet| == c.size
    ensures !r.ok ==> r.calls == tries
  {
    if tries == 0 then Retry(false, p, 0)
    else
      var s := Read(c, attempts, p);
      if s.ok then Retry(true, s.port, 1)
      else
        var r := ReadUntil(c, attempts, tries - 1, s.port);
        Retry(r.ok, r.port, r.calls + 1)
  }

  /** The port after `j` consecutive `read()` calls, whatever they returned. */
  function After(c: Codec, attempts: nat, j: nat, p: Port): Port
    decreases j
  {
    if j == 0 then p else After(c, attempts, j - 1, Read(c, attempts, p).port)
  }

  /** Whether the `j`-th of a run of consecutive `read()` calls succeeds. */
  predicate SucceedsAt(c: Codec, attempts: nat, j: nat, p: Port)
  {
    Read(c, attempts, After(c, attempts, j, p)).ok
  }

  /** The reads after the first one start where the first one stopped. */
  lemma AfterShift(c: Codec, attempts: nat, j: nat, p: Port)
    requires 1 <= j
    ensures After(c, attempts, j, p) == After(c, attempts, j - 1, Read(c, attempts, p).port)
    ensures SucceedsAt(c, attempts, j, p) == SucceedsAt(c, attempts, j - 1, Read(c, attempts, p).port)
  {
  }

  /** `readUntilSuccessful` succeeds exactly when one of its first `tries` reads would. */
  lemma {:induction false} ReadUntilSucceedsIff(c: Codec, attempts: nat, tries: nat, p: Port)
    ensures ReadUntil(c, attempts, tries, p).ok <==> exists j :: 0 <= j < tries && SucceedsAt(c, attempts, j, p)
    decreases tries
  {
    if tries > 0 {
      var s := Read(c, attempts, p);
      assert After(c, attempts, 0, p) == p;
      if s.ok {
        assert SucceedsAt(c, attempts, 0, p);
      } else {
        ReadUntilSucceedsIff(c, attempts, tries - 1, s.port);
        assert ReadUntil(c, attempts, tries, p).ok == ReadUntil(c, attempts, tries - 1, s.port).ok;
        if ReadUntil(c, attempts, tries - 1, s.port).ok {
          var j :| 0 <= j < tries - 1 && SucceedsAt(c, attempts, j, s.port);
          AfterShift(c, attempts, j + 1, p);
        } else {
          forall j | 0 <= j < tries
            ensures !SucceedsAt(c, attempts, j, p)
          {
            if j > 0 {
              AfterShift(c, attempts, j, p);
            }
          }
        }
      }
    }
  }

  /**
   On success `readUntilSuccessful` has stopped at the first read that
   succeeds, and holds what that read left.
   */
  lemma {:induction false} ReadUntilStopsAtFirst(c: Codec, attempts: nat, tries: nat, p: Port)
    ensures var r := ReadUntil(c, attempts, tries, p);
      && (r.ok ==> forall j :: 0 <= j < r.calls - 1 ==> !SucceedsAt(c, attempts, j, p))
      && (r.ok ==> SucceedsAt(c, attempts, r.calls - 1, p))
      && (r.ok ==> r.port == Read(c, attempts, After(c, attempts, r.calls - 1, p)).port)
    decreases tries
  {
    if tries > 0 {
      var s := Read(c, attempts, p);
      assert After(c, attempts, 0, p) == p;
      if !s.ok {
        ReadUntilStopsAtFirst(c, attempts, tries - 1, s.port);
        var r := ReadUntil(c, attempts, tries - 1, s.port);
        if r.ok {
          forall j | 0 <= j < r.calls
            ensures !SucceedsAt(c, attempts, j, p)
          {
            if j > 0 {
              AfterShift(c, attempts, j, p);
            }
          }
          AfterShift(c, attempts, r.calls, p);
        }
      }
    }
  }

  /** On failure `readUntilSuccessful` has consumed exactly what `tries` reads consume. */
  lemma {:induction false} ReadUntilFailureConsumes(c: Codec, attempts: nat, tries: nat, p: Port)
    ensures !ReadUntil(c, attempts, tries, p).ok ==> ReadUntil(c, attempts, tries, p).port == After(c, attempts, tries, p)
    decreases tries
  {
    if tries > 0 {
      var s := Read(c, attempts, p);
      if !s.ok {
        ReadUntilFailureConsumes(c, attempts, tries - 1, s.port);
        AfterShift(c, attempts, tries, p);
      }
    }
  }

  /** A silent sensor: every try fails, nothing is consumed and the packet is untouched. */
  lemma {:induction false} SilentLineFails(c: Codec, attempts: nat, tries: nat, p: Port)
    ensures !Available(p.rx) ==> ReadUntil(c, attempts, tries, p) == Retry(false, p, tries)
    decreases tries
  {
    if tries > 0 && !Available(p.rx) {
      SilentLineFails(c, attempts, tries - 1, p);
    }
  }
}
