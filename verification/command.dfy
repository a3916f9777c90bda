/**
 The 7-byte host-to-sensor command frames of the PMS family: start marker,
 command code, a big-endian data word, and a big-endian checksum of the five
 bytes before it. The drivers only ever send the sleep and wake-up commands,
 as fixed byte strings.
 */
module Command {
  import opened Bytes

  /** The command code that switches between sleep and normal mode. */
  const ChangeMode: byte := 0xE4

  const SleepCmd: seq<byte> := [0x42, 0x4D, 0xE4, 0x00, 0x00, 0x01, 0x73]
  const WakeCmd: seq<byte> := [0x42, 0x4D, 0xE4, 0x00, 0x01, 0x01, 0x74]

  /** A command frame built from its code and data word. */
  function Build(cmd: byte, data: nat): (f: seq<byte>)
    requires data < WordModulus
    ensures |f| == 7
    ensures f[0] == Start1 && f[1] == Start2 && f[2] == cmd
    ensures Word(f[3], f[4]) == data
    ensures Word(f[5], f[6]) == Sum(f[..5]) % WordModulus
  {
    var body := [Start1, Start2, cmd] + Be16(data);
    assert (body + Be16(Sum(body) % WordModulus))[..5] == body;
    body + Be16(Sum(body) % WordModulus)
  }

  /** The sum of the first five bytes of a mode-change command with data low byte `lo`. */
  lemma SumOfPrefix(lo: byte)
    ensures Sum([0x42, 0x4D, 0xE4, 0x00, lo]) == 0x173 + lo
  {
    var s0: seq<byte> := [];
    var s1 := s0 + [0x42];
    var s2 := s1 + [0x4D];
    var s3 := s2 + [0xE4];
    var s4 := s3 + [0x00];
    var s5 := s4 + [lo];
    SumSnoc(s0, 0x42);
    SumSnoc(s1, 0x4D);
    SumSnoc(s2, 0xE4);
    SumSnoc(s3, 0x00);
    SumSnoc(s4, lo);
    assert s5 == [0x42, 0x4D, 0xE4, 0x00, lo];
  }

  /** The mode-change command with data 0 or 1, byte by byte. */
  lemma ModeChangeBytes(lo: byte)
    requires lo <= 1
    ensures Build(ChangeMode, lo) == [0x42, 0x4D, 0xE4, 0x00, lo, 0x01, 0x73 + lo]
  {
    var body: seq<byte> := [Start1, Start2, ChangeMode] + Be16(lo);
    assert body == [0x42, 0x4D, 0xE4, 0x00, lo];
    SumOfPrefix(lo);
    var check := Sum(body) % WordModulus;
    assert check == 0x173 + lo;
    assert Be16(check) == [0x01, 0x73 + lo];
    assert Build(ChangeMode, lo) == body + Be16(check);
  }

  /** The fixed sleep string is the mode-change command with data 0. */
  lemma SleepIsModeChange()
    ensures SleepCmd == Build(ChangeMode, 0)
  {
    ModeChangeBytes(0);
  }

  /** The fixed wake-up string is the mode-change command with data 1. */
  lemma WakeIsModeChange()
    ensures WakeCmd == Build(ChangeMode, 1)
  {
    ModeChangeBytes(1);
  }

  /** In both fixed strings the last two bytes, big-endian, are the sum of the first five. */
  lemma FixedChecksums()
    ensures Word(SleepCmd[5], SleepCmd[6]) == Sum(SleepCmd[..5]) == 0x173
    ensures Word(WakeCmd[5], WakeCmd[6]) == Sum(WakeCmd[..5]) == 0x174
  {
    SumOfPrefix(0);
    SumOfPrefix(1);
    assert SleepCmd[..5] == [0x42, 0x4D, 0xE4, 0x00, 0x00];
    assert WakeCmd[..5] == [0x42, 0x4D, 0xE4, 0x00, 0x01];
  }
}
