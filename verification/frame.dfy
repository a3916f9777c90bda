/**
 The PMS5003/PMS7003 data frame (`PMS5003::Packet`): 32 bytes made of the start
 marker `42 4D`, a big-endian frame length that must read `2*13+2` (thirteen
 data words plus the checksum), thirteen big-endian data words, and a trailing
 big-endian checksum equal to the 16-bit sum of every byte before it.

 The exact position of the PM1.0/PM2.5/PM10 atmospheric words inside the data
 area is a `Layout` parameter.
 */
module Frame {
  import opened Bytes
  import opened Serial

  const FrameSize: nat := 32
  const HeaderSize: nat := 4
  const DataWords: nat := 13
  /** The declared frame length: the data words and the checksum, in bytes. */
  const FrameLen: byte := 2 * 13 + 2
  /** Where the checksum word starts; everything before it is summed. */
  const TrailerAt: nat := FrameSize - 2

  const Header: seq<byte> := [Start1, Start2, 0, FrameLen]

  /** The checksum the frame should carry: the sum of all but the last two bytes, wrapped to 16 bits. */
  function Checksum(p: seq<byte>): nat
    requires |p| == FrameSize
  {
    Sum(p[..TrailerAt]) % WordModulus
  }

  /**
   `calculated_checksum()` as written: a 16-bit running sum over every byte
   of the packet, from which the two checksum bytes are then subtracted again.
   */
  method CalculatedChecksum(p: seq<byte>) returns (c: int)
    requires |p| == FrameSize
    ensures c == Checksum(p)
    ensures 0 <= c < WordModulus
  {
    var sum: int := 0;
    var i := 0;
    while i < |p|
      invariant 0 <= i <= |p|
      invariant sum == Sum(p[..i]) % WordModulus
    {
      assert p[..i + 1][..i] == p[..i];
      ModAdd(Sum(p[..i]), p[i]);
      sum := (sum + p[i]) % WordModulus;
      i := i + 1;
    }
    assert p[..i] == p;
    SumOfFrame(p);
    var trailer := (p[|p| - 1] as int) + (p[|p| - 2] as int);
    ModAdd(Sum(p), -trailer);
    c := (sum - p[|p| - 1] - p[|p| - 2]) % WordModulus;
    assert c == (Sum(p) - trailer) % WordModulus;
  }

  lemma SumOfFrame(p: seq<byte>)
    requires |p| == FrameSize
    ensures Sum(p) == Sum(p[..TrailerAt]) + p[TrailerAt] + p[TrailerAt + 1]
  {
    assert p == p[..TrailerAt] + p[TrailerAt..];
    SumAppend(p[..TrailerAt], p[TrailerAt..]);
    var t: seq<byte> := p[TrailerAt..];
    assert t == [p[TrailerAt]] + [p[TrailerAt + 1]];
    SumSnoc([p[TrailerAt]], p[TrailerAt + 1]);
    SumSnoc([], p[TrailerAt]);
  }

  /** `is_valid()`: start marker, then declared length, then checksum. */
  predicate IsValid(p: seq<byte>): (b: bool)
    requires |p| == FrameSize
    ensures b <==> p[..HeaderSize] == Header && Field(p, TrailerAt) == Checksum(p)
  {
    if p[0] != Start1 || p[1] != Start2 then false
    else if p[2] != 0 || p[3] != FrameLen then false
    else Checksum(p) == Word(p[TrailerAt], p[TrailerAt + 1])
  }

  /** `reset()`: the packet zeroed; such a packet is never valid. */
  function Reset(): (p: seq<byte>)
    ensures |p| == FrameSize
    ensures forall i :: 0 <= i < |p| ==> p[i] == 0
    ensures !IsValid(p)
  {
    Zeros(FrameSize)
  }

  /** A big-endian 16-bit field at byte offset `off`. */
  function Field(p: seq<byte>, off: nat): (v: nat)
    requires off + 1 < |p|
    ensures v < WordModulus
  {
    Word(p[off], p[off + 1])
  }

  /** A field reads its own two bytes and no other. */
  lemma FieldIsLocal(p: seq<byte>, off: nat, j: nat, b: byte)
    requires off + 1 < |p| && j < |p| && j != off && j != off + 1
    ensures Field(p[j := b], off) == Field(p, off)
  {
  }

  /** Offsets of the PM1.0, PM2.5 and PM10 atmospheric words. */
  datatype Layout = Layout(pm1: nat, pm25: nat, pm10: nat)

  /** A field lies in the data area, between the header and the checksum. */
  predicate InData(off: nat)
  {
    HeaderSize <= off && off + 1 < TrailerAt
  }

  predicate ValidLayout(l: Layout)
  {
    InData(l.pm1) && InData(l.pm25) && InData(l.pm10)
  }

  /** `pm1()`. */
  function Pm1Value(l: Layout, p: seq<byte>): (v: nat)
    requires ValidLayout(l) && |p| == FrameSize
    ensures v < WordModulus
    ensures v == Word(p[l.pm1], p[l.pm1 + 1])
  {
    Field(p, l.pm1)
  }

  /** `pm25()`. */
  function Pm25Value(l: Layout, p: seq<byte>): (v: nat)
    requires ValidLayout(l) && |p| == FrameSize
    ensures v < WordModulus
    ensures v == Word(p[l.pm25], p[l.pm25 + 1])
  {
    Field(p, l.pm25)
  }

  /** `pm10()`. */
  function Pm10Value(l: Layout, p: seq<byte>): (v: nat)
    requires ValidLayout(l) && |p| == FrameSize
    ensures v < WordModulus
    ensures v == Word(p[l.pm10], p[l.pm10 + 1])
  {
    Field(p, l.pm10)
  }

  // An independent description of the valid frames: they are exactly the
  // frames a sender builds from thirteen data words.

  predicate IsWords(w: seq<nat>)
  {
    |w| == DataWords && forall k :: 0 <= k < |w| ==> w[k] < WordModulus
  }

  /** The data words written out high byte first. */
  function Flatten(w: seq<nat>): (b: seq<byte>)
    requires IsWords(w)
    ensures |b| == 2 * |w|
  {
    seq(2 * |w|, i requires 0 <= i < 2 * |w| =>
      if i % 2 == 0 then w[i / 2] / 256 else w[i / 2] % 256)
  }

  /** The frame a sensor sends for the data words `w`. */
  function Encode(w: seq<nat>): (p: seq<byte>)
    requires IsWords(w)
    ensures |p| == FrameSize
  {
    var body := Header + Flatten(w);
    body + Be16(Sum(body) % WordModulus)
  }

  /** The thirteen data words a frame carries. */
  function Payload(p: seq<byte>): (w: seq<nat>)
    requires |p| == FrameSize
    ensures IsWords(w)
  {
    seq(DataWords, k requires 0 <= k < DataWords => Field(p, HeaderSize + 2 * k))
  }

  lemma FlattenWord(w: seq<nat>, k: nat)
    requires IsWords(w) && k < |w|
    ensures Word(Flatten(w)[2 * k], Flatten(w)[2 * k + 1]) == w[k]
  {
    var b := Flatten(w);
    assert (2 * k) % 2 == 0 && (2 * k) / 2 == k;
    assert (2 * k + 1) % 2 == 1 && (2 * k + 1) / 2 == k;
    assert b[2 * k] == w[k] / 256 && b[2 * k + 1] == w[k] % 256;
  }

  /** Every encoded frame is valid and carries the words it was built from. */
  lemma {:induction false} EncodeIsValid(w: seq<nat>)
    requires IsWords(w)
    ensures IsValid(Encode(w))
    ensures Payload(Encode(w)) == w
  {
    var body := Header + Flatten(w);
    var p := Encode(w);
    assert p[..TrailerAt] == body;
    assert p[..HeaderSize] == Header;
    forall k | 0 <= k < DataWords
      ensures Payload(p)[k] == w[k]
    {
      assert p[HeaderSize + 2 * k] == Flatten(w)[2 * k];
      assert p[HeaderSize + 2 * k + 1] == Flatten(w)[2 * k + 1];
      FlattenWord(w, k);
    }
  }

  /** Every valid frame is the encoding of the words it carries. */
  lemma {:induction false} ValidIsEncoded(p: seq<byte>)
    requires |p| == FrameSize && IsValid(p)
    ensures Encode(Payload(p)) == p
  {
    var w := Payload(p);
    var f := Flatten(w);
    forall i | 0 <= i < 2 * DataWords
      ensures f[i] == p[HeaderSize + i]
    {
      var k := i / 2;
      WordSplit(p[HeaderSize + 2 * k], p[HeaderSize + 2 * k + 1]);
      assert w[k] == Word(p[HeaderSize + 2 * k], p[HeaderSize + 2 * k + 1]);
      if i % 2 == 0 {
        assert i == 2 * k;
      } else {
        assert i == 2 * k + 1;
      }
    }
    var body := Header + f;
    assert body == p[..TrailerAt];
    WordSplit(p[TrailerAt], p[TrailerAt + 1]);
    assert p == p[..TrailerAt] + [p[TrailerAt], p[TrailerAt + 1]];
  }

  /** Validity holds exactly for the frames that re-encode to themselves. */
  lemma ValidIffEncoded(p: seq<byte>)
    requires |p| == FrameSize
    ensures IsValid(p) <==> Encode(Payload(p)) == p
  {
    if IsValid(p) {
      ValidIsEncoded(p);
    } else if Encode(Payload(p)) == p {
      EncodeIsValid(Payload(p));
    }
  }

  /** Overwriting only the checksum bytes never changes the calculated checksum. */
  lemma ChecksumIgnoresTrailer(p: seq<byte>, hi: byte, lo: byte)
    requires |p| == FrameSize
    ensures Checksum(p[TrailerAt := hi][TrailerAt + 1 := lo]) == Checksum(p)
  {
    assert p[TrailerAt := hi][TrailerAt + 1 := lo][..TrailerAt] == p[..TrailerAt];
  }

  /** Changing any single byte of a valid frame makes it invalid. */
  lemma {:induction false} SingleByteCorruptionDetected(p: seq<byte>, i: nat, v: byte)
    requires |p| == FrameSize && IsValid(p)
    requires i < FrameSize && v != p[i]
    ensures !IsValid(p[i := v])
  {
    var q := p[i := v];
    if i < HeaderSize {
      assert q[i] != p[i];
    } else if i < TrailerAt {
      assert q[..TrailerAt] == p[..TrailerAt][i := v];
      SumUpdate(p[..TrailerAt], i, v);
      ModDetects(Sum(p[..TrailerAt]), v - p[i]);
      assert Checksum(q) != Checksum(p);
    } else {
      assert q[..TrailerAt] == p[..TrailerAt];
      if Word(q[TrailerAt], q[TrailerAt + 1]) == Word(p[TrailerAt], p[TrailerAt + 1]) {
        WordInjective(q[TrailerAt], q[TrailerAt + 1], p[TrailerAt], p[TrailerAt + 1]);
      }
    }
  }
}
