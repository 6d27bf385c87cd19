/** The "frames" output of screenrecord: pixels reduced in place from RGBA to RGB, and the packets they
    are written in. */
module Frames {
  import opened Sequences
  import opened Wrappers

  const UINT32: nat := 0x1_0000_0000
  const HAL_PIXEL_FORMAT_RGB_888: nat := 3
  const HEADER_LENGTH: nat := 20

  // ---- reduction ----

  // Three bytes of each four.
  function Reduced(rgba: seq<Byte>, pixels: nat): (rgb: seq<Byte>)
    requires |rgba| >= 4 * pixels
    ensures |rgb| == 3 * pixels
  {
    if pixels == 0 then []
    else
      Reduced(rgba, pixels - 1)
      + [rgba[4 * pixels - 4], rgba[4 * pixels - 3], rgba[4 * pixels - 2]]
  }

  // Byte j of pixel i is byte j of pixel i.
  lemma {:induction false} ReducedAt(rgba: seq<Byte>, pixels: nat, i: nat, j: nat)
    requires |rgba| >= 4 * pixels && i < pixels && j < 3
    ensures Reduced(rgba, pixels)[3 * i + j] == rgba[4 * i + j]
    decreases pixels
  {
    if i < pixels - 1 {
      ReducedAt(rgba, pixels - 1, i, j);
    }
  }

  // Three of the assignments through the two pointers.
  method MovePixel(buf: array<Byte>, write: nat, read: nat)
    requires write <= read && read + 3 <= buf.Length
    modifies buf
    ensures buf[..write] == old(buf[..write])
    ensures buf[write..write + 3] == old(buf[read..read + 3])
    ensures buf[write + 3..] == old(buf[write + 3..])
  {
    buf[write] := buf[read];
    buf[write + 1] := buf[read + 1];
    buf[write + 2] := buf[read + 2];
  }

  // reduceRgbaToRgb: the writing position never overtakes the reading position.
  method ReduceRgbaToRgb(buf: array<Byte>, pixelCount: nat)
    requires buf.Length >= 4 * pixelCount
    modifies buf
    ensures buf[..3 * pixelCount] == Reduced(old(buf[..]), pixelCount)
    ensures buf[3 * pixelCount..] == old(buf[3 * pixelCount..])
  {
    ghost var rgba := buf[..];
    var write, read := 0, 0;
    for i := 0 to pixelCount
      invariant write == 3 * i && read == 4 * i
      invariant buf[..write] == Reduced(rgba, i) && buf[write..] == rgba[write..]
    {
      ghost var before := buf[..];
      MovePixel(buf, write, read);
      PixelMoved(rgba, before, buf[..], i);
      write, read := write + 3, read + 4;
    }
  }

  lemma PixelMoved(rgba: seq<Byte>, before: seq<Byte>, after: seq<Byte>, i: nat)
    requires |before| == |after| == |rgba| >= 4 * i + 4
    requires before[..3 * i] == Reduced(rgba, i) && before[3 * i..] == rgba[3 * i..]
    requires after[..3 * i] == before[..3 * i] && after[3 * i + 3..] == before[3 * i + 3..]
    requires after[3 * i..3 * i + 3] == before[4 * i..4 * i + 3]
    ensures after[..3 * i + 3] == Reduced(rgba, i + 1) && after[3 * i + 3..] == rgba[3 * i + 3..]
  {
    OneMorePixel(rgba, i);
    assert after[..3 * i + 3] == after[..3 * i] + after[3 * i..3 * i + 3];
  }

  lemma OneMorePixel(rgba: seq<Byte>, i: nat)
    requires |rgba| >= 4 * i + 4
    ensures Reduced(rgba, i + 1) == Reduced(rgba, i) + rgba[4 * i..4 * i + 3]
  {
    assert rgba[4 * i..4 * i + 3] == [rgba[4 * i], rgba[4 * i + 1], rgba[4 * i + 2]];
  }

  // ---- packets ----

  function Le(value: nat): (b: seq<Byte>)
    ensures |b| == 4
  {
    [value % 256, value / 0x100 % 256, value / 0x1_0000 % 256, value / 0x100_0000 % 256]
  }

  function FromLe(b: seq<Byte>): nat
    requires |b| >= 4
  {
    var b0: nat, b1: nat, b2: nat, b3: nat := b[0], b[1], b[2], b[3];
    b0 + 0x100 * b1 + 0x1_0000 * b2 + 0x100_0000 * b3
  }

  lemma LowBytes(v: nat)
    ensures v % 256 + 0x100 * (v / 0x100 % 256) + 0x1_0000 * (v / 0x1_0000 % 256)
            + 0x100_0000 * (v / 0x100_0000 % 256)
            == v % UINT32
  {
    var q1, q2, q3 := v / 0x100, v / 0x1_0000, v / 0x100_0000;
    assert q2 == q1 / 256 && q3 == q2 / 256 && v / UINT32 == q3 / 256;
  }

  // setValueLE keeps a value modulo 2^32.
  lemma LeRoundTrip(value: nat)
    ensures FromLe(Le(value)) == value % UINT32
  {
    LowBytes(value);
  }

  method SetValueLE(buf: array<Byte>, at: nat, value: nat)
    requires at + 4 <= buf.Length
    modifies buf
    ensures buf[..at + 4] == old(buf[..at]) + Le(value)
    ensures buf[at + 4..] == old(buf[at + 4..])
  {
    buf[at] := value % 256;
    buf[at + 1] := value / 0x100 % 256;
    buf[at + 2] := value / 0x1_0000 % 256;
    buf[at + 3] := value / 0x100_0000 % 256;
    assert buf[..at + 4] == buf[..at] + buf[at..at + 4];
  }

  datatype Frame = Frame(width: nat, height: nat, pixels: seq<Byte>)

  // The width and the height are ints.
  ghost predicate ValidFrame(f: Frame) { f.width < 0x8000_0000 && f.height < 0x8000_0000 }

  function Encode(f: Frame): seq<Byte> {
    Le(HEADER_LENGTH - 4 + |f.pixels|) + Le(f.width) + Le(f.height) + Le(f.width * 3)
    + Le(HAL_PIXEL_FORMAT_RGB_888) + f.pixels
  }

  // A reader: the length, then as many bytes, of which the first sixteen describe the pixels.
  datatype Packet = Packet(width: nat, height: nat, stride: nat, format: nat, pixels: seq<Byte>)

  function Decode(s: seq<Byte>): Option<(Packet, seq<Byte>)> {
    if |s| < 4 then None
    else
      var length := FromLe(s);
      if length < 16 || |s| < 4 + length then None
      else
        Some((Packet(FromLe(s[4..]), FromLe(s[8..]), FromLe(s[12..]), FromLe(s[16..]), s[20..4 + length]),
              s[4 + length..]))
  }

  function PacketOf(f: Frame): Packet {
    Packet(f.width, f.height, f.width * 3 % UINT32, HAL_PIXEL_FORMAT_RGB_888, f.pixels)
  }

  lemma FieldsAreRead(a: seq<Byte>, b: seq<Byte>, c: seq<Byte>, d: seq<Byte>, e: seq<Byte>, p: seq<Byte>)
    requires |a| == 4 && |b| == 4 && |c| == 4 && |d| == 4 && |e| == 4
    ensures Decode(a + b + c + d + e + p)
            == if FromLe(a) < 16 || |p| < FromLe(a) - 16 then None
               else
                 Some((Packet(FromLe(b), FromLe(c), FromLe(d), FromLe(e), p[..FromLe(a) - 16]),
                       p[FromLe(a) - 16..]))
  {
    var s, length := a + b + c + d + e + p, FromLe(a);
    assert FromLe(s) == length;
    if 16 <= length && length - 16 <= |p| {
      assert s[4..][..4] == b && s[8..][..4] == c && s[12..][..4] == d && s[16..][..4] == e;
      assert FromLe(s[4..]) == FromLe(b) && FromLe(s[8..]) == FromLe(c);
      assert FromLe(s[12..]) == FromLe(d) && FromLe(s[16..]) == FromLe(e);
      assert s[20..4 + length] == p[..length - 16] && s[4 + length..] == p[length - 16..];
    }
  }

  lemma Behind(f: Frame, tail: seq<Byte>)
    ensures Encode(f) + tail
            == Le(16 + |f.pixels|) + Le(f.width) + Le(f.height) + Le(f.width * 3)
               + Le(HAL_PIXEL_FORMAT_RGB_888) + (f.pixels + tail)
  {
  }

  // The words of a frame's header, as a reader sees them.
  ghost predicate HeaderOf(f: Frame, a: seq<Byte>, b: seq<Byte>, c: seq<Byte>, d: seq<Byte>, e: seq<Byte>) {
    |a| == 4 && |b| == 4 && |c| == 4 && |d| == 4 && |e| == 4
    && FromLe(a) == (16 + |f.pixels|) % UINT32 && FromLe(b) == f.width && FromLe(c) == f.height
    && FromLe(d) == f.width * 3 % UINT32 && FromLe(e) == HAL_PIXEL_FORMAT_RGB_888
  }

  lemma HeaderIsRead(f: Frame)
    requires ValidFrame(f)
    ensures HeaderOf(f, Le(16 + |f.pixels|), Le(f.width), Le(f.height), Le(f.width * 3),
                     Le(HAL_PIXEL_FORMAT_RGB_888))
  {
    LeRoundTrip(16 + |f.pixels|);
    SmallIsRead(f.width);
    SmallIsRead(f.height);
    LeRoundTrip(f.width * 3);
    SmallIsRead(HAL_PIXEL_FORMAT_RGB_888);
  }

  lemma SmallIsRead(value: nat)
    requires value < UINT32
    ensures FromLe(Le(value)) == value
  {
    LeRoundTrip(value);
  }

  // What a reader makes of a header and the bytes behind it.
  function Seen(f: Frame, length: nat, p: seq<Byte>): Option<(Packet, seq<Byte>)> {
    if length < 16 || |p| < length - 16 then None
    else Some((PacketOf(f).(pixels := p[..length - 16]), p[length - 16..]))
  }

  lemma HeaderIsSeen(f: Frame, a: seq<Byte>, b: seq<Byte>, c: seq<Byte>, d: seq<Byte>, e: seq<Byte>, p: seq<Byte>)
    requires HeaderOf(f, a, b, c, d, e)
    ensures Decode(a + b + c + d + e + p) == Seen(f, (16 + |f.pixels|) % UINT32, p)
  {
    FieldsAreRead(a, b, c, d, e, p);
  }

  lemma EncodedIsSeen(f: Frame, tail: seq<Byte>)
    requires ValidFrame(f)
    ensures Decode(Encode(f) + tail) == Seen(f, (16 + |f.pixels|) % UINT32, f.pixels + tail)
  {
    HeaderIsRead(f);
    Behind(f, tail);
    HeaderIsSeen(f, Le(16 + |f.pixels|), Le(f.width), Le(f.height), Le(f.width * 3),
                 Le(HAL_PIXEL_FORMAT_RGB_888), f.pixels + tail);
  }

  lemma SeenIff(f: Frame, tail: seq<Byte>)
    ensures Seen(f, (16 + |f.pixels|) % UINT32, f.pixels + tail) == Some((PacketOf(f), tail))
            <==> 16 + |f.pixels| < UINT32
  {
  }

  // A packet is read back, with what follows it left in place, exactly when its length fits 32 bits.
  lemma PacketRoundTripIff(f: Frame, tail: seq<Byte>)
    requires ValidFrame(f)
    ensures Decode(Encode(f) + tail) == Some((PacketOf(f), tail)) <==> 16 + |f.pixels| < UINT32
  {
    EncodedIsSeen(f, tail);
    SeenIff(f, tail);
  }

  // ---- streams ----

  function EncodeAll(frames: seq<Frame>): seq<Byte> {
    if frames == [] then [] else Encode(frames[0]) + EncodeAll(frames[1..])
  }

  function DecodeAll(s: seq<Byte>): seq<Packet>
    decreases |s|
  {
    match Decode(s)
    case None => []
    case Some((packet, rest)) => [packet] + DecodeAll(rest)
  }

  function PacketsOf(frames: seq<Frame>): seq<Packet> {
    if frames == [] then [] else [PacketOf(frames[0])] + PacketsOf(frames[1..])
  }

  // A stream of framed packets is read back as the sequence of frames.
  lemma {:induction false} StreamRoundTrip(frames: seq<Frame>)
    requires forall f :: f in frames ==> ValidFrame(f) && 16 + |f.pixels| < UINT32
    ensures DecodeAll(EncodeAll(frames)) == PacketsOf(frames)
    decreases frames
  {
    if frames != [] {
      assert frames[0] in frames;
      PacketRoundTripIff(frames[0], EncodeAll(frames[1..]));
      StreamRoundTrip(frames[1..]);
    }
  }

  // Hence two streams of frames with the same bytes are the same.
  lemma {:induction false} PacketsDetermineFrames(a: seq<Frame>, b: seq<Frame>)
    requires PacketsOf(a) == PacketsOf(b)
    ensures a == b
    decreases a
  {
    if a != [] && b != [] {
      assert PacketsOf(a)[0] == PacketsOf(b)[0] && PacketsOf(a)[1..] == PacketsOf(b)[1..];
      PacketsDetermineFrames(a[1..], b[1..]);
      assert a == [a[0]] + a[1..] && b == [b[0]] + b[1..];
    }
  }

  lemma {:induction false} StreamsAreUnique(a: seq<Frame>, b: seq<Frame>)
    requires forall f :: f in a + b ==> ValidFrame(f) && 16 + |f.pixels| < UINT32
    requires EncodeAll(a) == EncodeAll(b)
    ensures a == b
  {
    forall f | f in a ensures f in a + b {
    }
    forall f | f in b ensures f in a + b {
    }
    StreamRoundTrip(a);
    StreamRoundTrip(b);
    PacketsDetermineFrames(a, b);
  }

  method MakeHeader(width: nat, height: nat, rgbDataLen: nat) returns (header: array<Byte>)
    ensures fresh(header)
    ensures header[..]
            == Le(HEADER_LENGTH - 4 + rgbDataLen) + Le(width) + Le(height) + Le(width * 3)
               + Le(HAL_PIXEL_FORMAT_RGB_888)
  {
    header := new Byte[HEADER_LENGTH];
    SetValueLE(header, 0, HEADER_LENGTH - 4 + rgbDataLen);
    SetValueLE(header, 4, width);
    SetValueLE(header, 8, height);
    SetValueLE(header, 12, width * 3);
    SetValueLE(header, 16, HAL_PIXEL_FORMAT_RGB_888);
    assert header[..20] == header[..] && header[..0] == [];
  }

  // The end of copyFrame: the pixels are reduced in their buffer and written, framed unless raw.
  method WriteFrame(pixelBuf: array<Byte>, width: nat, height: nat, rawFrames: bool, file: seq<Byte>)
    returns (after: seq<Byte>)
    requires pixelBuf.Length == 4 * (width * height)
    modifies pixelBuf
    ensures var pixels := Reduced(old(pixelBuf[..]), width * height);
            after == file + if rawFrames then pixels else Encode(Frame(width, height, pixels))
  {
    var pixelCount := width * height;
    ghost var pixels := Reduced(pixelBuf[..], pixelCount);
    ReduceRgbaToRgb(pixelBuf, pixelCount);
    var rgbDataLen := pixelCount * 3;
    after := file;
    if !rawFrames {
      var header := MakeHeader(width, height, rgbDataLen);
      assert header[..] + pixels == Encode(Frame(width, height, pixels));
      after := after + header[..];
    }
    after := after + pixelBuf[..rgbDataLen];
  }

  // ---- literals ----

  lemma LittleEndian()
    ensures Le(0x0403_0201) == [1, 2, 3, 4] && FromLe([1, 2, 3, 4]) == 0x0403_0201
  {
  }

  // One row of two pixels: length, width, height, stride and format, then the pixels.
  lemma {:induction false} PacketInBytes(pixels: seq<Byte>)
    requires |pixels| == 6
    ensures Encode(Frame(2, 1, pixels))
         == [22, 0, 0, 0, 2, 0, 0, 0, 1, 0, 0, 0, 6, 0, 0, 0, 3, 0, 0, 0] + pixels
  {
  }
}
