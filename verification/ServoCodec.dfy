/** The servo-mode CAN frames of the CubeMars drives (CubeMars AK Series Driver Manual,
    section 5), as the Python tools and the C++ plugin pack and unpack them.
 */
module ServoCodec {
  import opened Numbers
  import J = Joints

  const MODE_DUTY := 0
  const MODE_CURRENT := 1
  const MODE_BRAKE := 2
  const MODE_SPEED := 3
  const MODE_POSITION := 4
  const MODE_SET_ORIGIN := 5
  const MODE_POSITION_SPEED := 6
  const STATUS := 0x29
  const MAX_ERPM := 100000
  const MAX_STATUS_POSITION := 3200.0

  datatype Frame = Frame(id: nat, data: seq<Byte>)

  // Rounding ------------------------------------------------------------------------

  /** Python's round(): to the nearest integer, ties to even. */
  function Round(x: real): int {
    var low := x.Floor;
    var rest := x - low as real;
    if rest < 0.5 then low
    else if rest > 0.5 then low + 1
    else if low % 2 == 0 then low else low + 1
  }

  /** Python's int(): toward zero. */
  function Truncated(x: real): int {
    if x >= 0.0 then x.Floor else -((-x).Floor)
  }

  function ClampInt(x: int, low: int, high: int): int {
    if x < low then low else if high < x then high else x
  }

  function Saturate(x: real, low: int, high: int): int {
    ClampInt(Round(x), low, high)
  }

  /** The nearest integer, and of two equally near ones the even one. */
  lemma RoundIsNearest(x: real)
    ensures Abs(Round(x) as real - x) <= 0.5
    ensures Abs(Round(x) as real - x) == 0.5 ==> Round(x) % 2 == 0
  {
  }

  /** Saturating to a range costs at most half a unit of the saturated value. */
  lemma SaturateWithinHalf(x: real, low: int, high: int)
    requires low <= high
    ensures low <= Saturate(x, low, high) <= high
    ensures Abs(Saturate(x, low, high) as real - Clamp(x, low as real, high as real)) <= 0.5
  {
    assert Abs(Round(x) as real - x) <= 0.5;
  }

  lemma TruncatedBelowOne(x: real)
    ensures Abs(Truncated(x) as real) <= Abs(x) && Abs(x - Truncated(x) as real) < 1.0
    ensures Truncated(x) > 0 ==> x > 0.0
    ensures Truncated(x) < 0 ==> x < 0.0
  {
  }

  // Byte order ----------------------------------------------------------------------

  function Power256(n: nat): nat {
    if n == 0 then 1 else 256 * Power256(n - 1)
  }

  lemma {:induction false} Power256Positive(n: nat)
    ensures Power256(n) >= 1 && (n > 0 ==> Power256(n) % 2 == 0)
  {
    if n > 0 {
      Power256Positive(n - 1);
    }
  }

  function BigEndian(raw: nat, n: nat): (b: seq<Byte>)
    ensures |b| == n
  {
    if n == 0 then [] else BigEndian(raw / 256, n - 1) + [raw % 256]
  }

  function FromBigEndian(b: seq<Byte>): nat {
    if b == [] then 0 else 256 * FromBigEndian(b[..|b| - 1]) + b[|b| - 1]
  }

  lemma {:induction false} BigEndianInverse(raw: nat, n: nat)
    requires raw < Power256(n)
    ensures FromBigEndian(BigEndian(raw, n)) == raw
  {
    if n > 0 {
      BigEndianInverse(raw / 256, n - 1);
      assert BigEndian(raw, n)[..n - 1] == BigEndian(raw / 256, n - 1);
    }
  }

  lemma {:induction false} FromBigEndianInverse(b: seq<Byte>)
    ensures FromBigEndian(b) < Power256(|b|)
    ensures BigEndian(FromBigEndian(b), |b|) == b
  {
    if b != [] {
      var rest, last := b[..|b| - 1], b[|b| - 1];
      FromBigEndianInverse(rest);
      assert b == rest + [last];
      assert FromBigEndian(b) / 256 == FromBigEndian(rest) && FromBigEndian(b) % 256 == last;
    }
  }

  /** struct.pack of one signed big-endian integer; None is struct.error. */
  function Pack(v: int, n: nat): Option<seq<Byte>> {
    var p: int := Power256(n);
    if !(-p <= 2 * v < p) then None
    else Some(BigEndian(if v < 0 then v + p else v, n))
  }

  /** struct.unpack of one signed big-endian integer. */
  function Unpack(b: seq<Byte>): int {
    var raw := FromBigEndian(b);
    if 2 * raw >= Power256(|b|) then raw - Power256(|b|) else raw
  }

  lemma PackRoundTrip(v: int, n: nat)
    requires Pack(v, n).Some?
    ensures |Pack(v, n).value| == n && Unpack(Pack(v, n).value) == v
  {
    var p := Power256(n);
    Power256Positive(n);
    BigEndianInverse(if v < 0 then v + p else v, n);
  }

  lemma UnpackRoundTrip(b: seq<Byte>)
    requires b != []
    ensures Pack(Unpack(b), |b|) == Some(b)
  {
    FromBigEndianInverse(b);
    Power256Positive(|b|);
  }

  lemma PowersUpTo4()
    ensures Power256(1) == 0x100 && Power256(2) == 0x1_0000 && Power256(4) == 0x1_0000_0000
  {
    assert Power256(3) == 256 * Power256(2);
  }

  // C++ -----------------------------------------------------------------------------

  /** send_int32: the value as uint32, shifted byte by byte. */
  function CppInt32(v: int): seq<Byte>
    requires -0x8000_0000 <= v < 0x8000_0000
  {
    var raw := if v < 0 then v + 0x1_0000_0000 else v;
    [raw / 0x100_0000 % 256, raw / 0x1_0000 % 256, raw / 0x100 % 256, raw % 256]
  }

  lemma CppPacksLikePython(v: int)
    requires -0x8000_0000 <= v < 0x8000_0000
    ensures Pack(v, 4) == Some(CppInt32(v))
  {
    PowersUpTo4();
    var raw: nat := if v < 0 then v + 0x1_0000_0000 else v;
    var a, b, c := raw / 0x100, raw / 0x1_0000, raw / 0x100_0000;
    assert a / 256 == b && b / 256 == c && c / 256 == 0;
    assert BigEndian(c, 1) == BigEndian(0, 0) + [c % 256] == [c % 256];
    assert BigEndian(b, 2) == BigEndian(c, 1) + [b % 256];
    assert BigEndian(a, 3) == BigEndian(b, 2) + [a % 256];
    assert BigEndian(raw, 4) == BigEndian(a, 3) + [raw % 256];
    assert CppInt32(v) == BigEndian(raw, 4);
    assert Pack(v, 4) == Some(BigEndian(raw, 4));
  }

  /** The int16 and int8 casts of drain_status() read what Python's decoder reads. */
  lemma CppUnpacksLikePython(high: Byte, low: Byte)
    ensures J.Int16(high, low) == Unpack([high, low])
    ensures J.Int8(low) == Unpack([low])
  {
    PowersUpTo4();
    assert [high, low][..1] == [high] && [high][..0] == [] && [low][..0] == [];
    assert FromBigEndian([high]) == high && FromBigEndian([low]) == low;
  }

  // Status frames -------------------------------------------------------------------

  datatype Status = Status(canId: Byte, positionDeg: real, speedErpm: real, currentA: real,
                           temperatureC: int, error: Byte)

  function Positions(deg: real): int {
    Saturate(Clamp(deg, -MAX_STATUS_POSITION, MAX_STATUS_POSITION) * 10.0, -32768, 32767)
  }

  function Pack16(v: int): seq<Byte>
    requires -32768 <= v <= 32767
  {
    PowersUpTo4();
    Pack(v, 2).value
  }

  function Pack8(v: int): seq<Byte>
    requires -128 <= v <= 127
  {
    PowersUpTo4();
    Pack(v, 1).value
  }

  function EncodeStatus(canId: Byte, positionDeg: real, speedErpm: real, currentA: real,
                        temperatureC: int, error: int): Frame
  {
    SaturateWithinHalf(Clamp(positionDeg, -MAX_STATUS_POSITION, MAX_STATUS_POSITION) * 10.0, -32768, 32767);
    SaturateWithinHalf(speedErpm / 10.0, -32768, 32767);
    SaturateWithinHalf(currentA * 100.0, -32768, 32767);
    Frame(STATUS * 256 + canId,
          Pack16(Positions(positionDeg))
          + Pack16(Saturate(speedErpm / 10.0, -32768, 32767))
          + Pack16(Saturate(currentA * 100.0, -32768, 32767))
          + Pack8(ClampInt(temperatureC, -128, 127))
          + [error % 256])
  }

  function DecodeStatus(f: Frame): Option<Status> {
    if f.id / 256 != STATUS || |f.data| < 8 then None
    else Some(Status(f.id % 256,
                     Unpack(f.data[0..2]) as real * 0.1, Unpack(f.data[2..4]) as real * 10.0,
                     Unpack(f.data[4..6]) as real * 0.01, Unpack(f.data[6..7]), f.data[7]))
  }

  /** A frame is read as a status exactly if its extended ID says so and it has all 8 bytes. */
  lemma StatusIsTold(f: Frame)
    ensures DecodeStatus(f).Some? <==> f.id / 256 == 0x29 && |f.data| >= 8
  {
  }

  lemma StatusFields(canId: Byte, positionDeg: real, speedErpm: real, currentA: real,
                     temperatureC: int, error: int)
    ensures var f := EncodeStatus(canId, positionDeg, speedErpm, currentA, temperatureC, error);
            && |f.data| == 8 && f.id / 256 == STATUS && f.id % 256 == canId
            && Unpack(f.data[0..2]) == Positions(positionDeg)
            && Unpack(f.data[2..4]) == Saturate(speedErpm / 10.0, -32768, 32767)
            && Unpack(f.data[4..6]) == Saturate(currentA * 100.0, -32768, 32767)
            && Unpack(f.data[6..7]) == ClampInt(temperatureC, -128, 127)
            && f.data[7] == error % 256
  {
    PowersUpTo4();
    var f := EncodeStatus(canId, positionDeg, speedErpm, currentA, temperatureC, error);
    var p, s := Positions(positionDeg), Saturate(speedErpm / 10.0, -32768, 32767);
    var c, t := Saturate(currentA * 100.0, -32768, 32767), ClampInt(temperatureC, -128, 127);
    SaturateWithinHalf(Clamp(positionDeg, -MAX_STATUS_POSITION, MAX_STATUS_POSITION) * 10.0, -32768, 32767);
    SaturateWithinHalf(speedErpm / 10.0, -32768, 32767);
    SaturateWithinHalf(currentA * 100.0, -32768, 32767);
    hide Saturate;
    hide Positions;
    hide BigEndian;
    PackRoundTrip(p, 2);
    PackRoundTrip(s, 2);
    PackRoundTrip(c, 2);
    PackRoundTrip(t, 1);
    hide Pack;
    hide Unpack;
    StatusLayout(Pack16(p), Pack16(s), Pack16(c), Pack8(t), error % 256);
  }

  lemma StatusLayout(p: seq<Byte>, s: seq<Byte>, c: seq<Byte>, t: seq<Byte>, e: Byte)
    requires |p| == |s| == |c| == 2 && |t| == 1
    ensures var d := p + s + c + t + [e];
            && |d| == 8 && d[7] == e
            && d[0..2] == p && d[2..4] == s && d[4..6] == c && d[6..7] == t
  {
  }

  /** Decoding an encoded status gives every quantity back within half a count of the
      saturated input. */
  lemma StatusRoundTrip(canId: Byte, positionDeg: real, speedErpm: real, currentA: real,
                        temperatureC: int, error: int)
    ensures var s := DecodeStatus(EncodeStatus(canId, positionDeg, speedErpm, currentA, temperatureC, error));
            && s.Some? && s.value.canId == canId
            && Abs(s.value.positionDeg - Clamp(positionDeg, -3200.0, 3200.0)) <= 0.05
            && Abs(s.value.speedErpm - Clamp(speedErpm, -327680.0, 327670.0)) <= 5.0
            && Abs(s.value.currentA - Clamp(currentA, -327.68, 327.67)) <= 0.005
            && s.value.temperatureC == ClampInt(temperatureC, -128, 127)
            && s.value.error == error % 256
  {
    SaturateWithinHalf(Clamp(positionDeg, -MAX_STATUS_POSITION, MAX_STATUS_POSITION) * 10.0, -32768, 32767);
    SaturateWithinHalf(speedErpm / 10.0, -32768, 32767);
    SaturateWithinHalf(currentA * 100.0, -32768, 32767);
    hide Saturate;
    hide EncodeStatus;
    hide Unpack;
    StatusFields(canId, positionDeg, speedErpm, currentA, temperatureC, error);
  }

  lemma RoundOfInteger(n: int)
    ensures Round(n as real) == n
  {
  }

  /** A position count read back is that count within the range the drive reports. */
  lemma PositionCount(n: int)
    ensures Positions(n as real * 0.1) == ClampInt(n, -32000, 32000)
  {
    var m := ClampInt(n, -32000, 32000);
    assert Clamp(n as real * 0.1, -3200.0, 3200.0) * 10.0 == m as real;
    RoundOfInteger(m);
    hide Round;
  }

  lemma SpeedCount(n: int)
    requires -32768 <= n <= 32767
    ensures Saturate(n as real * 10.0 / 10.0, -32768, 32767) == n
  {
    RoundOfInteger(n);
    hide Round;
  }

  lemma CurrentCount(n: int)
    requires -32768 <= n <= 32767
    ensures Saturate(n as real * 0.01 * 100.0, -32768, 32767) == n
  {
    RoundOfInteger(n);
    assert n as real * 0.01 * 100.0 == n as real;
    hide Round;
  }

  lemma UnpackRange(b: seq<Byte>)
    ensures |b| == 2 ==> -32768 <= Unpack(b) <= 32767
    ensures |b| == 1 ==> -128 <= Unpack(b) <= 127
  {
    FromBigEndianInverse(b);
    PowersUpTo4();
  }

  /** Two ways to write one field are one when they read the same. */
  lemma SameWhenUnpacked(a: seq<Byte>, b: seq<Byte>)
    requires |a| == |b| > 0
    ensures a == b <==> Unpack(a) == Unpack(b)
  {
    UnpackRoundTrip(a);
    UnpackRoundTrip(b);
  }

  lemma SameFrame(f: Frame, g: Frame)
    requires |f.data| == |g.data| == 8 && f.id == g.id && f.data[7] == g.data[7]
    requires Unpack(f.data[2..4]) == Unpack(g.data[2..4]) && Unpack(f.data[4..6]) == Unpack(g.data[4..6])
    requires Unpack(f.data[6..7]) == Unpack(g.data[6..7])
    ensures f == g <==> Unpack(f.data[0..2]) == Unpack(g.data[0..2])
  {
    hide Unpack;
    SameWhenUnpacked(f.data[0..2], g.data[0..2]);
    SameWhenUnpacked(f.data[2..4], g.data[2..4]);
    SameWhenUnpacked(f.data[4..6], g.data[4..6]);
    SameWhenUnpacked(f.data[6..7], g.data[6..7]);
    assert f.data == f.data[0..2] + f.data[2..4] + f.data[4..6] + f.data[6..7] + [f.data[7]];
    assert g.data == g.data[0..2] + g.data[2..4] + g.data[4..6] + g.data[6..7] + [g.data[7]];
  }

  lemma CountsRoundTrip(canId: Byte, p: int, v: int, c: int, t: int, e: Byte)
    requires -32768 <= v <= 32767 && -32768 <= c <= 32767 && -128 <= t <= 127
    ensures var g := EncodeStatus(canId, p as real * 0.1, v as real * 10.0, c as real * 0.01, t, e);
            && |g.data| == 8 && g.id == STATUS * 256 + canId
            && Unpack(g.data[0..2]) == ClampInt(p, -32000, 32000)
            && Unpack(g.data[2..4]) == v && Unpack(g.data[4..6]) == c
            && Unpack(g.data[6..7]) == t && g.data[7] == e
  {
    PositionCount(p);
    SpeedCount(v);
    CurrentCount(c);
    hide Unpack;
    hide Positions;
    hide Saturate;
    StatusFields(canId, p as real * 0.1, v as real * 10.0, c as real * 0.01, t, e);
  }

  /** Encoding a decoded status frame restores it exactly when its position count is within
      the +-3200 degrees the drive reports. */
  lemma StatusFrameRoundTrip(f: Frame)
    requires f.id / 256 == STATUS && |f.data| == 8
    ensures var s := DecodeStatus(f).value;
            EncodeStatus(s.canId, s.positionDeg, s.speedErpm, s.currentA, s.temperatureC, s.error) == f
            <==> -32000 <= Unpack(f.data[0..2]) <= 32000
  {
    hide Unpack;
    hide EncodeStatus;
    var p, v, c, t := Unpack(f.data[0..2]), Unpack(f.data[2..4]), Unpack(f.data[4..6]), Unpack(f.data[6..7]);
    UnpackRange(f.data[2..4]);
    UnpackRange(f.data[4..6]);
    UnpackRange(f.data[6..7]);
    CountsRoundTrip(f.id % 256, p, v, c, t, f.data[7]);
    SameFrame(f, EncodeStatus(f.id % 256, p as real * 0.1, v as real * 10.0, c as real * 0.01, t, f.data[7]));
  }

  // Command frames ------------------------------------------------------------------

  /** Counts per unit of the main value, for the modes that carry an int32. */
  function Scale(mode: nat): real {
    if mode == MODE_DUTY then 100000.0
    else if mode == MODE_CURRENT || mode == MODE_BRAKE then 1000.0
    else if mode == MODE_SPEED then 1.0
    else 10000.0
  }

  /** encode_command; None is the ValueError or struct.error of the original. */
  function EncodeCommand(canId: Byte, mode: nat, value: real, speedErpm: real, acceleration: real)
    : Option<Frame>
  {
    var id := mode * 256 + canId;
    if mode <= MODE_POSITION then
      var p := Pack(Truncated(value * Scale(mode)), 4);
      if p.None? then None else Some(Frame(id, p.value))
    else if mode == MODE_SET_ORIGIN then
      if 0 <= Truncated(value) < 256 then Some(Frame(id, [Truncated(value)])) else None
    else if mode == MODE_POSITION_SPEED then
      var p := Pack(Truncated(value * Scale(mode)), 4);
      var s := Pack(Truncated(speedErpm / 10.0), 2);
      var a := Pack(Truncated(acceleration / 10.0), 2);
      if p.None? || s.None? || a.None? then None
      else Some(Frame(id, p.value + s.value + a.value))
    else None
  }

  function DecodeCommand(mode: nat, data: seq<Byte>): Option<real> {
    if mode == MODE_SET_ORIGIN then
      if data == [] then None else Some(data[0] as real)
    else if |data| < 4 || mode > MODE_POSITION_SPEED then None
    else Some(Unpack(data[..4]) as real / Scale(mode))
  }

  /** Decoding an encoded command truncates toward zero by less than one unit; and encoding
      fails exactly when the truncated count does not fit. */
  lemma CommandRoundTrip(canId: Byte, mode: nat, value: real, speedErpm: real, acceleration: real)
    requires mode <= MODE_POSITION_SPEED && mode != MODE_SET_ORIGIN
    ensures var f := EncodeCommand(canId, mode, value, speedErpm, acceleration);
            && (mode <= MODE_POSITION ==>
                  (f.Some? <==> -0x8000_0000 <= Truncated(value * Scale(mode)) < 0x8000_0000))
            && (f.Some? ==>
                  var d := DecodeCommand(mode, f.value.data);
                  && d.Some? && f.value.id / 256 == mode && f.value.id % 256 == canId
                  && Abs(value - d.value) < 1.0 / Scale(mode)
                  && Abs(d.value) <= Abs(value)
                  && (d.value > 0.0 ==> value > 0.0) && (d.value < 0.0 ==> value < 0.0))
  {
    PowersUpTo4();
    var n := Truncated(value * Scale(mode));
    TruncatedBelowOne(value * Scale(mode));
    var f := EncodeCommand(canId, mode, value, speedErpm, acceleration);
    if f.Some? {
      PackRoundTrip(n, 4);
      assert f.value.data[..4] == Pack(n, 4).value;
      ScaledDown(value, n, Scale(mode));
    }
  }

  /** A position-speed frame holds the position, the speed and the acceleration in this order, the
      latter two in tens. */
  lemma PositionSpeedFields(canId: Byte, value: real, speedErpm: real, acceleration: real)
    ensures var f := EncodeCommand(canId, MODE_POSITION_SPEED, value, speedErpm, acceleration);
            var p, s, a := Truncated(value * 10000.0), Truncated(speedErpm / 10.0), Truncated(acceleration / 10.0);
            && (f.Some? <==> -0x8000_0000 <= p < 0x8000_0000 && -0x8000 <= s < 0x8000 && -0x8000 <= a < 0x8000)
            && (f.Some? ==>
                  && |f.value.data| == 8 && f.value.id == MODE_POSITION_SPEED * 256 + canId
                  && Unpack(f.value.data[..4]) == p && Unpack(f.value.data[4..6]) == s
                  && Unpack(f.value.data[6..8]) == a)
  {
    PowersUpTo4();
    var p, s, a := Truncated(value * 10000.0), Truncated(speedErpm / 10.0), Truncated(acceleration / 10.0);
    var f := EncodeCommand(canId, MODE_POSITION_SPEED, value, speedErpm, acceleration);
    hide Truncated;
    hide Unpack;
    hide BigEndian;
    if f.Some? {
      PackRoundTrip(p, 4);
      PackRoundTrip(s, 2);
      PackRoundTrip(a, 2);
      assert f.value.data == Pack(p, 4).value + Pack(s, 2).value + Pack(a, 2).value;
      hide Pack;
      assert f.value.data[..4] == Pack(p, 4).value && f.value.data[4..6] == Pack(s, 2).value;
      assert f.value.data[6..8] == Pack(a, 2).value;
    }
  }

  /** An origin is one byte, given back as it is. */
  lemma OriginFields(canId: Byte, value: real)
    ensures var f := EncodeCommand(canId, MODE_SET_ORIGIN, value, 0.0, 0.0);
            && (f.Some? <==> 0 <= Truncated(value) <= 255)
            && (f.Some? ==> DecodeCommand(MODE_SET_ORIGIN, f.value.data) == Some(Truncated(value) as real)
                            && f.value.id == MODE_SET_ORIGIN * 256 + canId)
  {
  }

  lemma ScaledDown(value: real, n: int, scale: real)
    requires scale in {100000.0, 1000.0, 1.0, 10000.0}
    requires Abs(n as real) <= Abs(value * scale) && Abs(value * scale - n as real) < 1.0
    requires (n > 0 ==> value * scale > 0.0) && (n < 0 ==> value * scale < 0.0)
    ensures Abs(value - n as real / scale) < 1.0 / scale && Abs(n as real / scale) <= Abs(value)
    ensures (n as real / scale > 0.0 ==> value > 0.0) && (n as real / scale < 0.0 ==> value < 0.0)
  {
  }

  // The stop frames -----------------------------------------------------------------

  /** encode_speed; None is its ValueError. */
  function EncodeSpeed(canId: Byte, erpm: real): Option<Frame> {
    var n := Truncated(erpm);
    if n >= MAX_ERPM || -n >= MAX_ERPM then None
    else
      PowersUpTo4();
      Some(Frame(MODE_SPEED * 256 + canId, Pack(n, 4).value))
  }

  /** The tools send speeds of less than 100000 electrical rpm, as whole numbers toward zero. */
  lemma SpeedFields(canId: Byte, erpm: real)
    ensures var f, n := EncodeSpeed(canId, erpm), Truncated(erpm);
            && (f.Some? <==> -100000 < n < 100000)
            && (f.Some? ==> f.value.id == MODE_SPEED * 256 + canId
                            && DecodeCommand(MODE_SPEED, f.value.data) == Some(n as real))
  {
    var f, n := EncodeSpeed(canId, erpm), Truncated(erpm);
    hide Truncated;
    if f.Some? {
      PowersUpTo4();
      PackRoundTrip(n, 4);
      hide Pack;
      hide Unpack;
      assert f.value.data[..4] == f.value.data;
    }
  }

  function EncodeRelease(canId: Byte): Frame {
    PowersUpTo4();
    Frame(MODE_CURRENT * 256 + canId, Pack(0, 4).value)
  }

  /** The bytes the plugin sends for its own frames. */
  function Wire(f: J.Frame): Frame
    requires f.canId < 256 && !f.Motion?
  {
    match f
    case ZeroSpeed(id) => Frame(MODE_SPEED * 256 + id, CppInt32(0))
    case Release(id) => Frame(MODE_CURRENT * 256 + id, CppInt32(0))
    case SetOrigin(id) => Frame(MODE_SET_ORIGIN * 256 + id, [0])
  }

  /** The plugin and the Python tools put the same stop bytes on the bus, and a motor reads
      them as zero speed, zero current and a temporary origin. */
  lemma StopFramesAgree(id: Byte)
    ensures EncodeSpeed(id, 0.0) == Some(Wire(J.ZeroSpeed(id)))
    ensures EncodeRelease(id) == Wire(J.Release(id))
    ensures DecodeCommand(MODE_SPEED, Wire(J.ZeroSpeed(id)).data) == Some(0.0)
    ensures DecodeCommand(MODE_CURRENT, Wire(J.Release(id)).data) == Some(0.0)
    ensures DecodeCommand(MODE_SET_ORIGIN, Wire(J.SetOrigin(id)).data) == Some(0.0)
  {
    CppPacksLikePython(0);
    PowersUpTo4();
    PackRoundTrip(0, 4);
    assert CppInt32(0)[..4] == CppInt32(0);
  }
}
