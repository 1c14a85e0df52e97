/** Decoding of the seven-word poll reply: Python's `struct.unpack('>HHhhhhh', …)`
    over the bytes of registers 0x02 to 0x08, each register a big-endian word
    (high-order byte first, as section 4.2 of the Modbus Application Protocol
    Specification V1.1b3 lays data out). */
module Wire {
  import opened Wrappers
  import opened Registers

  type Byte = b: int | 0 <= b < 0x100
  type Word = w: int | 0 <= w < 0x1_0000
  type Int16 = x: int | -0x8000 <= x < 0x8000

  /** The `struct` format codes the driver uses: `H` (unsigned 16-bit) and
      `h` (signed 16-bit, two's complement). */
  datatype Code = UnsignedShort | SignedShort

  /** `'>HHhhhhh'`: operational mode, status flags, then five signed words. */
  const PollFormat: seq<Code> := [
    UnsignedShort, UnsignedShort,
    SignedShort, SignedShort, SignedShort, SignedShort, SignedShort
  ]

  /** `v` is a value that code `c` can represent. */
  predicate Fits(c: Code, v: int)
  {
    match c
    case UnsignedShort => 0 <= v < 0x1_0000
    case SignedShort => -0x8000 <= v < 0x8000
  }

  /** The word whose high-order byte is `hi` and low-order byte is `lo`. */
  function BigEndianWord(hi: Byte, lo: Byte): Word
  {
    hi * 0x100 + lo
  }

  /** The two bytes of `w`, high-order byte first. */
  function WordBytes(w: Word): (bs: seq<Byte>)
    ensures |bs| == 2 && BigEndianWord(bs[0], bs[1]) == w
  {
    [w / 0x100, w % 0x100]
  }

  lemma WordBytesOfBigEndian(hi: Byte, lo: Byte)
    ensures WordBytes(BigEndianWord(hi, lo)) == [hi, lo]
  {
  }

  /** The two's-complement reading of a 16-bit word. */
  function ToSigned(w: Word): (x: Int16)
    ensures x == w || x == w - 0x1_0000
  {
    if w < 0x8000 then w else w - 0x1_0000
  }

  /** The 16-bit word holding `x` in two's complement. */
  function ToUnsigned(x: Int16): (w: Word)
    ensures ToSigned(w) == x
  {
    if x < 0 then x + 0x1_0000 else x
  }

  lemma UnsignedOfSigned(w: Word)
    ensures ToUnsigned(ToSigned(w)) == w
    ensures ToSigned(w) < 0 <==> w >= 0x8000
  {
  }

  /** The value of one field of code `c` held in bytes `hi`, `lo`. */
  function DecodeField(c: Code, hi: Byte, lo: Byte): (v: int)
    ensures Fits(c, v)
  {
    match c
    case UnsignedShort => BigEndianWord(hi, lo)
    case SignedShort => ToSigned(BigEndianWord(hi, lo))
  }

  /** The two bytes that hold `v` as a field of code `c`. */
  function EncodeField(c: Code, v: int): (bs: seq<Byte>)
    requires Fits(c, v)
    ensures |bs| == 2 && DecodeField(c, bs[0], bs[1]) == v
  {
    match c
    case UnsignedShort => WordBytes(v)
    case SignedShort => WordBytes(ToUnsigned(v))
  }

  lemma EncodeDecodeField(c: Code, hi: Byte, lo: Byte)
    ensures EncodeField(c, DecodeField(c, hi, lo)) == [hi, lo]
  {
    WordBytesOfBigEndian(hi, lo);
    UnsignedOfSigned(BigEndianWord(hi, lo));
  }

  /** `struct.error`: the buffer is not as long as the format requires. */
  datatype UnpackError = LengthMismatch(expected: nat, actual: nat)

  /** The fields of `b` read by `fmt`, two bytes per field, in order. */
  function UnpackFields(fmt: seq<Code>, b: seq<Byte>): (vs: seq<int>)
    requires |b| == 2 * |fmt|
    ensures |vs| == |fmt|
    ensures forall k :: 0 <= k < |fmt| ==> Fits(fmt[k], vs[k])
  {
    if fmt == [] then []
    else
      [DecodeField(fmt[0], b[0], b[1])] + UnpackFields(fmt[1..], b[2..])
  }

  /** Field `k` is decoded from bytes `2k` (high) and `2k + 1` (low). */
  lemma {:induction false} UnpackFieldsAt(fmt: seq<Code>, b: seq<Byte>, k: nat)
    requires |b| == 2 * |fmt| && k < |fmt|
    ensures UnpackFields(fmt, b)[k] == DecodeField(fmt[k], b[2 * k], b[2 * k + 1])
  {
    if k > 0 {
      UnpackFieldsAt(fmt[1..], b[2..], k - 1);
    }
  }

  /** `struct.unpack(fmt, b)`: the fields of `b`, or `struct.error` when `b`
      is not exactly two bytes per field. */
  function Unpack(fmt: seq<Code>, b: seq<Byte>): (r: Result<seq<int>, UnpackError>)
    ensures r.Success? <==> |b| == 2 * |fmt|
    ensures r.Failure? ==> r.error == LengthMismatch(2 * |fmt|, |b|)
    ensures r.Success? ==> |r.value| == |fmt| && forall k :: 0 <= k < |fmt| ==> Fits(fmt[k], r.value[k])
  {
    if |b| != 2 * |fmt| then Failure(LengthMismatch(2 * |fmt|, |b|))
    else Success(UnpackFields(fmt, b))
  }

  /** `struct.pack(fmt, *vs)`. */
  function Pack(fmt: seq<Code>, vs: seq<int>): (b: seq<Byte>)
    requires |vs| == |fmt|
    requires forall k :: 0 <= k < |fmt| ==> Fits(fmt[k], vs[k])
    ensures |b| == 2 * |fmt|
  {
    if fmt == [] then []
    else EncodeField(fmt[0], vs[0]) + Pack(fmt[1..], vs[1..])
  }

  /** Unpacking what was packed gives back the values. */
  lemma {:induction false} UnpackPack(fmt: seq<Code>, vs: seq<int>)
    requires |vs| == |fmt|
    requires forall k :: 0 <= k < |fmt| ==> Fits(fmt[k], vs[k])
    ensures Unpack(fmt, Pack(fmt, vs)) == Success(vs)
  {
    if fmt != [] {
      UnpackPack(fmt[1..], vs[1..]);
      var head := EncodeField(fmt[0], vs[0]);
      var rest := Pack(fmt[1..], vs[1..]);
      var b := head + rest;
      assert b == Pack(fmt, vs);
      assert b[0] == head[0] && b[1] == head[1] && b[2..] == rest;
      assert UnpackFields(fmt, b) == [vs[0]] + UnpackFields(fmt[1..], rest);
      assert vs == [vs[0]] + vs[1..];
    }
  }

  /** Packing what was unpacked gives back the bytes. */
  lemma {:induction false} PackUnpack(fmt: seq<Code>, b: seq<Byte>)
    requires |b| == 2 * |fmt|
    ensures Pack(fmt, Unpack(fmt, b).value) == b
  {
    if fmt != [] {
      PackUnpack(fmt[1..], b[2..]);
      var vs := UnpackFields(fmt, b);
      assert vs[1..] == UnpackFields(fmt[1..], b[2..]);
      EncodeDecodeField(fmt[0], b[0], b[1]);
      assert b == [b[0], b[1]] + b[2..];
    }
  }

  /** The seven fields of the poll reply. `rawSensor1` and `stdevSensor1` are
      decoded but not used by the poll. */
  datatype Frame = Frame(
    opmode: Word,
    status: Word,
    scale: Int16,
    sensor1: Int16,
    rawSensor1: Int16,
    stdevSensor1: Int16,
    temp: Int16)

  /** The fields of `f`, in reply order. */
  function FrameValues(f: Frame): (vs: seq<int>)
    ensures |vs| == |PollFormat|
    ensures forall k :: 0 <= k < |PollFormat| ==> Fits(PollFormat[k], vs[k])
  {
    [f.opmode, f.status, f.scale, f.sensor1, f.rawSensor1, f.stdevSensor1, f.temp]
  }

  /** The 14 bytes of the reply that decodes to `f`. */
  function PackFrame(f: Frame): (b: seq<Byte>)
    ensures |b| == 2 * POLL_WORDS
  {
    Pack(PollFormat, FrameValues(f))
  }

  /** The frame decoded from the reply `b` to the poll read, or the error
      `struct.unpack` raises when `b` is not 14 bytes long. */
  function UnpackFrame(b: seq<Byte>): (r: Result<Frame, UnpackError>)
    ensures r.Success? <==> |b| == 2 * POLL_WORDS
    ensures r.Failure? ==> r.error == LengthMismatch(2 * POLL_WORDS, |b|)
  {
    match Unpack(PollFormat, b)
    case Failure(e) => Failure(e)
    case Success(vs) =>
      Success(Frame(vs[0], vs[1], vs[2], vs[3], vs[4], vs[5], vs[6]))
  }

  /** Encoding the frame decoded from a 14-byte reply gives back the reply. */
  lemma PackUnpackFrame(b: seq<Byte>)
    requires |b| == 2 * POLL_WORDS
    ensures UnpackFrame(b).Success? && PackFrame(UnpackFrame(b).value) == b
  {
    var vs := Unpack(PollFormat, b).value;
    assert FrameValues(UnpackFrame(b).value) == vs;
    PackUnpack(PollFormat, b);
  }

  /** Decoding the reply that encodes `f` gives back `f`. */
  lemma UnpackPackFrame(f: Frame)
    ensures UnpackFrame(PackFrame(f)) == Success(f)
  {
    UnpackPack(PollFormat, FrameValues(f));
  }

  /** The word a 14-byte poll reply holds for register `reg` of the poll
      block. */
  function WordOf(b: seq<Byte>, reg: Register): Word
    requires |b| == 2 * POLL_WORDS
    requires REG_OPERATIONAL_MODE.addr <= reg.addr < REG_OPERATIONAL_MODE.addr + POLL_WORDS
  {
    var k := reg.addr - REG_OPERATIONAL_MODE.addr;
    BigEndianWord(b[2 * k], b[2 * k + 1])
  }

  /** Each field comes from its own register's big-endian word: the
      operational mode and status flags unsigned, the scale factor, sensor-1
      data and body temperature (words 3, 4 and 7) in two's complement. */
  lemma UnpackFrameFields(b: seq<Byte>)
    requires |b| == 2 * POLL_WORDS
    ensures UnpackFrame(b).Success?
    ensures UnpackFrame(b).value.opmode == WordOf(b, REG_OPERATIONAL_MODE)
    ensures UnpackFrame(b).value.status == WordOf(b, REG_STATUS_FLAGS)
    ensures UnpackFrame(b).value.scale == ToSigned(WordOf(b, REG_SCALE_FACTOR))
    ensures UnpackFrame(b).value.sensor1 == ToSigned(WordOf(b, REG_SENSOR_1_DATA))
    ensures UnpackFrame(b).value.rawSensor1 == ToSigned(WordOf(b, REG_RAW_SENSOR1_DATA))
    ensures UnpackFrame(b).value.stdevSensor1 == ToSigned(WordOf(b, REG_STDEV_SENSOR1))
    ensures UnpackFrame(b).value.temp == ToSigned(WordOf(b, REG_BODY_TEMPERATURE))
  {
    UnpackFieldsAt(PollFormat, b, 0);
    UnpackFieldsAt(PollFormat, b, 1);
    UnpackFieldsAt(PollFormat, b, 2);
    UnpackFieldsAt(PollFormat, b, 3);
    UnpackFieldsAt(PollFormat, b, 4);
    UnpackFieldsAt(PollFormat, b, 5);
    UnpackFieldsAt(PollFormat, b, 6);
  }
}
