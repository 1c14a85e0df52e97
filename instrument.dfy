/** The SMP instrument session: one poll cycle (read, check the operational
    mode and the status flags, recover, convert) and the reset command, with
    the Modbus transport observed as the sequence of calls made to it. */
module Smp {
  import opened Wrappers
  import opened Registers
  import opened Status
  import opened Wire
  import opened Scaling

  /** A call made to the Modbus transport. */
  datatype Call =
    | WriteBit(addr: nat, value: nat)   // write one coil
    | ReadString(addr: nat, words: nat) // read `words` consecutive registers as bytes
    | ReadRegister(addr: nat)           // read one register

  /** The reset command: 1 written to the clear-error coil. */
  const ResetCall := WriteBit(REG_CLEAR_ERROR.addr, 1)

  /** The poll read: seven words from the operational mode register on. */
  const PollRead := ReadString(REG_OPERATIONAL_MODE.addr, POLL_WORDS)

  /** The read of the device's error code. */
  const ErrorCodeRead := ReadRegister(REG_ERROR_CODE.addr)

  /** The poll result `OutputValues(Irr, temp)`. */
  datatype Measurement = Measurement(irr: real, temp: real)

  /** The reading of `f` is anomalous: the device is not in normal mode or
      some status bit is set. */
  predicate Anomalous(f: Frame)
  {
    f.opmode != OPMODE_NORMAL || f.status != 0
  }

  /** The flags decoded from the status word of `f`. */
  function FlagsOf(f: Frame): StatusFlags
  {
    StatusFlags(f.status as bv16)
  }

  /** The transport calls a poll makes after reading frame `f`: none for a
      normal reading; for an anomalous one, the error-code read when the
      device is in normal mode with the error flag set, and a reset last. */
  function Reaction(f: Frame): (r: seq<Call>)
    ensures r == [] <==> !Anomalous(f)
    ensures r != [] ==> r[|r| - 1] == ResetCall
    ensures ErrorCodeRead in r <==> f.opmode == OPMODE_NORMAL && f.status != 0 && FlagsOf(f).IsSet(ERROR)
    ensures forall i :: 0 <= i < |r| ==> r[i] == ResetCall || r[i] == ErrorCodeRead
  {
    if f.opmode != OPMODE_NORMAL then [ResetCall]
    else if f.status != 0 then
      (if FlagsOf(f).IsSet(ERROR) then [ErrorCodeRead] else []) + [ResetCall]
    else []
  }

  /** The transport calls of one poll, given the first-poll latch and what
      unpacking the bytes answered to the poll read gave: the latch reset
      comes first exactly on the first poll, the read follows, and nothing
      follows the read of a malformed reply. */
  function PollCalls(first: bool, decoded: Result<Frame, UnpackError>): (r: seq<Call>)
    ensures |r| > (if first then 1 else 0)
    ensures r[0] == ResetCall <==> first
    ensures r[if first then 1 else 0] == PollRead
    ensures decoded.Failure? ==> |r| == (if first then 2 else 1)
  {
    (if first then [ResetCall] else []) + [PollRead]
      + if decoded.Success? then Reaction(decoded.value) else []
  }

  /** The exceptions a poll raises itself: `struct.error` from the decode,
      or the arithmetic error of the irradiance computation. */
  datatype PollError = StructError(unpack: UnpackError) | MathError(arith: ArithmeticError)

  /** What a poll returns, or the exception it raises, for frame `f`: None
      out of normal mode; in normal mode, the measurement when the scale
      factor is within a double's range and an arithmetic error otherwise. */
  function Outcome(f: Frame): (r: Result<Option<Measurement>, PollError>)
    ensures r == Success(None) <==> f.opmode != OPMODE_NORMAL
    ensures r.Failure? <==>
      f.opmode == OPMODE_NORMAL && !(MIN_DOUBLE_POW10 <= f.scale <= MAX_DOUBLE_POW10)
    ensures r.Failure? ==> r.error.MathError?
    ensures r.Success? && r.value.Some? ==>
      r.value.value == Measurement(Irradiance(f.sensor1, f.scale), BodyTemperature(f.temp))
  {
    if f.opmode != OPMODE_NORMAL then Success(None)
    else
      match IrradianceOf(f.sensor1, f.scale)
      case Failure(e) => Failure(MathError(e))
      case Success(irr) => Success(Some(Measurement(irr, BodyTemperature(f.temp))))
  }

  /** What a poll returns, or the exception it raises, given what unpacking
      the bytes answered to the poll read gave: `struct.error` exactly for a
      reply that did not unpack, carrying the unpacking error. */
  function PollOutcome(decoded: Result<Frame, UnpackError>): (r: Result<Option<Measurement>, PollError>)
    ensures r.Failure? && r.error.StructError? <==> decoded.Failure?
    ensures decoded.Failure? ==> r.error.unpack == decoded.error
    ensures r.Success? && r.value.Some? ==> decoded.Success? && decoded.value.opmode == OPMODE_NORMAL
  {
    match decoded
    case Failure(e) => Failure(StructError(e))
    case Success(f) => Outcome(f)
  }

  /** One driver instance for one physical instrument. */
  class SMPInstrument {
    const port: string
    const unitId: int

    /** Set until the first poll has been made. */
    var firstPoll: bool

    /** The transport calls made so far, oldest first. */
    var calls: seq<Call>

    constructor (port: string, unitId: int)
      ensures this.port == port && this.unitId == unitId
      ensures firstPoll && calls == []
    {
      this.port := port;
      this.unitId := unitId;
      firstPoll := true;
      calls := [];
    }

    /** Resets the operational mode by writing the clear-error coil. */
    method Reset()
      modifies this`calls
      ensures calls == old(calls) + [ResetCall]
    {
      calls := calls + [ResetCall];
    }

    /** One poll cycle; `reply` is what the transport answers to the read of
        the seven words from the operational mode register on. */
    method Poll(reply: seq<Byte>) returns (r: Result<Option<Measurement>, PollError>)
      modifies this`firstPoll, this`calls
      ensures !firstPoll
      ensures calls == old(calls) + PollCalls(old(firstPoll), UnpackFrame(reply))
      ensures r == PollOutcome(UnpackFrame(reply))
    {
      if firstPoll {
        firstPoll := false;
        Reset();
      }
      calls := calls + [PollRead];
      var decoded := UnpackFrame(reply);
      if decoded.Failure? {
        return Failure(StructError(decoded.error));
      }
      var f := decoded.value;

      if f.opmode != OPMODE_NORMAL {
        Reset();
        return Success(None);
      }

      if f.status != 0 {
        var sf := FlagsOf(f);
        if sf.IsSet(ERROR) {
          calls := calls + [ErrorCodeRead];
        }
        Reset();
      }
      assert calls == old(calls) + PollCalls(old(firstPoll), decoded);

      var irr := IrradianceOf(f.sensor1, f.scale);
      if irr.Failure? {
        return Failure(MathError(irr.error));
      }
      return Success(Some(Measurement(irr.value, BodyTemperature(f.temp))));
    }
  }

  // ---- Properties of one poll ----

  /** Number of occurrences of `c` in `cs`. */
  function Occurrences(cs: seq<Call>, c: Call): nat
  {
    if cs == [] then 0
    else (if cs[0] == c then 1 else 0) + Occurrences(cs[1..], c)
  }

  lemma {:induction false} OccurrencesAppend(a: seq<Call>, b: seq<Call>, c: Call)
    ensures Occurrences(a + b, c) == Occurrences(a, c) + Occurrences(b, c)
  {
    if a == [] {
      assert a + b == b;
    } else {
      assert (a + b)[1..] == a[1..] + b;
      OccurrencesAppend(a[1..], b, c);
    }
  }

  /** The first poll of a session resets the device before it reads the
      registers; any later poll starts with the read. */
  lemma FirstPollResetsFirst(decoded: Result<Frame, UnpackError>)
    ensures PollCalls(true, decoded) == [ResetCall] + PollCalls(false, decoded)
    ensures PollCalls(true, decoded)[..2] == [ResetCall, PollRead]
    ensures PollCalls(false, decoded)[0] == PollRead
  {
  }

  /** A reply that is not 14 bytes long makes the poll raise `struct.error`
      right after the read, with no reset besides the first-poll one. */
  lemma MalformedReplyFails(first: bool, reply: seq<Byte>)
    requires |reply| != 2 * POLL_WORDS
    ensures PollCalls(first, UnpackFrame(reply)) == (if first then [ResetCall] else []) + [PollRead]
    ensures PollOutcome(UnpackFrame(reply)) == Failure(StructError(LengthMismatch(2 * POLL_WORDS, |reply|)))
  {
  }

  /** Out of normal mode, a poll resets the device once, does not read the
      error code, and returns no measurement. */
  lemma NotNormalModeResets(f: Frame)
    requires f.opmode != OPMODE_NORMAL
    ensures PollCalls(false, Success(f)) == [PollRead, ResetCall]
    ensures ErrorCodeRead !in PollCalls(false, Success(f))
    ensures PollOutcome(Success(f)) == Success(None)
  {
  }

  /** In normal mode with a clear status word, a poll makes no call after the
      read and returns the sensor-1 reading shifted by the scale factor and
      the temperature reading in tenths of a degree. */
  lemma CleanReadingMeasures(f: Frame)
    requires f.opmode == OPMODE_NORMAL && f.status == 0
    requires MIN_DOUBLE_POW10 <= f.scale <= MAX_DOUBLE_POW10
    ensures PollCalls(false, Success(f)) == [PollRead]
    ensures PollOutcome(Success(f)) ==
      Success(Some(Measurement(f.sensor1 as real * Pow10(-(f.scale as int)), f.temp as real / 10.0)))
  {
    IrradianceShiftsDecimals(f.sensor1, f.scale);
    var irr := IrradianceOf(f.sensor1, f.scale);
    assert irr == Success(Irradiance(f.sensor1, f.scale));
    assert Outcome(f) == Success(Some(Measurement(Irradiance(f.sensor1, f.scale), BodyTemperature(f.temp))));
    assert Irradiance(f.sensor1, f.scale) == f.sensor1 as real * Pow10(-(f.scale as int));
    assert BodyTemperature(f.temp) == f.temp as real / 10.0;
  }

  /** In normal mode, a scale factor above 308 makes the poll raise
      OverflowError and one below -323 ZeroDivisionError, after the calls
      the status word asks for. */
  lemma ExtremeScaleRaises(f: Frame)
    requires f.opmode == OPMODE_NORMAL
    requires f.scale < MIN_DOUBLE_POW10 || f.scale > MAX_DOUBLE_POW10
    ensures PollOutcome(Success(f)) ==
      Failure(MathError(if f.scale > MAX_DOUBLE_POW10 then OverflowError else ZeroDivisionError))
  {
  }

  /** Bit 3 of the status word, read arithmetically. */
  lemma ErrorBitArithmetic(f: Frame)
    ensures FlagsOf(f).IsSet(ERROR) <==> (f.status / 8) % 2 == 1
  {
  }

  /** In normal mode with some status bit set, a poll reads the error code
      exactly when the error flag is set, then resets the device, last; and it
      still returns the measurement of the frame it read before the reset. */
  lemma FlaggedReadingResetsAndMeasures(f: Frame)
    requires f.opmode == OPMODE_NORMAL && f.status != 0
    ensures FlagsOf(f).IsSet(ERROR) ==> PollCalls(false, Success(f)) == [PollRead, ErrorCodeRead, ResetCall]
    ensures !FlagsOf(f).IsSet(ERROR) ==> PollCalls(false, Success(f)) == [PollRead, ResetCall]
    ensures PollOutcome(Success(f)) == PollOutcome(Success(f.(status := 0)))
    ensures MIN_DOUBLE_POW10 <= f.scale <= MAX_DOUBLE_POW10 ==>
      PollOutcome(Success(f)) == Success(Some(Measurement(Irradiance(f.sensor1, f.scale), BodyTemperature(f.temp))))
  {
  }

  /** Counts of `c` in a one- and a two-call sequence. */
  lemma OccurrencesSmall(x: Call, y: Call, c: Call)
    ensures Occurrences([x], c) == (if x == c then 1 else 0)
    ensures Occurrences([x, y], c) == (if x == c then 1 else 0) + (if y == c then 1 else 0)
  {
    assert [x][1..] == [];
    assert [x, y][1..] == [y];
    assert [y][1..] == [];
  }

  /** The calls after the poll read reset the device once for an anomalous
      reading, and read the error code once in normal mode with the error
      flag set. */
  lemma ReactionCounts(f: Frame)
    ensures Occurrences(Reaction(f), ResetCall) == (if Anomalous(f) then 1 else 0)
    ensures Occurrences(Reaction(f), ErrorCodeRead) ==
      (if f.opmode == OPMODE_NORMAL && f.status != 0 && FlagsOf(f).IsSet(ERROR) then 1 else 0)
  {
    OccurrencesSmall(ResetCall, ResetCall, ResetCall);
    OccurrencesSmall(ResetCall, ResetCall, ErrorCodeRead);
    OccurrencesSmall(ErrorCodeRead, ResetCall, ResetCall);
    OccurrencesSmall(ErrorCodeRead, ResetCall, ErrorCodeRead);
    if f.opmode == OPMODE_NORMAL && f.status != 0 && FlagsOf(f).IsSet(ERROR) {
      assert Reaction(f) == [ErrorCodeRead, ResetCall];
    }
  }

  /** A poll resets the device once for the first poll and once more for an
      anomalous reading, and reads the error code only in normal mode with
      the error flag set. */
  lemma PollResetCount(first: bool, f: Frame)
    ensures Occurrences(PollCalls(first, Success(f)), ResetCall) ==
      (if first then 1 else 0) + (if Anomalous(f) then 1 else 0)
    ensures Occurrences(PollCalls(first, Success(f)), ErrorCodeRead) ==
      (if f.opmode == OPMODE_NORMAL && f.status != 0 && FlagsOf(f).IsSet(ERROR) then 1 else 0)
  {
    var latch: seq<Call> := if first then [ResetCall] else [];
    OccurrencesSmall(ResetCall, PollRead, ResetCall);
    OccurrencesSmall(ResetCall, PollRead, ErrorCodeRead);
    OccurrencesSmall(PollRead, PollRead, ResetCall);
    OccurrencesSmall(PollRead, PollRead, ErrorCodeRead);
    if first {
      assert latch + [PollRead] == [ResetCall, PollRead];
    } else {
      assert latch + [PollRead] == [PollRead];
    }
    ReactionCounts(f);
    OccurrencesAppend(latch + [PollRead], Reaction(f), ResetCall);
    OccurrencesAppend(latch + [PollRead], Reaction(f), ErrorCodeRead);
  }

  /** A call that does not occur in `cs` is counted zero times. */
  lemma {:induction false} OccurrencesAbsent(cs: seq<Call>, c: Call)
    requires c !in cs
    ensures Occurrences(cs, c) == 0
  {
    if cs != [] {
      assert c !in cs[1..];
      OccurrencesAbsent(cs[1..], c);
    }
  }

  /** Every poll reads the input block exactly once, whatever the reply. */
  lemma PollReadsOnce(first: bool, decoded: Result<Frame, UnpackError>)
    ensures Occurrences(PollCalls(first, decoded), PollRead) == 1
  {
    var latch: seq<Call> := if first then [ResetCall] else [];
    var tail := if decoded.Success? then Reaction(decoded.value) else [];
    OccurrencesSmall(ResetCall, PollRead, PollRead);
    OccurrencesSmall(PollRead, PollRead, PollRead);
    if first {
      assert latch + [PollRead] == [ResetCall, PollRead];
    } else {
      assert latch + [PollRead] == [PollRead];
    }
    assert PollRead !in tail;
    OccurrencesAbsent(tail, PollRead);
    OccurrencesAppend(latch + [PollRead], tail, PollRead);
  }

  /** The raw sensor-1 word and its standard deviation are read but play no
      part in what a poll does or returns. */
  lemma UnusedWordsIgnored(first: bool, f: Frame, g: Frame)
    requires f.opmode == g.opmode && f.status == g.status && f.scale == g.scale
    requires f.sensor1 == g.sensor1 && f.temp == g.temp
    ensures PollCalls(first, UnpackFrame(PackFrame(f))) == PollCalls(first, UnpackFrame(PackFrame(g)))
    ensures PollOutcome(UnpackFrame(PackFrame(f))) == PollOutcome(UnpackFrame(PackFrame(g)))
  {
    UnpackPackFrame(f);
    UnpackPackFrame(g);
  }

  /** A reading of 500 at scale 0 and a temperature word of 205 give
      500 W/m2 and 20.5 degrees C, after the first-poll reset only. */
  lemma NormalReadingScenario(raw: Int16, stdev: Int16)
    ensures PollCalls(true, UnpackFrame(PackFrame(Frame(1, 0, 0, 500, raw, stdev, 205)))) == [ResetCall, PollRead]
    ensures PollOutcome(UnpackFrame(PackFrame(Frame(1, 0, 0, 500, raw, stdev, 205)))) ==
      Success(Some(Measurement(500.0, 20.5)))
  {
    UnpackPackFrame(Frame(1, 0, 0, 500, raw, stdev, 205));
  }

  /** A device in error mode is reset and yields no measurement. */
  lemma ErrorModeScenario(f: Frame)
    requires f.opmode == OPMODE_ERROR
    ensures ResetCall in PollCalls(false, UnpackFrame(PackFrame(f)))
    ensures PollOutcome(UnpackFrame(PackFrame(f))) == Success(None)
  {
    UnpackPackFrame(f);
  }

  // ---- Successive polls of one session ----

  /** The transport calls of successive polls whose replies unpacked to
      `decoded`, the first of them made with the latch `first`: the input
      block is read once per poll. */
  function RunCalls(first: bool, decoded: seq<Result<Frame, UnpackError>>): (r: seq<Call>)
    ensures Occurrences(r, PollRead) == |decoded|
  {
    if decoded == [] then []
    else
      var head := PollCalls(first, decoded[0]);
      var rest := RunCalls(false, decoded[1..]);
      PollReadsOnce(first, decoded[0]);
      OccurrencesAppend(head, rest, PollRead);
      head + rest
  }

  /** Number of replies that unpacked to an anomalous frame. */
  function AnomalousReplies(decoded: seq<Result<Frame, UnpackError>>): nat
  {
    if decoded == [] then 0
    else
      (if decoded[0].Success? && Anomalous(decoded[0].value) then 1 else 0)
        + AnomalousReplies(decoded[1..])
  }

  /** After the first poll, resets happen exactly once per anomalous reading:
      the first-poll reset is never repeated. */
  lemma {:induction false} LaterPollsResetOnAnomaliesOnly(decoded: seq<Result<Frame, UnpackError>>)
    ensures Occurrences(RunCalls(false, decoded), ResetCall) == AnomalousReplies(decoded)
  {
    if decoded != [] {
      LaterPollsResetOnAnomaliesOnly(decoded[1..]);
      OccurrencesAppend(PollCalls(false, decoded[0]), RunCalls(false, decoded[1..]), ResetCall);
      if decoded[0].Success? {
        PollResetCount(false, decoded[0].value);
      } else {
        assert PollCalls(false, decoded[0]) == [PollRead];
      }
    }
  }

  /** A fresh session makes the calls of a later session, after one reset. */
  lemma SessionStartsWithReset(decoded: seq<Result<Frame, UnpackError>>)
    requires decoded != []
    ensures RunCalls(true, decoded) == [ResetCall] + RunCalls(false, decoded)
  {
    var first := PollCalls(false, decoded[0]);
    var rest := RunCalls(false, decoded[1..]);
    FirstPollResetsFirst(decoded[0]);
    assert RunCalls(true, decoded) == PollCalls(true, decoded[0]) + rest;
    assert RunCalls(false, decoded) == first + rest;
    ConcatAssoc([ResetCall], first, rest);
  }

  /** Concatenation of call sequences is associative. */
  lemma ConcatAssoc(a: seq<Call>, b: seq<Call>, c: seq<Call>)
    ensures (a + b) + c == a + (b + c)
  {
  }

  /** A fresh session resets the device once before anything else, and from
      then on only for anomalous readings. */
  lemma SessionResets(decoded: seq<Result<Frame, UnpackError>>)
    requires decoded != []
    ensures Occurrences(RunCalls(true, decoded), ResetCall) == 1 + AnomalousReplies(decoded)
  {
    SessionStartsWithReset(decoded);
    LaterPollsResetOnAnomaliesOnly(decoded);
    OccurrencesSmall(ResetCall, ResetCall, ResetCall);
    OccurrencesAppend([ResetCall], RunCalls(false, decoded), ResetCall);
  }

  /** A client session of two polls on a fresh instrument: the transport
      sees the calls RunCalls gives for the two replies, and each poll
      answers the outcome of its own reply. */
  method PollTwice(port: string, unitId: int, reply1: seq<Byte>, reply2: seq<Byte>)
    returns (inst: SMPInstrument, r1: Result<Option<Measurement>, PollError>,
             r2: Result<Option<Measurement>, PollError>)
    ensures inst.calls == RunCalls(true, [UnpackFrame(reply1), UnpackFrame(reply2)])
    ensures r1 == PollOutcome(UnpackFrame(reply1)) && r2 == PollOutcome(UnpackFrame(reply2))
  {
    inst := new SMPInstrument(port, unitId);
    r1 := inst.Poll(reply1);
    r2 := inst.Poll(reply2);
    var d := [UnpackFrame(reply1), UnpackFrame(reply2)];
    assert d[1..][1..] == [];
    assert RunCalls(false, d[1..]) == PollCalls(false, d[1]) + [];
  }
}
