/**
 * The older revision of the driver, the one the crate root compiles: register
 * constants, a `Css811` whose methods drive a bus directly, its own `Status`
 * and `AlgorithmResultsData`, and an `ErrorId` that keeps only the causes
 * present, as a list.
 */
module LegacyDriver {
  import opened Common
  import Registers
  import ErrorIdDecoder

  // Register addresses (`I2cRegister`).
  const STATUS: byte := 0x00
  const MEAS_MODE: byte := 0x01
  const ALG_RESULT_DATA: byte := 0x02
  const RAW_DATA: byte := 0x03
  const ENV_DATA: byte := 0x05
  const NTC: byte := 0x06
  const THRESHOLDS: byte := 0x10
  const BASELINE: byte := 0x11
  const HW_ID: byte := 0x20
  const HW_VERSION: byte := 0x21
  const FW_BOOT_VERSION: byte := 0x23
  const FW_APP_VERSION: byte := 0x24
  const ERROR_ID: byte := 0xE0
  const APP_START: byte := 0xF4
  const SW_RESET: byte := 0xFF

  // Status byte masks.
  const ERROR: byte := 0x01
  const DATA_READY: byte := 0x08
  const APP_VALID: byte := 0x10
  const FW_MODE: byte := 0x80

  /** The mode byte `start` writes: every second, both interrupts enabled. */
  const START_MODE: byte := 0x1C

  /** Both revisions use the same register addresses. */
  lemma AddressesMatchNewerRevision()
    ensures STATUS == Registers.Address(Registers.Status)
    ensures MEAS_MODE == Registers.Address(Registers.MeasMode)
    ensures ALG_RESULT_DATA == Registers.Address(Registers.AlgResultData)
    ensures RAW_DATA == Registers.Address(Registers.RawData)
    ensures ENV_DATA == Registers.Address(Registers.EnvData)
    ensures NTC == Registers.Address(Registers.Ntc)
    ensures THRESHOLDS == Registers.Address(Registers.Thresholds)
    ensures BASELINE == Registers.Address(Registers.Baseline)
    ensures HW_ID == Registers.Address(Registers.HwId)
    ensures HW_VERSION == Registers.Address(Registers.HwVersion)
    ensures FW_BOOT_VERSION == Registers.Address(Registers.FwBootVersion)
    ensures FW_APP_VERSION == Registers.Address(Registers.FwAppVersion)
    ensures ERROR_ID == Registers.Address(Registers.ErrorId)
    ensures APP_START == Registers.Address(Registers.AppStart)
    ensures SW_RESET == Registers.Address(Registers.SwReset)
  {
  }

  /** The hard-coded mode byte is the newer packing of (EverySecond, Enable, Enable). */
  lemma StartModeIsEverySecondWithInterrupts()
    ensures START_MODE ==
      Registers.ModeByte(Registers.EverySecond, Registers.InterruptEnable, Registers.ThreshEnable)
    ensures START_MODE & 0x70 == 0x10 && BitSet(START_MODE, 3) && BitSet(START_MODE, 2)
  {
  }

  datatype Status = Status(raw: byte)

  datatype DeviceError = Message | ReadRegister | MeasureMode | MaxResistance | HeaterFault | HeaterSupply

  /** `Css811Error`; message strings are opaque. */
  datatype Css811Error =
    | SomethingWrong(message: string)
    | DeviseError(causes: seq<DeviceError>)
    | I2cError(message: string)
    | ErrorStatus(status: Status)

  predicate IsError(s: Status)
  {
    s.raw & ERROR != 0
  }

  predicate IsValue(s: Status)
  {
    s.raw & APP_VALID != 0
  }

  predicate IsReady(s: Status)
  {
    s.raw & DATA_READY != 0
  }

  /** `Status::new`: fails with `ErrorStatus(raw)` exactly when bit 0 is set. */
  function NewStatus(raw: byte): (r: Result<Status, Css811Error>)
    ensures r.Err? <==> BitSet(raw, 0)
    ensures r.Err? ==> r.error == ErrorStatus(Status(raw))
    ensures r.Ok? ==> r.value == Status(raw) && !IsError(r.value)
  {
    var status := Status(raw);
    if IsError(status) then Err(ErrorStatus(status)) else Ok(status)
  }

  /** `is_ready` reads bit 3 and `is_value` bit 4, as in the newer revision. */
  lemma QueriesReadOneBit(s: Status)
    ensures IsReady(s) <==> BitSet(s.raw, 3)
    ensures IsValue(s) <==> BitSet(s.raw, 4)
  {
  }

  datatype AlgorithmResultsData = AlgorithmResultsData(data: seq<byte>)

  predicate WellFormed(r: AlgorithmResultsData)
  {
    |r.data| == 6
  }

  function ResultStatus(r: AlgorithmResultsData): (s: Result<Status, Css811Error>)
    requires WellFormed(r)
    ensures s.Err? <==> BitSet(r.data[4], 0)
    ensures s.Err? ==> s.error == ErrorStatus(Status(r.data[4]))
    ensures s.Ok? ==> s.value == Status(r.data[4])
  {
    NewStatus(r.data[4])
  }

  function Co2(r: AlgorithmResultsData): (ppm: nat)
    requires WellFormed(r)
    ensures ppm == r.data[0] as int * 256 + r.data[1] as int
  {
    (((r.data[0] as bv16) << 8) | (r.data[1] as bv16)) as nat
  }

  function Tvoc(r: AlgorithmResultsData): (ppb: nat)
    requires WellFormed(r)
    ensures ppb == r.data[2] as int * 256 + r.data[3] as int
  {
    (((r.data[2] as bv16) << 8) | (r.data[3] as bv16)) as nat
  }

  /** `error_flags`: each cause with its mask, in bit order. */
  const FLAGS: seq<(byte, DeviceError)> := [
    (0x01, Message),
    (0x02, ReadRegister),
    (0x04, MeasureMode),
    (0x08, MaxResistance),
    (0x10, HeaterFault),
    (0x20, HeaterSupply)
  ]

  /** Position of a cause in declaration (and bit) order. */
  function Rank(e: DeviceError): (k: nat)
    ensures k < 6 && FLAGS[k].1 == e
  {
    match e
    case Message => 0
    case ReadRegister => 1
    case MeasureMode => 2
    case MaxResistance => 3
    case HeaterFault => 4
    case HeaterSupply => 5
  }

  /** The test of the `filter`: flag `mask` is raised in `raw`. */
  predicate Meets(raw: byte, mask: byte)
  {
    raw & mask != 0
  }

  /** The `filter`/`map`/`collect` chain over a table of flags. */
  function Present(table: seq<(byte, DeviceError)>, raw: byte): seq<DeviceError>
  {
    if table == [] then []
    else (if Meets(raw, table[0].0) then [table[0].1] else []) + Present(table[1..], raw)
  }

  datatype ErrorId = ErrorId(raw: byte, errors: seq<DeviceError>)

  /** `ErrorId::new`: never fails. */
  function NewErrorId(raw: byte): ErrorId
  {
    ErrorId(raw, Present(FLAGS, raw))
  }

  /** `has_error()`: the list of causes is not empty. */
  function HasError(id: ErrorId): bool
  {
    |id.errors| != 0
  }

  /** The causes of `table` carry consecutive ranks starting at `from`. */
  predicate RankedFrom(table: seq<(byte, DeviceError)>, from: nat)
  {
    forall k :: 0 <= k < |table| ==> Rank(table[k].1) == from + k
  }

  /** The mask of a cause: bit `Rank(e)`. */
  function Mask(e: DeviceError): byte
  {
    match e
    case Message => 0x01
    case ReadRegister => 0x02
    case MeasureMode => 0x04
    case MaxResistance => 0x08
    case HeaterFault => 0x10
    case HeaterSupply => 0x20
  }

  /** A mask meets `raw` exactly when the cause's bit is set. */
  lemma MaskIsBit(raw: byte, e: DeviceError)
    ensures Meets(raw, Mask(e)) <==> BitSet(raw, Rank(e))
  {
  }

  /** `FLAGS` lists the causes in rank order, each with its own mask. */
  lemma FlagsTableShape()
    ensures RankedFrom(FLAGS, 0) && OwnMasks(FLAGS)
  {
  }

  /** The masks of `table` are those of its causes. */
  predicate OwnMasks(table: seq<(byte, DeviceError)>)
  {
    forall k :: 0 <= k < |table| ==> table[k].0 == Mask(table[k].1)
  }

  /** Every cause in `p` ranks in `from..to` and its mask meets `raw`. */
  predicate AllSet(p: seq<DeviceError>, from: nat, to: nat, raw: byte)
  {
    forall i :: 0 <= i < |p| ==> from <= Rank(p[i]) < to && Meets(raw, Mask(p[i]))
  }

  /** The causes in `p` are in strictly increasing bit order, hence distinct. */
  predicate InBitOrder(p: seq<DeviceError>)
  {
    forall i, j :: 0 <= i < j < |p| ==> Rank(p[i]) < Rank(p[j])
  }

  lemma RankedTail(table: seq<(byte, DeviceError)>, from: nat)
    requires table != [] && RankedFrom(table, from) && OwnMasks(table)
    ensures RankedFrom(table[1..], from + 1) && OwnMasks(table[1..])
  {
    forall k | 0 <= k < |table| - 1
      ensures Rank(table[1..][k].1) == from + 1 + k && table[1..][k].0 == Mask(table[1..][k].1)
    {
      assert table[1..][k] == table[k + 1];
    }
  }

  lemma AllSetCons(e: DeviceError, rest: seq<DeviceError>, from: nat, to: nat, raw: byte)
    requires from <= Rank(e) < to && Meets(raw, Mask(e)) && AllSet(rest, from, to, raw)
    ensures AllSet([e] + rest, from, to, raw)
  {
    var p := [e] + rest;
    forall i | 0 <= i < |p|
      ensures from <= Rank(p[i]) < to && Meets(raw, Mask(p[i]))
    {
      if i > 0 {
        assert p[i] == rest[i - 1];
      }
    }
  }

  lemma AllSetWiden(p: seq<DeviceError>, from: nat, to: nat, from': nat, raw: byte)
    requires from' <= from && AllSet(p, from, to, raw)
    ensures AllSet(p, from', to, raw)
  {
  }

  /** What the filter keeps comes from the table and meets `raw`. */
  lemma {:induction false} PresentSound(table: seq<(byte, DeviceError)>, from: nat, raw: byte)
    requires RankedFrom(table, from) && OwnMasks(table)
    ensures AllSet(Present(table, raw), from, from + |table|, raw)
    decreases |table|
  {
    if table != [] {
      RankedTail(table, from);
      PresentSound(table[1..], from + 1, raw);
      var rest := Present(table[1..], raw);
      AllSetWiden(rest, from + 1, from + |table|, from, raw);
      if Meets(raw, table[0].0) {
        assert Present(table, raw) == [table[0].1] + rest;
        AllSetCons(table[0].1, rest, from, from + |table|, raw);
      } else {
        assert Present(table, raw) == rest;
      }
    }
  }

  /** The filter keeps the order of the table. */
  lemma {:induction false} PresentOrdered(table: seq<(byte, DeviceError)>, from: nat, raw: byte)
    requires RankedFrom(table, from) && OwnMasks(table)
    ensures InBitOrder(Present(table, raw))
    decreases |table|
  {
    if table != [] {
      RankedTail(table, from);
      PresentOrdered(table[1..], from + 1, raw);
      PresentSound(table[1..], from + 1, raw);
      var rest := Present(table[1..], raw);
      if Meets(raw, table[0].0) {
        var p := [table[0].1] + rest;
        assert Present(table, raw) == p;
        forall i, j | 0 <= i < j < |p|
          ensures Rank(p[i]) < Rank(p[j])
        {
          assert p[j] == rest[j - 1];
          if i > 0 {
            assert p[i] == rest[i - 1];
          }
        }
      } else {
        assert Present(table, raw) == rest;
      }
    }
  }

  /** Every entry of the table whose mask meets `raw` is kept. */
  lemma {:induction false} PresentComplete(table: seq<(byte, DeviceError)>, raw: byte, k: nat)
    requires k < |table| && Meets(raw, table[k].0)
    ensures table[k].1 in Present(table, raw)
    decreases k
  {
    if k > 0 {
      assert table[1..][k - 1] == table[k];
      PresentComplete(table[1..], raw, k - 1);
    }
  }

  /**
   * `ErrorId::new(raw)` lists exactly the causes whose bits are set, in bit
   * order, each once.
   */
  lemma ErrorsExact(raw: byte)
    ensures var errs := NewErrorId(raw).errors;
      && (forall e :: e in errs <==> Meets(raw, Mask(e)))
      && InBitOrder(errs)
  {
    var errs := NewErrorId(raw).errors;
    FlagsTableShape();
    PresentSound(FLAGS, 0, raw);
    PresentOrdered(FLAGS, 0, raw);
    forall e | Meets(raw, Mask(e))
      ensures e in errs
    {
      PresentComplete(FLAGS, raw, Rank(e));
    }
    forall e | e in errs
      ensures Meets(raw, Mask(e))
    {
      var i :| 0 <= i < |errs| && errs[i] == e;
    }
  }

  /** Only bits 0..5 are causes. */
  lemma MeetsCausesOnly(raw: byte, e: DeviceError)
    requires Meets(raw, Mask(e))
    ensures raw & 0x3F != 0
  {
  }

  /** A byte with one of bits 0..5 set raises some cause's flag. */
  lemma SomeCauseMeets(raw: byte)
    requires raw & 0x3F != 0
    ensures exists e :: Meets(raw, Mask(e))
  {
    if raw & 0x07 != 0 {
      assert Meets(raw, Mask(Message)) || Meets(raw, Mask(ReadRegister)) || Meets(raw, Mask(MeasureMode));
    } else {
      assert Meets(raw, Mask(MaxResistance)) || Meets(raw, Mask(HeaterFault)) || Meets(raw, Mask(HeaterSupply));
    }
  }

  /** In this revision `has_error()` holds exactly when some cause bit is set. */
  lemma HasErrorIffCauseBits(raw: byte)
    ensures HasError(NewErrorId(raw)) <==> raw & 0x3F != 0
  {
    var errs := NewErrorId(raw).errors;
    ErrorsExact(raw);
    if |errs| != 0 {
      assert errs[0] in errs;
      MeetsCausesOnly(raw, errs[0]);
    }
    if raw & 0x3F != 0 {
      SomeCauseMeets(raw);
      var e :| Meets(raw, Mask(e));
      assert e in errs;
    }
  }

  /** The cause of the same name in the newer revision. */
  function Newer(e: DeviceError): ErrorIdDecoder.DeviceError
  {
    ErrorIdDecoder.Causes[Rank(e)]
  }

  /** Both revisions decode the same causes from a byte. */
  lemma RevisionsAgreeOnCauses(raw: byte, e: DeviceError)
    ensures e in NewErrorId(raw).errors <==> ErrorIdDecoder.HasCause(ErrorIdDecoder.NewErrorId(raw), Newer(e))
  {
    ErrorsExact(raw);
    ErrorIdDecoder.HasCauseIffBit(raw, Newer(e));
  }

  /** ... but not on `has_error()`: a zero byte has none here and one in the newer revision. */
  lemma RevisionsDisagreeOnHasError()
    ensures NewErrorId(0).errors == []
    ensures !HasError(NewErrorId(0))
    ensures ErrorIdDecoder.HasError(ErrorIdDecoder.NewErrorId(0))
  {
  }

  /** The error of the older transport. */
  datatype I2cError = IoctlError(message: string)

  /** `From<I2cError> for Css811Error`: the debug form of the error, which quotes its message. */
  function ToCss811Error(e: I2cError): (c: Css811Error)
    ensures c.I2cError? && |c.message| == |e.message| + 14
    ensures c.message[12..12 + |e.message|] == e.message
    ensures c.message[..12] == "IoctlError(\"" && c.message[12 + |e.message|..] == "\")"
  {
    I2cError("IoctlError(\"" + e.message + "\")")
  }

  /** The bus operations the older driver issues through its file descriptor. */
  datatype LegacyOp =
    | BlockWrite(reg: byte, values: seq<byte>)
    | ByteWrite(reg: byte, value: byte)
    | ByteRead(reg: byte)
    | BlockRead(reg: byte, len: nat)

  datatype LegacyEvent = LegacyEvent(op: LegacyOp, reply: Result<seq<byte>, I2cError>)

  /**
   * The older transport functions, called on the driver's file descriptor.
   * Their source is not part of this model; the contracts assume what the
   * driver relies on: a successful read of `len` bytes yields `len` bytes.
   */
  class LegacyBus {
    ghost var trace: seq<LegacyEvent>
    var replies: seq<Result<seq<byte>, I2cError>>

    constructor (replies: seq<Result<seq<byte>, I2cError>>)
      ensures trace == [] && this.replies == replies
    {
      trace := [];
      this.replies := replies;
    }

    method NextReply() returns (reply: Result<seq<byte>, I2cError>)
      modifies this`replies
    {
      if replies == [] {
        reply := Err(IoctlError("no reply"));
      } else {
        reply := replies[0];
        replies := replies[1..];
      }
    }

    method WriteBlockData(reg: byte, values: seq<byte>) returns (r: Result<(), I2cError>)
      modifies this
      ensures trace == old(trace) + [LegacyEvent(BlockWrite(reg, values), if r.Ok? then Ok([]) else Err(r.error))]
    {
      var reply := NextReply();
      r := if reply.Ok? then Ok(()) else Err(reply.error);
      trace := trace + [LegacyEvent(BlockWrite(reg, values), if r.Ok? then Ok([]) else Err(r.error))];
    }

    method WriteByteData(reg: byte, value: byte) returns (r: Result<(), I2cError>)
      modifies this
      ensures trace == old(trace) + [LegacyEvent(ByteWrite(reg, value), if r.Ok? then Ok([]) else Err(r.error))]
    {
      var reply := NextReply();
      r := if reply.Ok? then Ok(()) else Err(reply.error);
      trace := trace + [LegacyEvent(ByteWrite(reg, value), if r.Ok? then Ok([]) else Err(r.error))];
    }

    method ReadByteData(reg: byte) returns (r: Result<byte, I2cError>)
      modifies this
      ensures trace == old(trace) + [LegacyEvent(ByteRead(reg), if r.Ok? then Ok([r.value]) else Err(r.error))]
    {
      var reply := NextReply();
      r := if reply.Err? then Err(reply.error)
           else if |reply.value| == 0 then Err(IoctlError("short read"))
           else Ok(reply.value[0]);
      trace := trace + [LegacyEvent(ByteRead(reg), if r.Ok? then Ok([r.value]) else Err(r.error))];
    }

    method ReadBlockData(reg: byte, len: nat) returns (r: Result<seq<byte>, I2cError>)
      modifies this
      ensures r.Ok? ==> |r.value| == len
      ensures trace == old(trace) + [LegacyEvent(BlockRead(reg, len), r)]
    {
      var reply := NextReply();
      r := if reply.Err? then reply
           else if |reply.value| < len then Err(IoctlError("short read"))
           else Ok(reply.value[..len]);
      trace := trace + [LegacyEvent(BlockRead(reg, len), r)];
    }
  }

  /** `Css811`, holding the open bus. */
  class Css811 {
    const bus: LegacyBus

    constructor (bus: LegacyBus)
      ensures this.bus == bus
    {
      this.bus := bus;
    }

    /**
     * `start`: an empty block write to APP_START, then the fixed mode byte to
     * MEAS_MODE; the second write is skipped if the first fails.
     */
    method Start() returns (r: Result<(), Css811Error>)
      modifies bus
      ensures old(bus.trace) <= bus.trace
      ensures var added := bus.trace[|old(bus.trace)|..];
        && |added| >= 1
        && added[0].op == BlockWrite(APP_START, [])
        && (added[0].reply.Err? ==> |added| == 1 && r == Err(ToCss811Error(added[0].reply.error)))
        && (added[0].reply.Ok? ==>
              && |added| == 2
              && added[1].op == ByteWrite(MEAS_MODE, START_MODE)
              && r == (if added[1].reply.Ok? then Ok(()) else Err(ToCss811Error(added[1].reply.error))))
    {
      var started := bus.WriteBlockData(APP_START, []);
      if started.Err? {
        return Err(ToCss811Error(started.error));
      }
      var written := bus.WriteByteData(MEAS_MODE, START_MODE);
      if written.Err? {
        return Err(ToCss811Error(written.error));
      }
      r := Ok(());
    }

    /** `status`: one byte read of STATUS, decoded. */
    method ReadStatus() returns (r: Result<Status, Css811Error>)
      modifies bus
      ensures |bus.trace| == |old(bus.trace)| + 1 && bus.trace[..|old(bus.trace)|] == old(bus.trace)
      ensures var e := bus.trace[|old(bus.trace)|];
        && e.op == ByteRead(STATUS)
        && (e.reply.Err? ==> r == Err(ToCss811Error(e.reply.error)))
        && (e.reply.Ok? ==> |e.reply.value| == 1 && r == NewStatus(e.reply.value[0]))
    {
      var raw := bus.ReadByteData(STATUS);
      if raw.Err? {
        return Err(ToCss811Error(raw.error));
      }
      r := NewStatus(raw.value);
    }

    /** `result`: one 6-byte read of ALG_RESULT_DATA; the six bytes are kept in order. */
    method ReadResult() returns (r: Result<AlgorithmResultsData, Css811Error>)
      modifies bus
      ensures |bus.trace| == |old(bus.trace)| + 1 && bus.trace[..|old(bus.trace)|] == old(bus.trace)
      ensures var e := bus.trace[|old(bus.trace)|];
        && e.op == BlockRead(ALG_RESULT_DATA, 6)
        && (e.reply.Err? ==> r == Err(ToCss811Error(e.reply.error)))
        && (e.reply.Ok? ==> r.Ok? && WellFormed(r.value) && r.value.data == e.reply.value)
    {
      var results := bus.ReadBlockData(ALG_RESULT_DATA, 6);
      if results.Err? {
        return Err(ToCss811Error(results.error));
      }
      var bytes := results.value;
      r := Ok(AlgorithmResultsData([bytes[0], bytes[1], bytes[2], bytes[3], bytes[4], bytes[5]]));
      assert bytes == [bytes[0], bytes[1], bytes[2], bytes[3], bytes[4], bytes[5]];
    }

    /** `error_id`: one byte read of ERROR_ID; succeeds whenever the read does. */
    method ReadErrorId() returns (r: Result<ErrorId, Css811Error>)
      modifies bus
      ensures |bus.trace| == |old(bus.trace)| + 1 && bus.trace[..|old(bus.trace)|] == old(bus.trace)
      ensures var e := bus.trace[|old(bus.trace)|];
        && e.op == ByteRead(ERROR_ID)
        && (e.reply.Err? ==> r == Err(ToCss811Error(e.reply.error)))
        && (e.reply.Ok? ==> |e.reply.value| == 1 && r == Ok(NewErrorId(e.reply.value[0])))
    {
      var raw := bus.ReadByteData(ERROR_ID);
      if raw.Err? {
        return Err(ToCss811Error(raw.error));
      }
      r := Ok(NewErrorId(raw.value));
    }
  }
}
