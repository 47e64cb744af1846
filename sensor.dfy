/**
 * Sensor control in the newer revision: the `I2c` bus trait and the default
 * methods of the `Ccs811` trait (`start`, `status`, `result`, `error_id`).
 * The bus is a class that records every operation it performs, with its
 * reply, in a ghost trace; callers know only its contracts, so what is
 * proved about the sensor methods holds for any bus.
 */
module SensorControl {
  import opened Common
  import Registers
  import opened StatusDecoder
  import ErrorIdDecoder
  import opened ResultsDecoder

  /** The four operations of the `I2c` trait. */
  datatype BusOp =
    | BlankWrite(reg: Registers.RegisterAddress)
    | ByteWrite(reg: Registers.RegisterAddress, value: byte)
    | ByteRead(reg: Registers.RegisterAddress)
    | BlockRead(reg: Registers.RegisterAddress, buffer: seq<byte>)  // the contents handed over

  /** A reply: the bytes the bus gave back (none for a write), or its error. */
  type Reply = Result<seq<byte>, Ccs811Error>

  datatype BusEvent = BusEvent(op: BusOp, reply: Reply)

  function AckReply(r: Result<(), Ccs811Error>): Reply
  {
    if r.Ok? then Ok([]) else Err(r.error)
  }

  function ByteReply(r: Result<byte, Ccs811Error>): Reply
  {
    if r.Ok? then Ok([r.value]) else Err(r.error)
  }

  /** A reply to a one-byte read. */
  predicate IsByteReply(reply: Reply)
  {
    reply.Ok? ==> |reply.value| == 1
  }

  /** The trace grew by one event. */
  ghost predicate Appended(before: seq<BusEvent>, after: seq<BusEvent>)
  {
    |after| == |before| + 1 && after[..|before|] == before
  }

  /**
   * One implementation of the `I2c` trait: it answers from a list of scripted
   * replies and records each operation in `trace`.
   */
  class I2cBus {
    ghost var trace: seq<BusEvent>
    var replies: seq<Reply>

    constructor (replies: seq<Reply>)
      ensures trace == [] && this.replies == replies
    {
      trace := [];
      this.replies := replies;
    }

    method NextReply() returns (reply: Reply)
      modifies this`replies
    {
      if replies == [] {
        reply := Err(I2cError("no reply"));
      } else {
        reply := replies[0];
        replies := replies[1..];
      }
    }

    /**
     * `write_i2c_blank_data`: taken to be a zero-length write, which is what
     * the older revision's `start` sends with an empty block. No code of the
     * crate implements this trait method.
     */
    method WriteI2cBlankData(reg: Registers.RegisterAddress) returns (r: Result<(), Ccs811Error>)
      modifies this
      ensures trace == old(trace) + [BusEvent(BlankWrite(reg), AckReply(r))]
    {
      var reply := NextReply();
      r := if reply.Ok? then Ok(()) else Err(reply.error);
      trace := trace + [BusEvent(BlankWrite(reg), AckReply(r))];
    }

    /** `write_byte_data`. */
    method WriteByteData(reg: Registers.RegisterAddress, value: byte) returns (r: Result<(), Ccs811Error>)
      modifies this
      ensures trace == old(trace) + [BusEvent(ByteWrite(reg, value), AckReply(r))]
    {
      var reply := NextReply();
      r := if reply.Ok? then Ok(()) else Err(reply.error);
      trace := trace + [BusEvent(ByteWrite(reg, value), AckReply(r))];
    }

    /** `read_byte_data`. */
    method ReadByteData(reg: Registers.RegisterAddress) returns (r: Result<byte, Ccs811Error>)
      modifies this
      ensures trace == old(trace) + [BusEvent(ByteRead(reg), ByteReply(r))]
    {
      var reply := NextReply();
      r := if reply.Err? then Err(reply.error)
           else if |reply.value| == 0 then Err(I2cError("short read"))
           else Ok(reply.value[0]);
      trace := trace + [BusEvent(ByteRead(reg), ByteReply(r))];
    }

    /** `read_i2c_block_data`: fills `data` in place; on success the trace holds what it left there. */
    method ReadI2cBlockData(reg: Registers.RegisterAddress, data: array<byte>) returns (r: Result<(), Ccs811Error>)
      modifies this, data
      ensures trace == old(trace) + [BusEvent(BlockRead(reg, old(data[..])), if r.Ok? then Ok(data[..]) else Err(r.error))]
    {
      ghost var before := data[..];
      var reply := NextReply();
      if reply.Err? {
        r := Err(reply.error);
      } else {
        var n := if |reply.value| < data.Length then |reply.value| else data.Length;
        forall i | 0 <= i < n {
          data[i] := reply.value[i];
        }
        r := Ok(());
      }
      trace := trace + [BusEvent(BlockRead(reg, before), if r.Ok? then Ok(data[..]) else Err(r.error))];
    }
  }

  /** The outcome of `status()` given the reply of its byte read. */
  function DecodeStatus(reply: Reply): (r: Result<Status, Ccs811Error>)
    requires IsByteReply(reply)
    ensures reply.Err? ==> r == Err(reply.error)
    ensures reply.Ok? ==> (r.Err? <==> reply.value[0] & ERROR != 0)
    ensures reply.Ok? && r.Err? ==> r.error == ErrorStatus(Status(reply.value[0]))
    ensures r.Ok? ==> r.value == Status(reply.value[0])
  {
    match reply
    case Err(e) => Err(e)
    case Ok(bytes) => NewStatus(bytes[0])
  }

  /** The outcome of `error_id()`: it succeeds exactly when its byte read does. */
  function DecodeErrorId(reply: Reply): (r: Result<ErrorIdDecoder.ErrorId, Ccs811Error>)
    requires IsByteReply(reply)
    ensures r.Ok? <==> reply.Ok?
    ensures reply.Err? ==> r == Err(reply.error)
    ensures r.Ok? ==> r.value == ErrorIdDecoder.NewErrorId(reply.value[0])
  {
    match reply
    case Err(e) => Err(e)
    case Ok(bytes) => Ok(ErrorIdDecoder.NewErrorId(bytes[0]))
  }

  /** The outcome of `result()`: the six bytes, in order, whatever their status byte says. */
  function DecodeResults(reply: Reply): (r: Result<AlgorithmResultsData, Ccs811Error>)
    requires reply.Ok? ==> |reply.value| == 6
    ensures r.Ok? <==> reply.Ok?
    ensures reply.Err? ==> r == Err(reply.error)
    ensures r.Ok? ==> WellFormed(r.value) && r.value.data == reply.value
  {
    match reply
    case Err(e) => Err(e)
    case Ok(bytes) => Ok(NewResults(bytes))
  }

  /** The outcome of `start()` given the replies of its writes. */
  function StartOutcome(events: seq<BusEvent>): Result<(), Ccs811Error>
    requires |events| > 0
  {
    var last := events[|events| - 1];
    if last.reply.Ok? then Ok(()) else Err(last.reply.error)
  }

  /**
   * The events of one `start(mode byte)`: a blank write to AppStart and, only
   * if it succeeded, a byte write of the mode byte to MeasMode.
   */
  ghost predicate IsStart(events: seq<BusEvent>, modeByte: byte)
  {
    && |events| >= 1
    && events[0].op == BlankWrite(Registers.AppStart)
    && (if events[0].reply.Err? then |events| == 1
        else |events| == 2 && events[1].op == ByteWrite(Registers.MeasMode, modeByte))
  }

  /** A failed first write is returned unchanged and nothing follows it. */
  lemma StartStopsAtFirstFailure(events: seq<BusEvent>, modeByte: byte)
    requires IsStart(events, modeByte)
    ensures events[0].reply.Err? ==> events == events[..1] && StartOutcome(events) == Err(events[0].reply.error)
    ensures StartOutcome(events).Ok? <==> |events| == 2 && events[1].reply.Ok?
  {
  }

  /** The default methods of the `Ccs811` trait, over the bus `i2c`. */
  class Ccs811 {
    const i2c: I2cBus

    constructor (i2c: I2cBus)
      ensures this.i2c == i2c
    {
      this.i2c := i2c;
    }

    /** `start`: trigger application mode, then write the packed mode byte. */
    method Start(mode: Registers.MeasureDriveMode, interrupt: Registers.MeasureInterrupt, thresh: Registers.MeasureThresh)
      returns (r: Result<(), Ccs811Error>)
      modifies i2c
      ensures old(i2c.trace) <= i2c.trace
      ensures var added := i2c.trace[|old(i2c.trace)|..];
        IsStart(added, Registers.ModeByte(mode, interrupt, thresh)) && r == StartOutcome(added)
    {
      var started := i2c.WriteI2cBlankData(Registers.AppStart);
      if started.Err? {
        return started;
      }
      var written := i2c.WriteByteData(Registers.MeasMode, Registers.ModeByte(mode, interrupt, thresh));
      if written.Err? {
        return written;
      }
      r := Ok(());
    }

    /** `status`: one byte read of register 0x00, decoded. */
    method ReadStatus() returns (r: Result<Status, Ccs811Error>)
      modifies i2c
      ensures Appended(old(i2c.trace), i2c.trace)
      ensures var e := i2c.trace[|old(i2c.trace)|];
        e.op == ByteRead(Registers.Status) && IsByteReply(e.reply) && r == DecodeStatus(e.reply)
    {
      var raw := i2c.ReadByteData(Registers.Status);
      if raw.Err? {
        return Err(raw.error);
      }
      r := NewStatus(raw.value);
    }

    /** `result`: one 6-byte block read of register 0x02 into a zeroed buffer. */
    method ReadResult() returns (r: Result<AlgorithmResultsData, Ccs811Error>)
      modifies i2c
      ensures Appended(old(i2c.trace), i2c.trace)
      ensures var e := i2c.trace[|old(i2c.trace)|];
        && e.op == BlockRead(Registers.AlgResultData, Zeros(6))
        && (e.reply.Ok? ==> |e.reply.value| == 6)
        && r == DecodeResults(e.reply)
    {
      var results := new byte[6](_ => 0);
      assert results[..] == Zeros(6);
      var read := i2c.ReadI2cBlockData(Registers.AlgResultData, results);
      if read.Err? {
        return Err(read.error);
      }
      r := Ok(NewResults([results[0], results[1], results[2], results[3], results[4], results[5]]));
      assert results[..] == [results[0], results[1], results[2], results[3], results[4], results[5]];
    }

    /** `error_id`: one byte read of register 0xE0, decoded. */
    method ReadErrorId() returns (r: Result<ErrorIdDecoder.ErrorId, Ccs811Error>)
      modifies i2c
      ensures Appended(old(i2c.trace), i2c.trace)
      ensures var e := i2c.trace[|old(i2c.trace)|];
        e.op == ByteRead(Registers.ErrorId) && IsByteReply(e.reply) && r == DecodeErrorId(e.reply)
    {
      var raw := i2c.ReadByteData(Registers.ErrorId);
      if raw.Err? {
        return Err(raw.error);
      }
      r := Ok(ErrorIdDecoder.NewErrorId(raw.value));
    }
  }
}
