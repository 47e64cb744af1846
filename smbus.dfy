/**
 * The SMBus transport over Linux i2c-dev: byte and block reads and writes
 * encoded into the 34-byte `i2c_smbus_data` buffer that the `I2C_SMBUS`
 * ioctl exchanges with the kernel. The byte transfers are the Read Byte and
 * Write Byte transactions of sections 6.5.5 and 6.5.4 of the SMBus
 * specification; the block transfers are i2c-dev "I2C block" transactions
 * (`I2C_SMBUS_I2C_BLOCK_DATA`, `I2C_SMBUS_I2C_BLOCK_BROKEN`), which send no
 * count byte on the wire and which the Linux I2C core bounds at
 * `I2C_SMBUS_BLOCK_MAX` (32) bytes.
 */
module SmbusTransport {
  import opened Common
  import Registers
  import StatusDecoder

  // `read_write`: the direction of a transaction.
  const I2C_SMBUS_READ: byte := 1
  const I2C_SMBUS_WRITE: byte := 0

  // `size`: the transaction kinds this transport issues.
  const I2C_SMBUS_BYTE_DATA: nat := 2
  const I2C_SMBUS_I2C_BLOCK_BROKEN: nat := 6
  const I2C_SMBUS_I2C_BLOCK_DATA: nat := 8

  const I2C_SMBUS_BLOCK_MAX: nat := 32
  const BLOCK_MAX_BYTE: byte := 32
  /** Length of `i2c_smbus_data.block`: a count byte, 32 data bytes and one spare. */
  const BUFFER_LEN: nat := I2C_SMBUS_BLOCK_MAX + 2

  /** Longest `result` slice a block read accepts before touching the bus. */
  const MAX_READ_LEN: nat := 255

  datatype I2cError = IoctlError(message: string) | TooLongBlock

  /** The `Debug` text `to_string` gives an `I2cError`. */
  function Describe(e: I2cError): string
  {
    match e
    case IoctlError(m) => "IoctlError(\"" + m + "\")"
    case TooLongBlock => "TooLongBlock"
  }

  /** `From<I2cError> for Ccs811Error`: every transport failure becomes `I2cError`. */
  function ToCcs811Error(e: I2cError): (c: StatusDecoder.Ccs811Error)
    ensures c.I2cError? && c.message == Describe(e)
  {
    StatusDecoder.I2cError(Describe(e))
  }

  /** `i2c_smbus_ioctl_data` without its data pointer, which is passed alongside. */
  datatype IoctlMessage = IoctlMessage(readWrite: byte, command: byte, size: nat)

  /** One `I2C_SMBUS` ioctl: the request, the buffer before and after, the outcome. */
  datatype Transaction = Transaction(
    message: IoctlMessage,
    sent: seq<byte>,
    received: seq<byte>,
    outcome: Result<(), I2cError>)

  ghost predicate WellFormed(t: Transaction)
  {
    |t.sent| == BUFFER_LEN && |t.received| == BUFFER_LEN
  }

  /** What the kernel does with the next call. */
  datatype KernelReply = Errno(message: string) | Fill(block: seq<byte>)

  /** The buffer of a block read request: the wanted length in byte 0, zeros after. */
  function BlockReadRequest(len: nat): (b: seq<byte>)
    requires len <= MAX_READ_LEN
    ensures |b| == BUFFER_LEN && b[0] == len as byte
    ensures forall i :: 1 <= i < BUFFER_LEN ==> b[i] == 0
  {
    Zeros(BUFFER_LEN)[0 := len as byte]
  }

  /** The buffer of a block write: the count in byte 0, the payload after it, zeros beyond. */
  function BlockWriteRequest(values: seq<byte>): (b: seq<byte>)
    requires |values| <= BUFFER_LEN - 1
    ensures |b| == BUFFER_LEN && b[0] == |values| as byte
    ensures forall i :: 0 <= i < |values| ==> b[i + 1] == values[i]
    ensures forall i :: |values| < i < BUFFER_LEN ==> b[i] == 0
  {
    [|values| as byte] + values + Zeros(BUFFER_LEN - 1 - |values|)
  }

  /**
   * The open i2c-dev file descriptor and the kernel behind it. Callers know
   * only `SmbusAccess`'s contract: each call is logged once, may fail, and may
   * rewrite the buffer. The replies field scripts one particular kernel.
   */
  class I2cDev {
    ghost var log: seq<Transaction>
    var replies: seq<KernelReply>

    constructor (replies: seq<KernelReply>)
      ensures log == [] && this.replies == replies
    {
      log := [];
      this.replies := replies;
    }

    /**
     * `ioctl(fd, I2C_SMBUS, &message)`. Besides logging, the contract keeps
     * the one promise of the i2c-dev interface that the block read relies on:
     * a successful I2C block read returns no more bytes than were asked for,
     * and never more than 32.
     */
    method SmbusAccess(message: IoctlMessage, data: array<byte>) returns (r: Result<(), I2cError>)
      requires data.Length == BUFFER_LEN
      modifies this, data
      ensures log == old(log) + [Transaction(message, old(data[..]), data[..], r)]
      ensures r.Err? ==> r.error.IoctlError?
      ensures r.Ok? && IsBlockRead(message) ==> data[0] <= old(data[0]) && data[0] <= BLOCK_MAX_BYTE
    {
      ghost var before := data[..];
      if replies == [] {
        r := Err(IoctlError("ENXIO"));
      } else {
        var reply := replies[0];
        replies := replies[1..];
        r := KernelOutcome(message, data[0], reply);
        if r.Ok? {
          forall i | 0 <= i < data.Length {
            data[i] := reply.block[i];
          }
        }
      }
      log := log + [Transaction(message, before, data[..], r)];
    }
  }

  predicate IsBlockRead(message: IoctlMessage)
  {
    message.readWrite == I2C_SMBUS_READ && message.size == I2C_SMBUS_I2C_BLOCK_DATA
  }

  /**
   * What the scripted kernel answers: an errno, or a full buffer; a block read
   * that would report more than was asked for, or more than 32 bytes, is refused.
   */
  function KernelOutcome(message: IoctlMessage, requested: byte, reply: KernelReply): (r: Result<(), I2cError>)
    ensures r.Err? ==> r.error.IoctlError?
    ensures r.Ok? ==> reply.Fill? && |reply.block| == BUFFER_LEN
    ensures r.Ok? && IsBlockRead(message) ==> reply.block[0] <= requested && reply.block[0] <= BLOCK_MAX_BYTE
  {
    match reply
    case Errno(m) => Err(IoctlError(m))
    case Fill(block) =>
      if |block| != BUFFER_LEN || (IsBlockRead(message) && (block[0] > requested || block[0] > BLOCK_MAX_BYTE))
      then Err(IoctlError("EINVAL"))
      else Ok(())
  }

  /** `i2c_smbus_data::empty()`: a zeroed buffer. */
  method EmptyData() returns (data: array<byte>)
    ensures fresh(data) && data.Length == BUFFER_LEN && data[..] == Zeros(BUFFER_LEN)
  {
    data := new byte[BUFFER_LEN](_ => 0);
  }

  /** The log grew by exactly one transaction. */
  ghost predicate OneCall(before: seq<Transaction>, after: seq<Transaction>)
  {
    |after| == |before| + 1 && after[..|before|] == before && WellFormed(after[|before|])
  }

  /** `i2c_smbus_read_byte_data`: one Read Byte transaction, answered by byte 0 of the buffer. */
  method ReadByteData(fd: I2cDev, register: Registers.RegisterAddress) returns (r: Result<byte, I2cError>)
    modifies fd
    ensures OneCall(old(fd.log), fd.log)
    ensures var t := fd.log[|old(fd.log)|];
      && t.message == IoctlMessage(I2C_SMBUS_READ, Registers.Address(register), I2C_SMBUS_BYTE_DATA)
      && t.sent == Zeros(BUFFER_LEN)
      && r == (if t.outcome.Ok? then Ok(t.received[0]) else Err(t.outcome.error))
  {
    var data := EmptyData();
    var message := IoctlMessage(I2C_SMBUS_READ, Registers.Address(register), I2C_SMBUS_BYTE_DATA);
    var outcome := fd.SmbusAccess(message, data);
    if outcome.Err? {
      return Err(outcome.error);
    }
    r := Ok(data[0]);
  }

  /**
   * `i2c_smbus_write_byte_data`: one Write Byte transaction carrying `value`
   * in byte 0 of an otherwise zero buffer; answers byte 0 after the call.
   */
  method WriteByteData(fd: I2cDev, register: Registers.RegisterAddress, value: byte) returns (r: Result<byte, I2cError>)
    modifies fd
    ensures OneCall(old(fd.log), fd.log)
    ensures var t := fd.log[|old(fd.log)|];
      && t.message == IoctlMessage(I2C_SMBUS_WRITE, Registers.Address(register), I2C_SMBUS_BYTE_DATA)
      && t.sent == Zeros(BUFFER_LEN)[0 := value]
      && r == (if t.outcome.Ok? then Ok(t.received[0]) else Err(t.outcome.error))
  {
    var data := EmptyData();
    data[0] := value;
    var message := IoctlMessage(I2C_SMBUS_WRITE, Registers.Address(register), I2C_SMBUS_BYTE_DATA);
    var outcome := fd.SmbusAccess(message, data);
    if outcome.Err? {
      return Err(outcome.error);
    }
    r := Ok(data[0]);
  }

  /**
   * The effect of a successful block read on the destination: the count in
   * byte 0 of the answer fits the destination and the kernel's
   * `I2C_SMBUS_BLOCK_MAX` of 32 (the slice of the source alone would also
   * take 33), the first `count` destination bytes are payload bytes
   * `1..=count` in order, and the rest are as they were.
   */
  predicate CopiedOut(received: seq<byte>, before: seq<byte>, after: seq<byte>)
    requires |received| == BUFFER_LEN
  {
    && received[0] as int <= |before|
    && received[0] as int <= I2C_SMBUS_BLOCK_MAX
    && |after| == |before|
    && forall i :: 0 <= i < |after| ==>
         after[i] == if i < received[0] as int then received[i + 1] else before[i]
  }

  /** The zeroed buffer of a block read with the wanted length in byte 0. */
  method BlockReadData(len: nat) returns (data: array<byte>)
    requires len <= MAX_READ_LEN
    ensures fresh(data) && data[..] == BlockReadRequest(len)
  {
    data := EmptyData();
    data[0] := len as byte;
  }

  /**
   * `i2c_smbus_read_i2c_block_data`: a slice longer than 255 is refused before
   * any ioctl; otherwise one I2C block read asking for `result.Length` bytes,
   * after which the first `count = block[0]` payload bytes are copied into
   * `result` and the rest of `result` is left as it was.
   */
  method ReadI2cBlockData(fd: I2cDev, register: Registers.RegisterAddress, result: array<byte>)
    returns (r: Result<(), I2cError>)
    modifies fd, result
    ensures result.Length > MAX_READ_LEN ==>
              r == Err(TooLongBlock) && fd.log == old(fd.log) && result[..] == old(result[..])
    ensures result.Length <= MAX_READ_LEN ==> OneCall(old(fd.log), fd.log)
    ensures result.Length <= MAX_READ_LEN ==>
      var t := fd.log[|old(fd.log)|];
      && t.message == IoctlMessage(I2C_SMBUS_READ, Registers.Address(register), I2C_SMBUS_I2C_BLOCK_DATA)
      && t.sent == BlockReadRequest(result.Length)
      && r == t.outcome
      && (r.Err? ==> result[..] == old(result[..]))
      && (r.Ok? ==> CopiedOut(t.received, old(result[..]), result[..]))
  {
    if result.Length > MAX_READ_LEN {
      return Err(TooLongBlock);
    }
    ghost var before := result[..];
    var data := BlockReadData(result.Length);
    var message := IoctlMessage(I2C_SMBUS_READ, Registers.Address(register), I2C_SMBUS_I2C_BLOCK_DATA);
    r := fd.SmbusAccess(message, data);
    assert result[..] == before;
    ghost var t := fd.log[|old(fd.log)|];
    assert t.received == data[..];
    if r.Ok? {
      CopyOut(data, result);
    }
  }

  /**
   * The `for_each` of the block read: payload bytes `1..=count` of the buffer
   * go to `result[0..count]`, where `count` is the buffer's byte 0, provided
   * it is no more than the byte the request carried.
   */
  method CopyOut(data: array<byte>, result: array<byte>)
    requires data.Length == BUFFER_LEN && data[0] <= BLOCK_MAX_BYTE
    requires result.Length <= MAX_READ_LEN && data[0] <= result.Length as byte && data != result
    modifies result
    ensures CopiedOut(data[..], old(result[..]), result[..])
  {
    CountFits(data[0], result.Length);
    var count := data[0] as int;
    for i := 0 to count
      invariant forall j :: 0 <= j < i ==> result[j] == data[j + 1]
      invariant forall j :: i <= j < result.Length ==> result[j] == old(result[j])
    {
      result[i] := data[i + 1];
    }
  }

  /** A count byte no larger than the length requested, and than 32, is that small as a number. */
  lemma CountFits(count: byte, len: nat)
    requires len <= MAX_READ_LEN && count <= len as byte && count <= BLOCK_MAX_BYTE
    ensures count as int <= len && count as int <= I2C_SMBUS_BLOCK_MAX
  {
    ByteRoundTrip(len);
    ByteOrder(count, len as byte);
    ByteOrder(count, BLOCK_MAX_BYTE);
  }

  /** The buffer of a block write: the count in byte 0 and the payload after it. */
  method BlockWriteData(values: seq<byte>) returns (data: array<byte>)
    requires |values| <= BUFFER_LEN - 1
    ensures fresh(data) && data[..] == BlockWriteRequest(values)
  {
    data := EmptyData();
    data[0] := |values| as byte;
    for i := 0 to |values|
      invariant data[0] == |values| as byte
      invariant forall j :: 0 <= j < i ==> data[j + 1] == values[j]
      invariant forall j :: i < j < BUFFER_LEN ==> data[j] == 0
    {
      data[i + 1] := values[i];
    }
  }

  /**
   * `i2c_smbus_write_i2c_block_data`: one I2C block write whose buffer holds
   * the count and the payload. There is no length guard: a payload longer
   * than 33 bytes would index past the buffer.
   */
  method WriteI2cBlockData(fd: I2cDev, register: Registers.RegisterAddress, values: seq<byte>)
    returns (r: Result<(), I2cError>)
    requires |values| <= BUFFER_LEN - 1
    modifies fd
    ensures OneCall(old(fd.log), fd.log)
    ensures var t := fd.log[|old(fd.log)|];
      && t.message == IoctlMessage(I2C_SMBUS_WRITE, Registers.Address(register), I2C_SMBUS_I2C_BLOCK_BROKEN)
      && t.sent == BlockWriteRequest(values)
      && r == t.outcome
  {
    var data := BlockWriteData(values);
    var message := IoctlMessage(I2C_SMBUS_WRITE, Registers.Address(register), I2C_SMBUS_I2C_BLOCK_BROKEN);
    r := fd.SmbusAccess(message, data);
  }
}
