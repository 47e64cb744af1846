/**
 * The error-id byte of the CCS811 (register 0xE0) in the newer revision of
 * the driver: six cause bits, decoded into a fixed array of six optional
 * causes, one per bit, in bit order low to high.
 */
module ErrorIdDecoder {
  import opened Common

  /** The six causes; each stands for one bit of the error-id byte. */
  datatype DeviceError =
    | Message
    | ReadRegister   // called `ReadRegisterInvalid` at the one call site in the helpers
    | MeasureMode
    | MaxResistance
    | HeaterFault
    | HeaterSupply

  /** The `#[repr(u8)]` discriminant of each cause. */
  function Code(e: DeviceError): byte
  {
    match e
    case Message => 0x01
    case ReadRegister => 0x02
    case MeasureMode => 0x04
    case MaxResistance => 0x08
    case HeaterFault => 0x10
    case HeaterSupply => 0x20
  }

  /** The causes in declaration order. */
  const Causes: seq<DeviceError> :=
    [Message, ReadRegister, MeasureMode, MaxResistance, HeaterFault, HeaterSupply]

  /** The position of a cause in declaration order, which is its bit. */
  function Rank(e: DeviceError): (k: nat)
    ensures k < 6 && Causes[k] == e
  {
    match e
    case Message => 0
    case ReadRegister => 1
    case MeasureMode => 2
    case MaxResistance => 3
    case HeaterFault => 4
    case HeaterSupply => 5
  }

  /** Each cause's code is a single bit, bit `k` for the `k`-th declared cause. */
  lemma CodesAreSingleBits(k: nat)
    requires k < 6
    ensures Code(Causes[k]) == 1 << k
    ensures forall j :: 0 <= j < 6 && j != k ==> Code(Causes[j]) & Code(Causes[k]) == 0
  {
  }

  /** Distinct causes have distinct codes. */
  lemma CodeInjective(a: DeviceError, b: DeviceError)
    ensures Code(a) == Code(b) <==> a == b
  {
  }

  /** `to_devise_error`: the cause when its bit is set in `raw`. */
  function ToDeviseError(raw: byte, error: DeviceError): (r: Option<DeviceError>)
    ensures r.Some? <==> BitSet(raw, Rank(error))
    ensures r.Some? ==> r.value == error
  {
    if raw & Code(error) != 0 then Some(error) else None
  }

  /** An error-id value: the raw byte and the six decoded slots. */
  datatype ErrorId = ErrorId(raw: byte, slots: seq<Option<DeviceError>>)

  /** `ErrorId::new`: never fails, for any byte. */
  function NewErrorId(raw: byte): (id: ErrorId)
    ensures id.raw == raw && |id.slots| == 6
    ensures forall k :: 0 <= k < 6 ==>
              (id.slots[k].Some? <==> BitSet(raw, k)) &&
              (id.slots[k].Some? ==> id.slots[k].value == Causes[k])
  {
    ErrorId(raw, [
      ToDeviseError(raw, Message),
      ToDeviseError(raw, ReadRegister),
      ToDeviseError(raw, MeasureMode),
      ToDeviseError(raw, MaxResistance),
      ToDeviseError(raw, HeaterFault),
      ToDeviseError(raw, HeaterSupply)
    ])
  }

  /** `errors()`: the six slots, `None` where the cause is absent. */
  function Errors(id: ErrorId): seq<Option<DeviceError>>
  {
    id.slots
  }

  /** A zero error-id byte decodes to six empty slots. */
  lemma NoBitsNoCauses()
    ensures Errors(NewErrorId(0)) == [None, None, None, None, None, None]
  {
  }

  /** Bits 6 and 7 are not causes: clearing them changes no slot. */
  lemma HighBitsIgnored(raw: byte)
    ensures Errors(NewErrorId(raw)) == Errors(NewErrorId(raw & 0x3F))
  {
  }

  /**
   * `has_error()` as written: `!self.1.is_empty()` on an array that always has
   * six elements, so it holds for every error-id, even for a zero byte.
   */
  function HasError(id: ErrorId): bool
  {
    |id.slots| != 0
  }

  lemma HasErrorAlwaysHolds(raw: byte)
    ensures HasError(NewErrorId(raw))
  {
  }

  /** The counterexample: no cause is set, yet `has_error()` holds. */
  lemma HasErrorOnZeroByte()
    ensures forall k :: 0 <= k < 6 ==> Errors(NewErrorId(0))[k] == None
    ensures HasError(NewErrorId(0))
  {
  }

  /** The evidently intended `has_error()`: some cause slot is filled. */
  function HasAnyError(id: ErrorId): bool
  {
    exists k :: 0 <= k < |id.slots| && id.slots[k].Some?
  }

  lemma HasAnyErrorIffCauseBits(raw: byte)
    ensures HasAnyError(NewErrorId(raw)) <==> raw & 0x3F != 0
  {
    var id := NewErrorId(raw);
    if raw & 0x3F != 0 {
      var k :| 0 <= k < 6 && BitSet(raw, k) by {
        BitsBelowSixCover(raw);
      }
      assert id.slots[k].Some?;
    }
  }

  /** A byte with some of bits 0..5 set has one of them set. */
  lemma BitsBelowSixCover(raw: byte)
    requires raw & 0x3F != 0
    ensures exists k :: 0 <= k < 6 && BitSet(raw, k)
  {
    if !BitSet(raw, 0) && !BitSet(raw, 1) && !BitSet(raw, 2) {
      assert BitSet(raw, 3) || BitSet(raw, 4) || BitSet(raw, 5);
    }
  }

  /**
   * The point query the helpers call as `has_error(DeviceError::ReadRegisterInvalid)`:
   * does the given cause hold.
   */
  function HasCause(id: ErrorId, cause: DeviceError): bool
  {
    Some(cause) in id.slots
  }

  lemma HasCauseIffBit(raw: byte, cause: DeviceError)
    ensures HasCause(NewErrorId(raw), cause) <==> raw & Code(cause) != 0
  {
  }
}
