/**
 * The status byte of the CCS811 (register 0x00) in the newer revision, and the
 * driver's error type, which carries a `Status` and therefore lives beside it.
 */
module StatusDecoder {
  import opened Common
  import ErrorIdDecoder

  const ERROR: byte := 0x01
  const DATA_READY: byte := 0x08
  const APP_VALID: byte := 0x10
  const FW_MODE: byte := 0x80

  /** A status byte, kept whole. */
  datatype Status = Status(raw: byte)

  /** `Ccs811Error`; message strings are opaque. */
  datatype Ccs811Error =
    | DeviseError(causes: seq<Common.Option<ErrorIdDecoder.DeviceError>>)
    | I2cError(message: string)
    | ErrorStatus(status: Status)

  predicate IsError(s: Status)
  {
    s.raw & ERROR != 0
  }

  /** Application firmware is valid (`is_value`). */
  predicate IsValue(s: Status)
  {
    s.raw & APP_VALID != 0
  }

  /** A new sample is ready (`is_ready`). */
  predicate IsReady(s: Status)
  {
    s.raw & DATA_READY != 0
  }

  /** Firmware runs in application mode rather than boot mode (`is_app_mode`). */
  predicate IsAppMode(s: Status)
  {
    s.raw & FW_MODE != 0
  }

  /**
   * `Status::new`: fails with `ErrorStatus` carrying the whole byte exactly
   * when bit 0 is set; otherwise yields a status whose error flag is clear.
   */
  function NewStatus(raw: byte): (r: Result<Status, Ccs811Error>)
    ensures r.Err? <==> BitSet(raw, 0)
    ensures r.Err? ==> r.error == ErrorStatus(Status(raw))
    ensures r.Ok? ==> r.value.raw == raw && !IsError(r.value)
  {
    var status := Status(raw);
    if IsError(status) then Err(ErrorStatus(status)) else Ok(status)
  }

  /** Each query reads exactly one bit: 3 (ready), 4 (app valid), 7 (app mode). */
  lemma QueriesReadOneBit(s: Status)
    ensures IsReady(s) <==> BitSet(s.raw, 3)
    ensures IsValue(s) <==> BitSet(s.raw, 4)
    ensures IsAppMode(s) <==> BitSet(s.raw, 7)
    ensures IsError(s) <==> BitSet(s.raw, 0)
  {
  }

  /** Everything a caller can observe of `Status::new(raw)`. */
  function Observe(raw: byte): (bool, bool, bool, bool)
  {
    var s := Status(raw);
    (NewStatus(raw).Ok?, IsReady(s), IsValue(s), IsAppMode(s))
  }

  /** Bits 1, 2, 5 and 6 are meaningless: flipping them changes nothing observable. */
  lemma ReservedBitsIgnored(raw: byte, flip: byte)
    requires flip & 0x99 == 0
    ensures Observe(raw ^ flip) == Observe(raw)
  {
  }

  /** Each query depends on its own bit only. */
  lemma QueriesIndependent(raw: byte, flip: byte)
    ensures flip & DATA_READY == 0 ==> IsReady(Status(raw ^ flip)) == IsReady(Status(raw))
    ensures flip & APP_VALID == 0 ==> IsValue(Status(raw ^ flip)) == IsValue(Status(raw))
    ensures flip & FW_MODE == 0 ==> IsAppMode(Status(raw ^ flip)) == IsAppMode(Status(raw))
    ensures flip & ERROR == 0 ==> NewStatus(raw ^ flip).Ok? == NewStatus(raw).Ok?
  {
  }
}
