/**
 * The register map of the CCS811 (ams datasheet DS000459) and the
 * measurement-mode byte, as the newer revision of the driver encodes them.
 */
module Registers {
  import opened Common

  /** The fifteen named registers. */
  datatype RegisterAddress =
    | Status | MeasMode | AlgResultData | RawData | EnvData | Ntc
    | Thresholds | Baseline | HwId | HwVersion | FwBootVersion | FwAppVersion
    | ErrorId | AppStart | SwReset

  /** `register as u8`: the fixed byte offset of each register. */
  function Address(r: RegisterAddress): byte
  {
    match r
    case Status => 0x00
    case MeasMode => 0x01
    case AlgResultData => 0x02
    case RawData => 0x03
    case EnvData => 0x05
    case Ntc => 0x06
    case Thresholds => 0x10
    case Baseline => 0x11
    case HwId => 0x20
    case HwVersion => 0x21
    case FwBootVersion => 0x23
    case FwAppVersion => 0x24
    case ErrorId => 0xE0
    case AppStart => 0xF4
    case SwReset => 0xFF
  }

  /** No two registers share an address. */
  lemma AddressInjective(a: RegisterAddress, b: RegisterAddress)
    ensures Address(a) == Address(b) ==> a == b
  {
  }

  /** The drive mode: bits 6..4 of the mode byte. */
  datatype MeasureDriveMode = Idle | EverySecond | EveryTenSeconds | EveryMinute | Raw

  /** New-data interrupt: bit 3 of the mode byte. */
  datatype MeasureInterrupt = InterruptEnable | InterruptDisable

  /** Threshold interrupt: bit 2 of the mode byte. */
  datatype MeasureThresh = ThreshEnable | ThreshDisable

  function DriveModeCode(m: MeasureDriveMode): byte
  {
    match m
    case Idle => 0x00
    case EverySecond => 0x10
    case EveryTenSeconds => 0x20
    case EveryMinute => 0x30
    case Raw => 0x48  // also sets bit 3, the new-data interrupt bit
  }

  function InterruptCode(i: MeasureInterrupt): byte
  {
    match i
    case InterruptEnable => 0x08
    case InterruptDisable => 0x00
  }

  function ThreshCode(t: MeasureThresh): byte
  {
    match t
    case ThreshEnable => 0x04
    case ThreshDisable => 0x00
  }

  /**
   * `mode as u8 | interrupt as u8 | thresh as u8`: the byte `start` writes to
   * MeasMode. Bits 1, 0 and 7 stay clear; bit 2 is the threshold flag; bit 3
   * is set by an enabled interrupt or by the Raw drive mode.
   */
  function ModeByte(mode: MeasureDriveMode, interrupt: MeasureInterrupt, thresh: MeasureThresh): (b: byte)
    ensures b & 0x83 == 0
    ensures BitSet(b, 2) <==> thresh == ThreshEnable
    ensures BitSet(b, 3) <==> interrupt == InterruptEnable || mode == Raw
    ensures b & 0x70 == DriveModeCode(mode) & 0x70
  {
    DriveModeCode(mode) | InterruptCode(interrupt) | ThreshCode(thresh)
  }

  /** Every second, both interrupts off: `0b0001_0000`. */
  lemma EverySecondQuiet()
    ensures ModeByte(EverySecond, InterruptDisable, ThreshDisable) == 0x10
  {
  }

  /** The partner of `ModeByte`: reads the three settings back from a mode byte. */
  function DecodeModeByte(b: byte): (r: Option<(MeasureDriveMode, MeasureInterrupt, MeasureThresh)>)
    ensures r.Some? <==> b & 0x83 == 0 && b & 0x70 <= 0x40
  {
    if b & 0x83 != 0 || b & 0x70 > 0x40 then None
    else
      var mode :=
        if b & 0x70 == 0x00 then Idle
        else if b & 0x70 == 0x10 then EverySecond
        else if b & 0x70 == 0x20 then EveryTenSeconds
        else if b & 0x70 == 0x30 then EveryMinute
        else Raw;
      var interrupt := if b & 0x08 != 0 then InterruptEnable else InterruptDisable;
      var thresh := if b & 0x04 != 0 then ThreshEnable else ThreshDisable;
      Some((mode, interrupt, thresh))
  }

  /** Outside Raw, the mode byte keeps all three settings. */
  lemma ModeByteRoundTrip(mode: MeasureDriveMode, interrupt: MeasureInterrupt, thresh: MeasureThresh)
    requires mode != Raw
    ensures DecodeModeByte(ModeByte(mode, interrupt, thresh)) == Some((mode, interrupt, thresh))
  {
  }

  /** Hence, outside Raw, distinct settings give distinct mode bytes. */
  lemma ModeByteInjective(m1: MeasureDriveMode, i1: MeasureInterrupt, t1: MeasureThresh,
                          m2: MeasureDriveMode, i2: MeasureInterrupt, t2: MeasureThresh)
    requires m1 != Raw && m2 != Raw
    requires ModeByte(m1, i1, t1) == ModeByte(m2, i2, t2)
    ensures m1 == m2 && i1 == i2 && t1 == t2
  {
    ModeByteRoundTrip(m1, i1, t1);
    ModeByteRoundTrip(m2, i2, t2);
  }

  /** In Raw, the interrupt setting is lost: both choices pack to the same byte. */
  lemma RawHidesInterrupt(thresh: MeasureThresh)
    ensures ModeByte(Raw, InterruptEnable, thresh) == ModeByte(Raw, InterruptDisable, thresh)
    ensures DecodeModeByte(ModeByte(Raw, InterruptDisable, thresh)) == Some((Raw, InterruptEnable, thresh))
  {
  }
}
