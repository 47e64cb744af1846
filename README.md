# CCS811 driver model

This project is a Dafny model of the core of `rs-ccs811`, a Rust driver for
the ams CCS811 air-quality sensor. The sensor sits on an I2C bus and is
reached through the Linux `i2c-dev` SMBus ioctl. The model covers:

- **Register map and measurement-mode byte** (`Registers`). The fifteen
  register addresses, and the mode byte that `start` writes. That byte is the
  bitwise OR of a drive mode, an interrupt flag and a threshold flag.
- **Decoders** of the three kinds of bytes the sensor returns:
  - the status byte (`StatusDecoder`);
  - the six-byte algorithm-results block, holding eCO2 in ppm and TVOC in ppb
    as big-endian 16-bit values, then a status byte and a raw byte
    (`ResultsDecoder`);
  - the error-id byte, six cause bits decoded into six optional causes
    (`ErrorIdDecoder`).
- **SMBus transport over the i2c-dev file descriptor** (`SmbusTransport`).
  Each call builds the 34-byte `i2c_smbus_data` buffer and the
  `i2c_smbus_ioctl_data` message and issues one `I2C_SMBUS` ioctl, except a
  block read refused by its length guard, which issues none. The reads take
  their answer back out of the buffer. The ioctl is a method of a class whose ghost
  log records every transaction, and the buffer is an `array`.
- **Sensor operations of the `Ccs811` trait** (`SensorControl`): `start`,
  `status`, `result` and `error_id`, over a bus implementing the `I2c` trait.
  The bus records each operation and its reply in a ghost trace. The contracts
  state, for any bus, which operations each method issues, in what order, and
  how the result follows from the replies.
- **Resume-or-restart policy** of the helpers (`Policy`). It runs five
  sampling rounds: a result read, a status read and, after a failed status,
  an error-id read. It counts failed status reads and the failures whose error
  id names an invalid register read. It then starts the sensor if every round
  failed or at least four looked like a device that was never started.
- **The older driver revision**, `Css811` in `src/ccs_811` (`LegacyDriver`).
  The crate root still exports it. It has byte register constants, a fixed
  mode byte, and an `ErrorId` that keeps only the causes present, as a list.
  Its ordering and exactness are proved, and it is compared with the newer
  revision.

Bytes are `bv8`, so the source's `&`, `|` and `<<` on `u8`/`u16` are modelled
as they are written. Counts and 16-bit quantities are `nat`, with their bounds
stated.

Places where the code differs between its two revisions, or disagrees with
itself, and what the model does there:

- The register enumeration has fifteen entries, including both `Ntc` and
  `RawData`.
- The newer `ErrorId` holds a fixed array of six `Option` slots. The older
  revision keeps only the present causes, as a list
  (`LegacyDriver.ErrorsExact`).
- `AlgorithmResultsData::status` calls `Status::try_new`, which
  `src/ccs811/status.rs` does not define. It is modelled as `Status::new`,
  the only constructor there.
- The helpers call `has_error(DeviceError::ReadRegisterInvalid)`: a one-argument
  `has_error` and a variant name that `src/ccs811/error_id.rs` does not have.
  It is modelled as the point query `ErrorIdDecoder.HasCause(id, ReadRegister)`,
  matching the cause by bit position.
- The `I2c` trait declares `write_i2c_blank_data(reg)` (src/ccs811/mod.rs:60),
  but the Unix client defines `write_i2c_block_data(reg, data)` instead
  (src/client/unix/mod.rs:27), so no code implements the trait method. The
  model takes it to be a zero-length write, which is what the older `start`
  sends with `&vec![]` (src/ccs_811/mod.rs:63).

## Model

| member | source | states |
|---|---|---|
| Registers.AddressInjective | src/ccs811/mod.rs:19-36 | no two registers share an address |
| Registers.ModeByte | src/ccs811/mod.rs:38-57 | the mode byte never sets bits 0, 1 and 7; bit 2 is set iff thresholds are enabled; bit 3 iff interrupts are enabled or the mode is Raw; bits 4-6 are the drive-mode period |
| Registers.EverySecondQuiet | src/ccs811/mod.rs:38-57 | every-second mode without interrupts or thresholds is the byte 0x10 |
| Registers.DecodeModeByte | src/ccs811/mod.rs:38-57 | a byte decodes to settings exactly when bits 0, 1 and 7 are clear and the period field is at most 4 |
| Registers.ModeByteRoundTrip | src/ccs811/mod.rs:80 | for every mode other than Raw, decoding the packed byte gives back the mode, interrupt and threshold settings |
| Registers.ModeByteInjective | src/ccs811/mod.rs:80 | outside Raw mode, distinct settings give distinct mode bytes |
| Registers.RawHidesInterrupt | src/ccs811/mod.rs:44 | Raw mode's code already has bit 3 set, so its interrupt setting is lost in the byte |
| StatusDecoder.NewStatus | src/ccs811/status.rs:12-20 | `Status::new` fails with `ErrorStatus` carrying the byte iff bit 0 is set; otherwise it keeps the byte unchanged |
| StatusDecoder.QueriesReadOneBit | src/ccs811/status.rs:3-6 | `is_error`, `is_ready`, `is_value` and `is_app_mode` each read one bit: 0, 3, 4 and 7 |
| StatusDecoder.ReservedBitsIgnored | src/ccs811/status.rs:22-36 | flipping only bits 1, 2, 5 or 6 changes no query and no outcome of `new` |
| StatusDecoder.QueriesIndependent | src/ccs811/status.rs:22-36 | each query depends only on its own bit |
| ErrorIdDecoder.CodesAreSingleBits | src/ccs811/error_id.rs:3-10 | the k-th cause's discriminant is bit k, disjoint from every other cause's |
| ErrorIdDecoder.CodeInjective | src/ccs811/error_id.rs:3-10 | distinct causes have distinct discriminants |
| ErrorIdDecoder.ToDeviseError | src/ccs811/error_id.rs:14-20 | yields the given cause iff its bit is set in the byte, and nothing otherwise |
| ErrorIdDecoder.NewErrorId | src/ccs811/error_id.rs:23-34 | `ErrorId::new` never fails; it keeps the byte and has six slots; slot k is filled iff bit k is set, and then holds the k-th cause |
| ErrorIdDecoder.NoBitsNoCauses | src/ccs811/error_id.rs:23-38 | a zero byte decodes to six empty slots |
| ErrorIdDecoder.HighBitsIgnored | src/ccs811/error_id.rs:23-38 | bits 6 and 7 do not affect `errors()` |
| ErrorIdDecoder.HasErrorAlwaysHolds | src/ccs811/error_id.rs:40-42 | as written, `has_error()` holds for every byte |
| ErrorIdDecoder.HasErrorOnZeroByte | src/ccs811/error_id.rs:40-42 | counterexample: byte 0 has no cause, yet `has_error()` holds |
| ErrorIdDecoder.HasAnyErrorIffCauseBits | src/ccs811/error_id.rs:40-42 | corrected `has_error()`: it holds iff one of bits 0-5 is set |
| ErrorIdDecoder.HasCauseIffBit | src/helpers/mod.rs:17 | the point query for a cause holds iff that cause's bit is set |
| ResultsDecoder.NewResults | src/ccs811/algorithm_results_data.rs:7-9 | the block keeps exactly the six bytes read |
| ResultsDecoder.BigEndian16 | src/ccs811/algorithm_results_data.rs:15-21 | `(hi as u16) << 8 \| lo as u16` is hi·256 + lo, below 65536 |
| ResultsDecoder.Co2 | src/ccs811/algorithm_results_data.rs:15-17 | eCO2 is bytes 0-1, big-endian, at most 0xFFFF |
| ResultsDecoder.Tvoc | src/ccs811/algorithm_results_data.rs:19-21 | TVOC is bytes 2-3, big-endian, at most 0xFFFF |
| ResultsDecoder.ResultStatus | src/ccs811/algorithm_results_data.rs:11-13 | the block's status is byte 4 decoded by `Status::new`: it fails with `ErrorStatus(Status(byte 4))` iff that byte's error bit is set, and otherwise is `Status(byte 4)` |
| ResultsDecoder.DecodeEncode | src/ccs811/algorithm_results_data.rs:15-21 | encoding quantities below 65536 and then decoding them gives them back, with status and raw bytes in place |
| ResultsDecoder.EncodeDecode | src/ccs811/algorithm_results_data.rs:15-21 | every well-formed block is the encoding of its decoded quantities: no byte is lost |
| ResultsDecoder.Example400ppm | src/ccs811/algorithm_results_data.rs:15-17 | bytes 0x01 0x90 read as 400 ppm, the lower bound of a valid reading |
| ResultsDecoder.RawByteIgnored | src/ccs811/algorithm_results_data.rs:11-21 | byte 5 affects neither quantity nor the status |
| ResultsDecoder.QuantitiesIgnoreStatus | src/ccs811/algorithm_results_data.rs:15-21 | the status byte does not affect the quantities |
| ResultsDecoder.Co2ValidInBytes | src/ccs811/co2.rs:23-25 | `is_valid` (400..8192 ppm) stated over the two result bytes |
| ResultsDecoder.TvocValidInBytes | src/ccs811/tvoc.rs:23-25 | `is_valid` (0..1187 ppb) stated over the two result bytes: byte 2 below 0x04, or 0x04 with byte 3 at most 0xA3 |
| SmbusTransport.ToCcs811Error | src/client/unix/i2c/error.rs:23-27 | every transport error becomes `Ccs811Error::I2cError` carrying its debug text |
| SmbusTransport.BlockReadRequest | src/client/unix/i2c/mod.rs:133-134 | the block-read buffer carries the wanted length in byte 0 and zeros after it |
| SmbusTransport.BlockReadData | src/client/unix/i2c/mod.rs:133-134 | a fresh buffer equal to `BlockReadRequest(len)`: the wanted length in byte 0, zeros after it |
| SmbusTransport.BlockWriteRequest | src/client/unix/i2c/mod.rs:158-163 | the block-write buffer carries the count in byte 0, the payload in bytes 1.., and zeros beyond |
| SmbusTransport.I2cDev.SmbusAccess | src/client/unix/i2c/mod.rs:77 | one `I2C_SMBUS` ioctl: logs request, buffer before and after, and outcome; fails only with `IoctlError`; a successful I2C block read reports no more than requested and at most 32 bytes |
| SmbusTransport.EmptyData | src/client/unix/i2c/mod.rs:52-56 | a fresh zeroed 34-byte buffer |
| SmbusTransport.ReadByteData | src/client/unix/i2c/mod.rs:95-107 | exactly one read of type BYTE_DATA at the register, on a zeroed buffer; returns byte 0 of the answer or the ioctl's error |
| SmbusTransport.WriteByteData | src/client/unix/i2c/mod.rs:109-122 | exactly one write of type BYTE_DATA with the value in byte 0; returns byte 0 of the buffer afterwards, or the ioctl's error |
| SmbusTransport.ReadI2cBlockData | src/client/unix/i2c/mod.rs:124-151 | a destination over 255 bytes gives `TooLongBlock` with no ioctl; otherwise one I2C_BLOCK_DATA read requesting the destination's length; on success the count is at most the length and 32, bytes 1..count land in order at the front of the destination, the rest is unchanged; on failure the destination is unchanged |
| SmbusTransport.CopyOut | src/client/unix/i2c/mod.rs:145-149 | copies `block[1..count+1]` to the front of the destination and changes nothing else |
| SmbusTransport.BlockWriteData | src/client/unix/i2c/mod.rs:158-163 | a fresh buffer holding the block-write layout: the count in byte 0, the values in order from byte 1, zeros beyond |
| SmbusTransport.WriteI2cBlockData | src/client/unix/i2c/mod.rs:153-175 | exactly one write of type I2C_BLOCK_BROKEN whose buffer is the block-write layout of the values; the outcome is the ioctl's |
| SensorControl.I2cBus.WriteI2cBlankData | src/ccs811/mod.rs:60 | one zero-length write to the register, recorded in the trace with its acknowledgement or error |
| SensorControl.I2cBus.WriteByteData | src/ccs811/mod.rs:61 | one byte write of the value to the register, recorded with its acknowledgement or error |
| SensorControl.I2cBus.ReadByteData | src/ccs811/mod.rs:62 | one byte read of the register, recorded with the byte returned or the error |
| SensorControl.I2cBus.ReadI2cBlockData | src/ccs811/mod.rs:63 | one block read of the register, recorded with the destination's contents before it and, on success, the contents it leaves |
| SensorControl.DecodeStatus | src/ccs811/mod.rs:85-88 | `status()` passes a bus error through; otherwise it fails with `ErrorStatus(Status(byte))` iff the byte read has its error bit set, and returns `Status(byte)` when it does not |
| SensorControl.DecodeErrorId | src/ccs811/mod.rs:99-103 | `error_id()` succeeds exactly when its read does, passes its error through, and on success is `ErrorId::new` of the byte read |
| SensorControl.DecodeResults | src/ccs811/mod.rs:90-97 | `result()` succeeds exactly when its block read does, and keeps the six bytes in order whatever their status byte says |
| SensorControl.StartStopsAtFirstFailure | src/ccs811/mod.rs:77-82 | a failed AppStart write is returned as it is and nothing follows; `start` succeeds iff both writes do |
| SensorControl.Ccs811.Start | src/ccs811/mod.rs:71-83 | issues a blank write to AppStart, then (only if it succeeded) the packed mode byte to MeasMode; returns the first failure or success |
| SensorControl.Ccs811.ReadStatus | src/ccs811/mod.rs:85-88 | exactly one byte read of Status; the outcome is its decoding |
| SensorControl.Ccs811.ReadResult | src/ccs811/mod.rs:90-97 | exactly one block read of AlgResultData into a zeroed 6-byte buffer; the outcome is its decoding |
| SensorControl.Ccs811.ReadErrorId | src/ccs811/mod.rs:99-103 | exactly one byte read of ErrorId; the outcome is its decoding |
| Policy.SampleErrors | src/helpers/mod.rs:3-29 | exactly five rounds, whose bus operations appear in order; the error id is read only after a failed status; one wait per round after its operations; the counters are the failed rounds and those showing the invalid-register-read cause |
| Policy.SampleRound | src/helpers/mod.rs:11-23 | one round: result, then status, then the error id only if the status failed; reports whether the status failed and whether the not-started sign showed |
| Policy.ResumeOrRestart | src/helpers/mod.rs:54-71 | after sampling, `start` is called with the caller's settings (its result returned) iff all five rounds failed or at least four showed the not-started sign; otherwise nothing more is issued and the result is success |
| Policy.CountersBounded | src/helpers/mod.rs:5-27 | the not-started count never exceeds the failure count, which never exceeds the rounds |
| Policy.NotStartedSignIsBitOne | src/helpers/mod.rs:12-22 | a round counts as not-started iff the status failed, the error id was read, and its bit 1 is set |
| Policy.AllHealthyResumes | src/helpers/mod.rs:64-70 | five successful status reads: no restart |
| Policy.AllFailedRestarts | src/helpers/mod.rs:64-70 | five failed status reads: restart, whatever the error ids said |
| Policy.FewSignsResume | src/helpers/mod.rs:64-70 | one healthy round and at most three not-started signs: no restart |
| Policy.HealthyRoundsCountNothing | src/helpers/mod.rs:12-23 | rounds whose status read succeeds add to neither counter |
| Policy.FailedRoundsCountAll | src/helpers/mod.rs:12-13 | if every status read fails, the failure count is the number of rounds |
| Policy.HealthyRoundBelowAll | src/helpers/mod.rs:12-13 | one healthy round keeps the failure count below the number of rounds |
| Policy.WaitsFollowRounds | src/helpers/mod.rs:8-25 | one wait per round, each at least two bus operations after the previous one |
| LegacyDriver.AddressesMatchNewerRevision | src/ccs_811/mod.rs:20-34 | the older revision's register constants equal the newer enumeration's addresses |
| LegacyDriver.StartModeIsEverySecondWithInterrupts | src/ccs_811/mod.rs:64 | the fixed byte 0b11100 is every-second mode with interrupts and thresholds enabled |
| LegacyDriver.NewStatus | src/ccs_811/mod.rs:91-99 | fails with `ErrorStatus` carrying the byte iff bit 0 is set |
| LegacyDriver.QueriesReadOneBit | src/ccs_811/mod.rs:101-107 | `is_ready` and `is_value` read bits 3 and 4 |
| LegacyDriver.ResultStatus | src/ccs_811/mod.rs:118-120 | byte 4 decoded by `Status::new`: `ErrorStatus(Status(byte 4))` iff its error bit is set, otherwise `Status(byte 4)` |
| LegacyDriver.Co2 | src/ccs_811/mod.rs:121-123 | eCO2 is bytes 0-1, big-endian |
| LegacyDriver.Tvoc | src/ccs_811/mod.rs:124-126 | TVOC is bytes 2-3, big-endian |
| LegacyDriver.MaskIsBit | src/ccs_811/mod.rs:129-136 | a cause's flag meets the byte iff the cause's bit is set |
| LegacyDriver.PresentSound | src/ccs_811/mod.rs:160-163 | every cause the filter keeps comes from the table and has its flag set in the byte |
| LegacyDriver.PresentOrdered | src/ccs_811/mod.rs:160-163 | the filter keeps the table's order |
| LegacyDriver.PresentComplete | src/ccs_811/mod.rs:160-163 | every table entry whose flag meets the byte is kept |
| LegacyDriver.ErrorsExact | src/ccs_811/mod.rs:151-166 | `ErrorId::new` lists exactly the causes whose bits are set, in bit order, each once |
| LegacyDriver.HasErrorIffCauseBits | src/ccs_811/mod.rs:172-174 | `has_error()` holds iff one of bits 0-5 is set |
| LegacyDriver.RevisionsAgreeOnCauses | src/ccs_811/mod.rs:151-166 | the two revisions report the same causes for every byte |
| LegacyDriver.RevisionsDisagreeOnHasError | src/ccs_811/mod.rs:172-174 | on byte 0 the older `has_error()` is false and the newer one true |
| LegacyDriver.ToCss811Error | src/ccs_811/error.rs:19-23 | a transport error becomes `I2cError` whose text is exactly `IoctlError("` + message + `")`: the prefix, the message at offset 12, and the closing `")` |
| LegacyDriver.Css811.Start | src/ccs_811/mod.rs:62-66 | an empty block write to APP_START, then (only if it succeeded) 0b11100 to MEAS_MODE; returns the first failure or success |
| LegacyDriver.Css811.ReadStatus | src/ccs_811/mod.rs:68-71 | one byte read of STATUS, decoded by `Status::new` |
| LegacyDriver.Css811.ReadResult | src/ccs_811/mod.rs:73-78 | one 6-byte block read of ALG_RESULT_DATA; the block keeps the six bytes in order |
| LegacyDriver.Css811.ReadErrorId | src/ccs_811/mod.rs:80-84 | one byte read of ERROR_ID; succeeds whenever the read does, with `ErrorId::new` of the byte |

## Left out

- Opening `/dev/i2c-N` and `i2c_slave` (the `I2C_SLAVE` ioctl) are left out. They happen before any modelled operation, and the file descriptor is a parameter here.
- The kernel behind the `I2C_SMBUS` ioctl is left out. It is replaced by the contract of `SmbusTransport.I2cDev.SmbusAccess`. That contract keeps the promise of the Linux I2C core that a block read returns at most the requested count and at most `I2C_SMBUS_BLOCK_MAX` (32) bytes, the bound the buffer is sized by (src/client/unix/i2c/mod.rs:44); the kernel refuses a larger count with EINVAL. Because of that bound, `SmbusTransport.CopiedOut` and `SmbusTransport.CopyOut` accept a count of at most 32, although the slice at src/client/unix/i2c/mod.rs:145-149 alone would also accept 33. With it, the slice and index panics in `i2c_smbus_read_i2c_block_data` cannot happen. A kernel that broke the promise would make the Rust code panic, and that is not modelled.
- SmbusTransport.WriteI2cBlockData: requires at most 33 values. With more, the Rust code indexes past the 34-byte buffer and panics, and the `len() as u8` truncation is only reachable on that path.
- The `unsafe`, `sealed` and `nix` macro plumbing of the ioctl, and the `u32` ioctl numbers, are left out. The model has no raw pointers.
- `Co2` and `Tvoc` are `f32` in the source, along with their `div`, `Add`, `to_string` and `AsRef`. The model keeps the exact integer read from the bus, and the validity ranges as integer predicates. Floating point is not modelled.
- Sleeping between rounds and the tokio `async` variant are left out. The wait is the injected `Policy.Pacer.Wait`, which records when it was called. Both variants of `resume_or_restart` are the same algorithm over that wait.
- `debug!` logging is left out.
- `Display`/`Error` implementations are left out, except where their text becomes an error message. There, Rust's debug escaping of characters inside the message is not modelled.
- `lib.rs` re-exports and features are left out. So are the example program, `src/client/unix/mod.rs`, the `no_std` configuration, and the construction of `Ccs811Error::DeviseError` and of the older `Css811Error::SomethingWrong` and `Css811Error::DeviseError`: nothing in the core builds them, so they are modelled as constructors of `StatusDecoder.Ccs811Error` and `LegacyDriver.Css811Error` that no operation produces.
- The older revision's transport module is not part of this model. Only its error type is. `LegacyDriver.LegacyBus` assumes that a successful read of `len` bytes yields exactly `len` bytes, which is what `Css811::result`'s indexing relies on.
- The other register contents (raw data, environment data, NTC, thresholds, baseline, versions, software reset) are left out. They have addresses, but no operation of the core reads or writes them.

## Findings

| source | as written | input that shows it | evidently intended | confidence | as-written member | corrected member |
|---|---|---|---|---|---|---|
| src/ccs811/error_id.rs:40-42 | `has_error()` is `!self.1.is_empty()` on a fixed array of six slots, so it is always true | error-id byte 0x00: all six slots are `None`, yet `has_error()` returns true | true iff some cause is present, as in the older revision (src/ccs_811/mod.rs:172-174) | not executed | ErrorIdDecoder.HasErrorOnZeroByte | ErrorIdDecoder.HasAnyErrorIffCauseBits |
