/**
 * The 6-byte algorithm result block of the CCS811 (register 0x02):
 * CO2 high, CO2 low, TVOC high, TVOC low, status, raw data.
 * CO2 and TVOC are kept as integers: they come from a `u16`, so the
 * conversion to `f32` in the source is exact.
 */
module ResultsDecoder {
  import opened Common
  import opened StatusDecoder

  /** `AlgorithmResultsData([u8; 6])`. */
  datatype AlgorithmResultsData = AlgorithmResultsData(data: seq<byte>)

  predicate WellFormed(r: AlgorithmResultsData)
  {
    |r.data| == 6
  }

  /** `AlgorithmResultsData::new`: wraps the six bytes unchanged. */
  function NewResults(data: seq<byte>): (r: AlgorithmResultsData)
    requires |data| == 6
    ensures WellFormed(r)
    ensures forall i :: 0 <= i < 6 ==> r.data[i] == data[i]
  {
    AlgorithmResultsData(data)
  }

  /** `(hi as u16) << 8 | lo as u16`, widened to an integer. */
  function BigEndian16(hi: byte, lo: byte): (n: nat)
    ensures n == hi as int * 256 + lo as int
    ensures n < 0x1_0000
  {
    (((hi as bv16) << 8) | (lo as bv16)) as nat
  }

  /** CO2 in ppm from bytes 0 and 1. */
  function Co2(r: AlgorithmResultsData): (ppm: nat)
    requires WellFormed(r)
    ensures ppm == r.data[0] as int * 256 + r.data[1] as int && ppm <= 0xFFFF
  {
    BigEndian16(r.data[0], r.data[1])
  }

  /** TVOC in ppb from bytes 2 and 3. */
  function Tvoc(r: AlgorithmResultsData): (ppb: nat)
    requires WellFormed(r)
    ensures ppb == r.data[2] as int * 256 + r.data[3] as int && ppb <= 0xFFFF
  {
    BigEndian16(r.data[2], r.data[3])
  }

  /**
   * The embedded status, decoded from byte 4 alone. The newer source calls it
   * `Status::try_new`, a name the status type does not define; `Status::new`
   * is what it evidently means.
   */
  function ResultStatus(r: AlgorithmResultsData): (s: Result<Status, Ccs811Error>)
    requires WellFormed(r)
    ensures s.Err? <==> r.data[4] & 1 != 0
    ensures s.Err? ==> s.error == ErrorStatus(Status(r.data[4]))
    ensures s.Ok? ==> s.value == Status(r.data[4])
  {
    NewStatus(r.data[4])
  }

  /** `Co2::is_valid`: the plausible range 400..8192 ppm. */
  predicate Co2IsValid(ppm: int)
  {
    400 <= ppm <= 8192
  }

  /** `Tvoc::is_valid`: the plausible range 0..1187 ppb. */
  predicate TvocIsValid(ppb: int)
  {
    0 <= ppb <= 1187
  }

  /** The partner of the decoder: a 16-bit value written big-endian. */
  function EncodeBigEndian16(n: nat): (b: seq<byte>)
    requires n < 0x1_0000
    ensures |b| == 2
  {
    [(n / 256) as bv8, (n % 256) as bv8]
  }

  /** A block laid out as the device lays it out. */
  function EncodeResults(co2: nat, tvoc: nat, status: byte, raw: byte): (r: AlgorithmResultsData)
    requires co2 < 0x1_0000 && tvoc < 0x1_0000
    ensures WellFormed(r)
  {
    AlgorithmResultsData(EncodeBigEndian16(co2) + EncodeBigEndian16(tvoc) + [status, raw])
  }

  /** Encoding `hi * 256 + lo` gives back `hi` and `lo` as bytes. */
  lemma EncodeSplit(hi: int, lo: int)
    requires 0 <= hi < 256 && 0 <= lo < 256
    ensures EncodeBigEndian16(hi * 256 + lo) == [hi as byte, lo as byte]
  {
    assert (hi * 256 + lo) / 256 == hi && (hi * 256 + lo) % 256 == lo;
  }

  /** Decoding the big-endian encoding of `n` gives back `n`. */
  lemma DecodeEncode16(n: nat)
    requires n < 0x1_0000
    ensures var b := EncodeBigEndian16(n); BigEndian16(b[0], b[1]) == n
  {
    ByteRoundTrip(n / 256);
    ByteRoundTrip(n % 256);
  }

  /** Decoding what was encoded gives back every field. */
  lemma DecodeEncode(co2: nat, tvoc: nat, status: byte, raw: byte)
    requires co2 < 0x1_0000 && tvoc < 0x1_0000
    ensures var r := EncodeResults(co2, tvoc, status, raw);
      Co2(r) == co2 && Tvoc(r) == tvoc && r.data[4] == status && r.data[5] == raw
  {
    DecodeEncode16(co2);
    DecodeEncode16(tvoc);
  }

  /** Encoding the big-endian value of two bytes gives back the two bytes. */
  lemma EncodeDecode16(hi: byte, lo: byte)
    ensures EncodeBigEndian16(BigEndian16(hi, lo)) == [hi, lo]
  {
    EncodeSplit(hi as int, lo as int);
    ValueRoundTrip(hi);
    ValueRoundTrip(lo);
  }

  /** Encoding what was decoded gives back the block. */
  lemma EncodeDecode(r: AlgorithmResultsData)
    requires WellFormed(r)
    ensures EncodeResults(Co2(r), Tvoc(r), r.data[4], r.data[5]) == r
  {
    EncodeDecode16(r.data[0], r.data[1]);
    EncodeDecode16(r.data[2], r.data[3]);
    assert r.data == [r.data[0], r.data[1]] + [r.data[2], r.data[3]] + [r.data[4], r.data[5]];
  }

  /** `[0x01, 0x90, 0, 0, 0, 0]`: CO2 400 ppm, TVOC 0 ppb, both plausible, status fine. */
  lemma Example400ppm()
    ensures var r := NewResults([0x01, 0x90, 0, 0, 0, 0]);
      Co2(r) == 400 && Tvoc(r) == 0 && Co2IsValid(Co2(r)) && TvocIsValid(Tvoc(r)) &&
      ResultStatus(r).Ok?
  {
  }

  /** Byte 5 (raw sensor data) influences no accessor. */
  lemma RawByteIgnored(r: AlgorithmResultsData, b: byte)
    requires WellFormed(r)
    ensures var r' := AlgorithmResultsData(r.data[5 := b]);
      Co2(r') == Co2(r) && Tvoc(r') == Tvoc(r) && ResultStatus(r') == ResultStatus(r)
  {
  }

  /** The status byte influences neither quantity: CO2 and TVOC are decoded regardless. */
  lemma QuantitiesIgnoreStatus(r: AlgorithmResultsData, b: byte)
    requires WellFormed(r)
    ensures var r' := AlgorithmResultsData(r.data[4 := b]);
      Co2(r') == Co2(r) && Tvoc(r') == Tvoc(r)
  {
  }

  /** An implausible CO2 reading still decodes; only the predicate flags it. */
  lemma Co2ValidInBytes(r: AlgorithmResultsData)
    requires WellFormed(r)
    ensures Co2IsValid(Co2(r)) <==>
      (r.data[0] == 0x01 && r.data[1] >= 0x90) ||
      (0x02 <= r.data[0] < 0x20) ||
      (r.data[0] == 0x20 && r.data[1] == 0)
  {
  }

  /** 0..1187 ppb is 0x0000..0x04A3 over bytes 2 and 3. */
  lemma TvocValidInBytes(r: AlgorithmResultsData)
    requires WellFormed(r)
    ensures TvocIsValid(Tvoc(r)) <==>
      r.data[2] < 0x04 || (r.data[2] == 0x04 && r.data[3] <= 0xA3)
  {
  }
}
