/** The raw sample readers `measure_i` and `measure_f`: one register select,
    one 14-byte burst read, and the decode of seven big-endian byte pairs into
    int16_t channels. */
module Measure {
  import opened CInt
  import opened Bus

  /** ACCEL_XOUT_H, the first of the fourteen output registers. */
  const OutputRegister: Byte := 0x3B

  const ChannelCount: nat := 7

  /** Two bytes per channel. */
  const BurstLength: nat := 2 * ChannelCount

  /** One reading in sensor units, in the order the device sends it. */
  datatype RawSample = RawSample(
    accelX: Int16, accelY: Int16, accelZ: Int16,
    temperature: Int16,
    gyroX: Int16, gyroY: Int16, gyroZ: Int16)
  {
    /** The channels as the `data_i` array holds them. */
    function Channels(): (c: seq<Int16>)
      ensures |c| == ChannelCount
    {
      [accelX, accelY, accelZ, temperature, gyroX, gyroY, gyroZ]
    }
  }

  /** What a reader returns: the transfers it put on the bus and the decoded
      sample. */
  datatype Reading = Reading(transfers: seq<Transfer>, raw: RawSample)

  /** The big-endian word of an octet pair, as an int16_t: the value whose
      16-bit pattern is hi followed by lo. */
  function Word(hi: Byte, lo: Byte): (w: Int16)
    ensures (w - (hi as int * 0x100 + lo)) % TwoTo16 == 0
  {
    Wrap16(hi as int * 0x100 + lo)
  }

  /** The driver's expression `(hi << 8) | lo`, with both octets read through
      an unsigned `char` and promoted to int, then stored into int16_t, is the
      big-endian word: `hi << 8` is hi * 256, which cannot overflow, and the
      OR only fills the low byte it left clear. */
  lemma WordIsShiftOr(hi: Byte, lo: Byte)
    ensures Wrap16(BitOr(hi as int * 0x100, lo)) == Word(hi, lo)
  {
    OrLowByteIsSum(hi as int * 0x100, lo);
  }

  /** The decode shared by both readers. */
  function Decode(buf: seq<Byte>): (s: RawSample)
    requires |buf| == BurstLength
    ensures forall i :: 0 <= i < ChannelCount ==>
      s.Channels()[i] == Wrap16(buf[2 * i] as int * 0x100 + buf[2 * i + 1])
  {
    RawSample(
      Word(buf[0], buf[1]), Word(buf[2], buf[3]), Word(buf[4], buf[5]),
      Word(buf[6], buf[7]),
      Word(buf[8], buf[9]), Word(buf[10], buf[11]), Word(buf[12], buf[13]))
  }

  /** The transfers of one read: select the output register, then burst-read
      two bytes for every channel. */
  const SampleTransfers: seq<Transfer> :=
    [Write(DeviceAddress, [OutputRegister]), Read(DeviceAddress, BurstLength)]

  /** `measure_i`: `burst` is what the 14-byte burst read delivered. */
  function MeasureI(burst: seq<Byte>): (r: Reading)
    requires |burst| == BurstLength
    ensures r.transfers == [Write(DeviceAddress, [0x3B]), Read(DeviceAddress, 2 * ChannelCount)]
    ensures forall i :: 0 <= i < ChannelCount ==>
      r.raw.Channels()[i] == Wrap16(burst[2 * i] as int * 0x100 + burst[2 * i + 1])
  {
    Reading(SampleTransfers, Decode(burst))
  }

  /** The integer stage of `measure_f`, before the floating-point conversion:
      it repeats the register select, the burst read and the seven decodes of
      `measure_i` into a local int16_t array. */
  function MeasureFRaw(burst: seq<Byte>): (r: Reading)
    requires |burst| == BurstLength
    ensures r.transfers == [Write(DeviceAddress, [0x3B]), Read(DeviceAddress, 2 * ChannelCount)]
    ensures forall i :: 0 <= i < ChannelCount ==>
      r.raw.Channels()[i] == Wrap16(burst[2 * i] as int * 0x100 + burst[2 * i + 1])
  {
    var local := RawSample(
      Word(burst[0], burst[1]), Word(burst[2], burst[3]), Word(burst[4], burst[5]),
      Word(burst[6], burst[7]),
      Word(burst[8], burst[9]), Word(burst[10], burst[11]), Word(burst[12], burst[13]));
    Reading(SampleTransfers, local)
  }

  /** Both readers put the same transfers on the bus and decode the same
      buffer to the same seven channels. */
  lemma MeasureFDecodesAsMeasureI(burst: seq<Byte>)
    requires |burst| == BurstLength
    ensures MeasureFRaw(burst) == MeasureI(burst)
  {
  }

  // ----- the inverse: encoding a sample the way the device sends it -----

  /** The high byte of an int16_t's 16-bit pattern. */
  function Hi(v: Int16): (b: Byte)
  {
    (v % TwoTo16) / 0x100
  }

  /** The low byte of an int16_t's 16-bit pattern. */
  function Lo(v: Int16): (b: Byte)
  {
    v % 0x100
  }

  /** A word decodes back from its two bytes. */
  lemma WordOfHiLo(v: Int16)
    ensures Word(Hi(v), Lo(v)) == v
  {
  }

  /** The two bytes come back from the word they make. */
  lemma HiLoOfWord(hi: Byte, lo: Byte)
    ensures Hi(Word(hi, lo)) == hi && Lo(Word(hi, lo)) == lo
  {
  }

  /** The fourteen bytes the device sends for a sample: each channel as a
      big-endian pair, channels in output-register order. */
  function Encode(s: RawSample): (buf: seq<Byte>)
    ensures |buf| == BurstLength
    ensures forall i :: 0 <= i < ChannelCount ==>
      buf[2 * i] == Hi(s.Channels()[i]) && buf[2 * i + 1] == Lo(s.Channels()[i])
  {
    [Hi(s.accelX), Lo(s.accelX), Hi(s.accelY), Lo(s.accelY), Hi(s.accelZ), Lo(s.accelZ),
     Hi(s.temperature), Lo(s.temperature),
     Hi(s.gyroX), Lo(s.gyroX), Hi(s.gyroY), Lo(s.gyroY), Hi(s.gyroZ), Lo(s.gyroZ)]
  }

  /** Any seven int16_t values, sent as the device sends them, decode to the
      same values in the same channels. */
  lemma {:induction false} DecodeEncode(s: RawSample)
    ensures Decode(Encode(s)) == s
  {
    WordOfHiLo(s.accelX);
    WordOfHiLo(s.accelY);
    WordOfHiLo(s.accelZ);
    WordOfHiLo(s.temperature);
    WordOfHiLo(s.gyroX);
    WordOfHiLo(s.gyroY);
    WordOfHiLo(s.gyroZ);
  }

  /** Decoding loses nothing: every 14-byte burst is the encoding of the
      sample it decodes to. */
  lemma {:induction false} EncodeDecode(buf: seq<Byte>)
    requires |buf| == BurstLength
    ensures Encode(Decode(buf)) == buf
  {
    var s := Decode(buf);
    forall i | 0 <= i < ChannelCount
      ensures Encode(s)[2 * i] == buf[2 * i] && Encode(s)[2 * i + 1] == buf[2 * i + 1]
    {
      HiLoOfWord(buf[2 * i], buf[2 * i + 1]);
      assert s.Channels()[i] == Word(buf[2 * i], buf[2 * i + 1]);
    }
    forall j | 0 <= j < BurstLength
      ensures Encode(s)[j] == buf[j]
    {
      var i := j / 2;
      assert j == 2 * i || j == 2 * i + 1;
    }
  }

  /** The burst 0x01, 0x02, ..., 0x0E decodes pairwise and in channel order:
      0x0102, 0x0304, ... */
  lemma DecodeCountingBurst()
    ensures Decode([1, 2, 3, 4, 5, 6, 7, 8, 9, 10, 11, 12, 13, 14]).Channels()
      == [258, 772, 1286, 1800, 2314, 2828, 3342]
  {
  }

  /** A high byte of 0x80 or more gives a negative channel: 0xFF 0xFE is -2. */
  lemma DecodeNegativeWord()
    ensures Word(0xFF, 0xFE) == -2 && Word(0x80, 0x00) == -0x8000
  {
  }

  // ----- the same expression where plain `char` is signed -----

  /** An octet read through a signed `char`. */
  function SignedChar(b: Byte): (c: int)
    ensures -0x80 <= c < 0x80
    ensures (c - b) % 0x100 == 0
  {
    if b < 0x80 then b else b - 0x100
  }

  /** `(hi << 8) | lo` as written, on a platform whose plain `char` is
      signed: each octet is sign-extended when it is promoted to int. For a
      high byte of 0x80 or more, `hi << 8` then shifts a negative int, which
      C++ before C++20 leaves undefined; the model gives it the C++20 meaning,
      the product hi * 256 taken modulo 2^32.
      A low byte below 0x80 is not sign-extended, so the OR adds it to the
      shifted high byte and the int16_t store drops the sign-extension bits:
      the result is the big-endian word. A low byte of 0x80 or more is
      sign-extended, and its copied sign bits overwrite the high byte: the
      result is the low byte alone, as a negative number. */
  function WordSignedChar(hi: Byte, lo: Byte): (w: Int16)
    ensures lo < 0x80 ==> w == Word(hi, lo)
    ensures lo >= 0x80 ==> w == lo - 0x100
  {
    if lo < 0x80 then
      OrLowByteIsSum(SignedChar(hi) * 0x100, lo);
      SignExtendedHighByte(hi, lo);
      Wrap16(BitOr(SignedChar(hi) * 0x100, SignedChar(lo)))
    else
      OrNegativeByteSwallows(SignedChar(hi) * 0x100, lo - 0x100);
      Wrap16(BitOr(SignedChar(hi) * 0x100, SignedChar(lo)))
  }

  /** Sign-extending the high byte changes the sum only by a multiple of 2^16,
      which the store into int16_t drops. */
  lemma SignExtendedHighByte(hi: Byte, lo: Byte)
    ensures Wrap16(SignedChar(hi) * 0x100 + lo) == Word(hi, lo)
  {
  }

  /** The word of a pair whose low byte is 0x80 or more is lo - 256 only when
      the high byte is 0xFF. */
  lemma WordWithHighLowByte(hi: Byte, lo: Byte)
    requires lo >= 0x80
    ensures Word(hi, lo) == lo - 0x100 <==> hi == 0xFF
  {
  }

  /** With a signed `char`, the expression is still right exactly when the low
      byte is below 0x80 or the high byte is 0xFF. */
  lemma SignedCharAgreement(hi: Byte, lo: Byte)
    ensures WordSignedChar(hi, lo) == Word(hi, lo) <==> lo < 0x80 || hi == 0xFF
  {
    if lo >= 0x80 {
      WordWithHighLowByte(hi, lo);
    }
  }

  /** The burst pair 0x01 0x80 means 384; with a signed `char` it reads as -128. */
  lemma SignedCharCounterexample()
    ensures Word(0x01, 0x80) == 0x180
    ensures WordSignedChar(0x01, 0x80) == -0x80
  {
  }
}
