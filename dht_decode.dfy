/**
 * The pure half of dht_read_float_data: turning the 40 measured high-pulse
 * durations into the 5-byte frame, the additive checksum, and the DHT11 and
 * DHT22 unit conversions. Readings are exact integers in tenths of a unit
 * (tenths of %RH and tenths of a degree Celsius) instead of floats.
 */
module DhtDecode {
  import opened Esp

  /** dht_type_t. A C enum can carry any int; every value other than
      DHT_TYPE_DHT11 is decoded as a DHT22. */
  type DhtType = int
  const DHT_TYPE_DHT11: DhtType := 0
  const DHT_TYPE_DHT22: DhtType := 1

  const FRAME_BYTES: nat := 5
  const FRAME_BITS: nat := 40
  /** A high pulse longer than this many timer units is a 1 bit. */
  const BIT_THRESHOLD: nat := 50

  predicate IsOneBit(duration: nat) {
    duration > BIT_THRESHOLD
  }

  /** The mask `1 << (7 - j)`: bit j of a byte, most significant first. */
  function BitMask(j: nat): (m: bv8)
    requires j < 8
    ensures m == (1 as bv8) << (7 - j)
  {
    match j
    case 0 => 0x80 case 1 => 0x40 case 2 => 0x20 case 3 => 0x10
    case 4 => 0x08 case 5 => 0x04 case 6 => 0x02 case _ => 0x01
  }

  predicate BitSet(b: bv8, j: nat)
    requires j < 8
  {
    b & BitMask(j) != 0
  }

  /** The unsigned value of a byte, read off its eight bits. This is
      `b as int` (see ValueIsUnsigned), and ToByte below is `x as bv8`;
      they are spelt out bit by bit only to keep the proofs cheap. */
  function Value(b: bv8): (v: int)
    ensures 0 <= v < 256
  {
    (if b & 0x80 != 0 then 128 else 0) + (if b & 0x40 != 0 then 64 else 0)
    + (if b & 0x20 != 0 then 32 else 0) + (if b & 0x10 != 0 then 16 else 0)
    + (if b & 0x08 != 0 then 8 else 0) + (if b & 0x04 != 0 then 4 else 0)
    + (if b & 0x02 != 0 then 2 else 0) + (if b & 0x01 != 0 then 1 else 0)
  }

  /** Value is the usual unsigned reading of a byte. */
  lemma ValueIsUnsigned(b: bv8)
    ensures Value(b) == b as int
  {
  }

  lemma ValueSucc(b: bv8)
    requires b != 0xFF
    ensures Value(b + 1) == Value(b) + 1
  {
  }

  /** The byte whose value is x. */
  function ToByte(x: int): (b: bv8)
    requires 0 <= x < 256
    ensures Value(b) == x
  {
    if x == 0 then 0
    else
      ValueSucc(ToByte(x - 1));
      ToByte(x - 1) + 1
  }

  /** A uint8_t once C has promoted it to int for arithmetic. */
  type Byte = x: int | 0 <= x < 256

  /** The five bytes of one transmission, data[0] .. data[4]: humidity high
      and low, temperature high and low, checksum. */
  datatype Frame = Frame(b0: Byte, b1: Byte, b2: Byte, b3: Byte, b4: Byte)
  {
    /** data[i] */
    function At(i: nat): Byte
      requires i < FRAME_BYTES
    {
      if i == 0 then b0 else if i == 1 then b1 else if i == 2 then b2 else if i == 3 then b3 else b4
    }
  }

  /** Byte i after its first j bits have been OR-ed into a zeroed byte. */
  function PackPrefix(ds: seq<nat>, i: nat, j: nat): bv8
    requires |ds| == FRAME_BITS && i < FRAME_BYTES && j <= 8
  {
    if j == 0 then 0
    else PackPrefix(ds, i, j - 1) | (if IsOneBit(ds[8 * i + j - 1]) then BitMask(j - 1) else 0)
  }

  lemma PackPrefixStep(ds: seq<nat>, i: nat, j: nat)
    requires |ds| == FRAME_BITS && i < FRAME_BYTES && j < 8
    ensures IsOneBit(ds[8 * i + j]) ==> PackPrefix(ds, i, j + 1) == PackPrefix(ds, i, j) | BitMask(j)
    ensures !IsOneBit(ds[8 * i + j]) ==> PackPrefix(ds, i, j + 1) == PackPrefix(ds, i, j)
  {
  }

  /** The frame the 40 durations make, byte i holding durations 8i .. 8i+7. */
  function Pack(ds: seq<nat>): Frame
    requires |ds| == FRAME_BITS
  {
    Frame(Value(PackPrefix(ds, 0, 8)), Value(PackPrefix(ds, 1, 8)), Value(PackPrefix(ds, 2, 8)),
          Value(PackPrefix(ds, 3, 8)), Value(PackPrefix(ds, 4, 8)))
  }

  lemma MaskOverlap(a: nat, b: nat)
    requires a < 8 && b < 8
    ensures BitMask(a) & BitMask(b) != 0 <==> a == b
  {
  }

  /** The bits of a partly packed byte are the first j bits of its durations. */
  lemma {:induction false} PackPrefixBits(ds: seq<nat>, i: nat, j: nat, b: nat)
    requires |ds| == FRAME_BITS && i < FRAME_BYTES && j <= 8 && b < 8
    ensures BitSet(PackPrefix(ds, i, j), b) <==> b < j && IsOneBit(ds[8 * i + b])
  {
    if j > 0 {
      PackPrefixBits(ds, i, j - 1, b);
      MaskOverlap(j - 1, b);
      var x := PackPrefix(ds, i, j - 1);
      var y: bv8 := if IsOneBit(ds[8 * i + j - 1]) then BitMask(j - 1) else 0;
      assert (x | y) & BitMask(b) == (x & BitMask(b)) | (y & BitMask(b));
    }
  }

  /** The buffer bytes start at zero and are only OR-ed into, so a bit once
      set stays set through the rest of the byte. */
  lemma PackPrefixKeepsBits(ds: seq<nat>, i: nat, j: nat, b: nat)
    requires |ds| == FRAME_BITS && i < FRAME_BYTES && j < 8 && b < 8
    requires BitSet(PackPrefix(ds, i, j), b)
    ensures BitSet(PackPrefix(ds, i, j + 1), b)
  {
    PackPrefixBits(ds, i, j, b);
    PackPrefixBits(ds, i, j + 1, b);
  }

  /** Bit j of data[i] is set iff the (8i+j)-th duration is over the threshold. */
  lemma PackBits(ds: seq<nat>, i: nat, j: nat)
    requires |ds| == FRAME_BITS && i < FRAME_BYTES && j < 8
    ensures BitSet(PackPrefix(ds, i, 8), j) <==> IsOneBit(ds[8 * i + j])
  {
    PackPrefixBits(ds, i, 8, j);
  }

  /** A duration per bit that reproduces `f` when packed: 1 bits last one
      unit longer than the threshold, 0 bits last zero units. */
  function Durations(f: Frame): (ds: seq<nat>)
    ensures |ds| == FRAME_BITS
  {
    seq(FRAME_BITS, k requires 0 <= k < FRAME_BITS =>
      if BitSet(ToByte(f.At(k / 8)), k % 8) then BIT_THRESHOLD + 1 else 0)
  }

  /** Two bytes with the same eight bits are equal. */
  lemma ByteFromBits(x: bv8, y: bv8)
    requires BitSet(x, 0) == BitSet(y, 0) && BitSet(x, 1) == BitSet(y, 1)
    requires BitSet(x, 2) == BitSet(y, 2) && BitSet(x, 3) == BitSet(y, 3)
    requires BitSet(x, 4) == BitSet(y, 4) && BitSet(x, 5) == BitSet(y, 5)
    requires BitSet(x, 6) == BitSet(y, 6) && BitSet(x, 7) == BitSet(y, 7)
    ensures x == y
  {
  }

  lemma DurationsAt(f: Frame, i: nat, j: nat)
    requires i < FRAME_BYTES && j < 8
    ensures IsOneBit(Durations(f)[8 * i + j]) <==> BitSet(ToByte(f.At(i)), j)
  {
    assert (8 * i + j) / 8 == i && (8 * i + j) % 8 == j;
  }

  lemma PackDurationsAt(f: Frame, i: nat)
    requires i < FRAME_BYTES
    ensures Pack(Durations(f)).At(i) == f.At(i)
  {
    var ds := Durations(f);
    var byte := ToByte(f.At(i));
    forall j | 0 <= j < 8
      ensures BitSet(PackPrefix(ds, i, 8), j) == BitSet(byte, j)
    {
      PackBits(ds, i, j);
      DurationsAt(f, i, j);
    }
    ByteFromBits(PackPrefix(ds, i, 8), byte);
  }

  /** Packing is onto: every frame is what some durations pack to. */
  lemma PackDurations(f: Frame)
    ensures Pack(Durations(f)) == f
  {
    PackDurationsAt(f, 0);
    PackDurationsAt(f, 1);
    PackDurationsAt(f, 2);
    PackDurationsAt(f, 3);
    PackDurationsAt(f, 4);
  }

  /** `b & 0x7F` on the promoted byte keeps its value modulo 128. */
  lemma LowSevenBits(b: bv8)
    ensures Value(b & 0x7F) == Value(b) % 128
  {
    assert Value(b & 0x7F) + (if b & 0x80 != 0 then 128 else 0) == Value(b);
  }

  /** `b & 0x80` on the promoted byte is non-zero exactly from 128 on. */
  lemma TopBit(b: bv8)
    ensures (b & 0x80 != 0) <==> Value(b) >= 128
  {
  }

  /** `uint8_t checksum = data[0] + data[1] + data[2] + data[3]`: the bytes
      are added as ints and the assignment keeps the sum modulo 256. */
  function Checksum(f: Frame): (c: Byte)
    ensures (f.b0 + f.b1 + f.b2 + f.b3 - c) % 256 == 0
  {
    (f.b0 + f.b1 + f.b2 + f.b3) % 256
  }

  /** A decoded reading, in tenths of %RH and tenths of a degree Celsius. */
  datatype Reading = Reading(humidity: int, temperature: int)

  /** The DHT11 conversion: whole units in bytes 0 and 2, tenths in bytes 1
      and 3 (a tenths byte over 9 is added all the same). */
  function ConvertDht11(f: Frame): (r: Reading)
    ensures 0 <= r.humidity <= 2805 && 0 <= r.temperature <= 2805
    ensures f.b1 < 10 ==> r.humidity / 10 == f.b0 && r.humidity % 10 == f.b1
    ensures f.b3 < 10 ==> r.temperature / 10 == f.b2 && r.temperature % 10 == f.b3
  {
    Reading(10 * f.b0 + f.b1, 10 * f.b2 + f.b3)
  }

  /** `(hi << 8) | lo` on promoted bytes: the shift leaves the low eight bits
      clear, so the OR adds the low byte. */
  function Word(hi: Byte, lo: Byte): (w: int)
    ensures 0 <= w < 65536
    ensures w / 256 == hi && w % 256 == lo
  {
    hi * 256 + lo
  }

  /** The DHT22 conversion: 16-bit big-endian humidity, and a 15-bit
      temperature magnitude (`data[2] & 0x7F`, see LowSevenBits) negated when
      the top bit of byte 2 is set (`data[2] & 0x80`, see TopBit). */
  function ConvertDht22(f: Frame): (r: Reading)
    ensures 0 <= r.humidity <= 65535 && -32767 <= r.temperature <= 32767
    ensures r.humidity / 256 == f.b0 && r.humidity % 256 == f.b1
    ensures var magnitude := if r.temperature < 0 then -r.temperature else r.temperature;
            magnitude / 256 == f.b2 % 128 && magnitude % 256 == f.b3
    ensures r.temperature < 0 ==> f.b2 >= 128
    ensures f.b2 >= 128 && r.temperature >= 0 ==> r.temperature == 0
  {
    var magnitude := Word(f.b2 % 128, f.b3);
    Reading(Word(f.b0, f.b1), if f.b2 >= 128 then -magnitude else magnitude)
  }

  /** The type dispatch: DHT_TYPE_DHT11 reads whole units and tenths, any
      other type code reads the DHT22 16-bit words. */
  function Convert(t: DhtType, f: Frame): (r: Reading)
    ensures t == DHT_TYPE_DHT11 ==> r.humidity == 10 * f.b0 + f.b1 && r.temperature == 10 * f.b2 + f.b3
    ensures t != DHT_TYPE_DHT11 ==> r.humidity == Word(f.b0, f.b1)
    ensures t != DHT_TYPE_DHT11 ==> r.temperature == if f.b2 >= 128 then -Word(f.b2 % 128, f.b3) else Word(f.b2 % 128, f.b3)
  {
    if t == DHT_TYPE_DHT11 then ConvertDht11(f) else ConvertDht22(f)
  }

  /** The checksum test and the conversion that follows it. */
  function Decode(t: DhtType, f: Frame): (r: Result<Reading>)
    ensures r.Failure? <==> Checksum(f) != f.b4
    ensures r.Failure? ==> r.error == ErrInvalidCrc
    ensures r.Success? ==> r.value == Convert(t, f)
  {
    if Checksum(f) != f.b4 then Failure(ErrInvalidCrc)
    else Success(Convert(t, f))
  }

  /** The frame whose first four bytes are given, with its checksum. */
  function Sealed(b0: Byte, b1: Byte, b2: Byte, b3: Byte): (f: Frame)
    ensures f.b0 == b0 && f.b1 == b1 && f.b2 == b2 && f.b3 == b3
    ensures f.b4 == Checksum(f)
  {
    Frame(b0, b1, b2, b3, (b0 + b1 + b2 + b3) % 256)
  }

  /** The frame a DHT22 sends for a reading: big-endian humidity, sign and
      magnitude temperature, checksum. */
  function EncodeDht22(r: Reading): Frame
    requires 0 <= r.humidity <= 65535 && -32767 <= r.temperature <= 32767
  {
    var magnitude := if r.temperature < 0 then -r.temperature else r.temperature;
    Sealed(r.humidity / 256, r.humidity % 256,
           magnitude / 256 + (if r.temperature < 0 then 128 else 0), magnitude % 256)
  }

  /** Every reading a DHT22 can express decodes back from its frame, for any
      type code other than DHT_TYPE_DHT11. */
  lemma DecodeEncodeDht22(t: DhtType, r: Reading)
    requires t != DHT_TYPE_DHT11
    requires 0 <= r.humidity <= 65535 && -32767 <= r.temperature <= 32767
    ensures Decode(t, EncodeDht22(r)) == Success(r)
  {
    var negative := r.temperature < 0;
    var magnitude := if negative then -r.temperature else r.temperature;
    var h, m := r.humidity, magnitude;
    assert h == (h / 256) * 256 + h % 256;
    assert m == (m / 256) * 256 + m % 256;
    assert m / 256 < 128;
    var f := EncodeDht22(r);
    assert f.b0 == h / 256 && f.b1 == h % 256 && f.b3 == m % 256;
    assert f.b2 == m / 256 + (if negative then 128 else 0);
    assert f.b2 % 128 == m / 256 && (f.b2 >= 128 <==> negative);
    assert Checksum(f) == f.b4;
    assert ConvertDht22(f) == r;
  }

  /** The frame a DHT11 sends, whole units first and tenths second. */
  function EncodeDht11(r: Reading): Frame
    requires 0 <= r.humidity <= 2559 && 0 <= r.temperature <= 2559
  {
    Sealed(r.humidity / 10, r.humidity % 10, r.temperature / 10, r.temperature % 10)
  }

  /** Every DHT11 reading with whole parts that fit a byte decodes back. */
  lemma DecodeEncodeDht11(r: Reading)
    requires 0 <= r.humidity <= 2559 && 0 <= r.temperature <= 2559
    ensures Decode(DHT_TYPE_DHT11, EncodeDht11(r)) == Success(r)
  {
    var h, t := r.humidity, r.temperature;
    assert h == (h / 10) * 10 + h % 10;
    assert t == (t / 10) * 10 + t % 10;
    var f := EncodeDht11(r);
    assert f.b0 == h / 10 && f.b1 == h % 10 && f.b2 == t / 10 && f.b3 == t % 10;
    assert Checksum(f) == f.b4;
    assert ConvertDht11(f) == r;
  }

  /** A frame whose last byte is not the checksum never decodes. */
  lemma CorruptChecksumRejected(t: DhtType, f: Frame, bad: Byte)
    requires bad != Checksum(f)
    ensures Decode(t, f.(b4 := bad)) == Failure(ErrInvalidCrc)
  {
  }

  /** DHT11 frame 25, 0, 26, 0, 51: 25.0 %RH and 26.0 degrees. */
  lemma Dht11Example()
    ensures Decode(DHT_TYPE_DHT11, Frame(25, 0, 26, 0, 51)) == Success(Reading(250, 260))
  {
  }

  /** DHT22 frame 02 8C 01 11 A0: 65.2 %RH and 27.3 degrees; ending the same
      frame in 0x9E fails the checksum, because the first four bytes add up
      to 0xA0. */
  lemma Dht22Example()
    ensures Decode(DHT_TYPE_DHT22, Frame(0x02, 0x8C, 0x01, 0x11, 0xA0)) == Success(Reading(652, 273))
    ensures Decode(DHT_TYPE_DHT22, Frame(0x02, 0x8C, 0x01, 0x11, 0x9E)) == Failure(ErrInvalidCrc)
  {
  }

  /** Sign bit set: 01 F4 80 65 is 50.0 %RH and minus 10.1 degrees. */
  lemma Dht22NegativeExample()
    ensures Decode(DHT_TYPE_DHT22, Frame(0x01, 0xF4, 0x80, 0x65, 0xDA)) == Success(Reading(500, -101))
  {
  }
}
