/**
 * The 36-byte Condor Pacific IMU frame and its field layout: little-endian
 * assembly of the 16- and 24-bit fields and the decoder that reads them at
 * fixed offsets (`IMU.parse_packet`).
 */
module Frame {

  /** One byte read from the serial link. */
  type Byte = b: int | 0 <= b < 256

  const PacketSize: nat := 36
  const StartByte: Byte := 0x24
  const EndByte: Byte := 0x23

  /** A block the synchroniser may accept: 36 bytes framed by the two sentinels. */
  predicate IsFrame(p: seq<Byte>)
  {
    |p| == PacketSize && p[0] == StartByte && p[PacketSize - 1] == EndByte
  }

  /** `lo + (hi << 8)`: an unsigned 16-bit little-endian field. */
  function LE16(lo: Byte, hi: Byte): (r: nat)
    ensures r < 0x1_0000
    ensures r % 0x100 == lo && r / 0x100 == hi
  {
    lo + hi * 0x100
  }

  /** `b0 + (b1 << 8) + (b2 << 16)`: an unsigned 24-bit little-endian field. */
  function LE24(b0: Byte, b1: Byte, b2: Byte): (r: nat)
    ensures r < 0x100_0000
    ensures r % 0x100 == b0 && (r / 0x100) % 0x100 == b1 && r / 0x1_0000 == b2
  {
    b0 + b1 * 0x100 + b2 * 0x1_0000
  }

  /** The integer fields of one frame, before any scaling. */
  datatype RawSample = RawSample(
    status: nat,
    gyroX: nat, gyroY: nat, gyroZ: nat,
    accX: nat, accY: nat, accZ: nat, accXHighG: nat,
    temperature: nat,
    swVersion: nat, counter: nat,
    crc: nat)

  /** Every field fits its width on the wire. */
  predicate InRange(r: RawSample)
  {
    r.status < 0x1_0000 &&
    r.gyroX < 0x100_0000 && r.gyroY < 0x100_0000 && r.gyroZ < 0x100_0000 &&
    r.accX < 0x100_0000 && r.accY < 0x100_0000 && r.accZ < 0x100_0000 &&
    r.accXHighG < 0x100_0000 &&
    r.temperature < 0x1_0000 && r.swVersion < 0x100 && r.counter < 0x100 &&
    r.crc < 0x1_0000
  }

  /** The field decoder: reads the fixed offsets of a 36-byte block. */
  function Decode(p: seq<Byte>): (r: RawSample)
    requires |p| == PacketSize
    ensures InRange(r)
  {
    RawSample(
      LE16(p[5], p[6]),
      LE24(p[8], p[9], p[10]), LE24(p[11], p[12], p[13]), LE24(p[14], p[15], p[16]),
      LE24(p[17], p[18], p[19]), LE24(p[20], p[21], p[22]), LE24(p[23], p[24], p[25]),
      LE24(p[26], p[27], p[28]),
      LE16(p[29], p[30]),
      p[31], p[32],
      LE16(p[33], p[34]))
  }

  /**
   * The sender's side of the wire format: a frame carrying the fields of r,
   * with `reserved` filling offsets 1-4 and 7.
   */
  function Encode(r: RawSample, reserved: seq<Byte>): (p: seq<Byte>)
    requires InRange(r) && |reserved| == 5
    ensures IsFrame(p)
  {
    [StartByte, reserved[0], reserved[1], reserved[2], reserved[3],
     r.status % 0x100, r.status / 0x100, reserved[4],
     r.gyroX % 0x100, (r.gyroX / 0x100) % 0x100, r.gyroX / 0x1_0000,
     r.gyroY % 0x100, (r.gyroY / 0x100) % 0x100, r.gyroY / 0x1_0000,
     r.gyroZ % 0x100, (r.gyroZ / 0x100) % 0x100, r.gyroZ / 0x1_0000,
     r.accX % 0x100, (r.accX / 0x100) % 0x100, r.accX / 0x1_0000,
     r.accY % 0x100, (r.accY / 0x100) % 0x100, r.accY / 0x1_0000,
     r.accZ % 0x100, (r.accZ / 0x100) % 0x100, r.accZ / 0x1_0000,
     r.accXHighG % 0x100, (r.accXHighG / 0x100) % 0x100, r.accXHighG / 0x1_0000,
     r.temperature % 0x100, r.temperature / 0x100,
     r.swVersion, r.counter,
     r.crc % 0x100, r.crc / 0x100,
     EndByte]
  }

  /** Splitting a 24-bit value into its three bytes and assembling them again gives the value back. */
  lemma LE24Split(v: nat)
    requires v < 0x100_0000
    ensures LE24(v % 0x100, (v / 0x100) % 0x100, v / 0x1_0000) == v
  {
  }

  /** Splitting a 16-bit value into its two bytes and assembling them again gives the value back. */
  lemma LE16Split(v: nat)
    requires v < 0x1_0000
    ensures LE16(v % 0x100, v / 0x100) == v
  {
  }

  /** Decoding a frame built from in-range fields gives those fields back, whatever the reserved bytes. */
  lemma DecodeEncode(r: RawSample, reserved: seq<Byte>)
    requires InRange(r) && |reserved| == 5
    ensures Decode(Encode(r, reserved)) == r
  {
    LE16Split(r.status);
    LE24Split(r.gyroX);
    LE24Split(r.gyroY);
    LE24Split(r.gyroZ);
    LE24Split(r.accX);
    LE24Split(r.accY);
    LE24Split(r.accZ);
    LE24Split(r.accXHighG);
    LE16Split(r.temperature);
    LE16Split(r.crc);
  }

  /**
   * Conversely, every frame is the encoding of its decoded fields together
   * with its reserved bytes (offsets 1-4 and 7): decoding loses nothing else.
   */
  lemma EncodeDecode(p: seq<Byte>)
    requires IsFrame(p)
    ensures Encode(Decode(p), [p[1], p[2], p[3], p[4], p[7]]) == p
  {
  }

  /** Bytes that the decoder reads: the status word and offsets 8 to 34. */
  predicate SameFields(p: seq<Byte>, q: seq<Byte>)
    requires |p| == PacketSize && |q| == PacketSize
  {
    p[5] == q[5] && p[6] == q[6] && p[8..35] == q[8..35]
  }

  /**
   * Offsets 0-4, 7 and 35 never reach a field, so two blocks that differ
   * only there decode alike; offsets 33-34 reach only the crc.
   */
  lemma DecodeIgnores(p: seq<Byte>, q: seq<Byte>)
    requires |p| == PacketSize && |q| == PacketSize
    ensures SameFields(p, q) ==> Decode(p) == Decode(q)
    ensures p[5..7] == q[5..7] && p[8..33] == q[8..33] ==>
              Decode(p).(crc := 0) == Decode(q).(crc := 0)
  {
    if p[8..35] == q[8..35] {
      assert forall i :: 8 <= i < 35 ==> p[i] == p[8..35][i - 8];
    }
    if p[5..7] == q[5..7] && p[8..33] == q[8..33] {
      assert p[5] == p[5..7][0] && p[6] == p[5..7][1];
      assert forall i :: 8 <= i < 33 ==> p[i] == p[8..33][i - 8];
    }
  }
}
