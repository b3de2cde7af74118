/**
 * The IMU driver object: its serial link (a byte stream and a read index),
 * its status holder and the sensor fields that `get` fills in place, first
 * with the raw integers (`parse_packet`) and then with their scaled values
 * (`sensor_values_adaptions`).
 */
module Driver {
  import opened Frame
  import opened Status
  import opened Scale
  import opened Sync

  /** What a Python attribute of the driver holds: not yet assigned, an int, or a float. */
  datatype Number = Missing | Int(i: int) | Float(r: real)

  /** The eleven sensor attributes of the driver, as a value. */
  datatype Readings = Readings(
    gyroAxisX: Number, gyroAxisY: Number, gyroAxisZ: Number,
    accelerometerAxisX: Number, accelerometerAxisY: Number, accelerometerAxisZ: Number,
    accelerometerAxisXHighG: Number,
    temperature: Number,
    swVersion: Number, counter: Number, crc: Number)

  /** The attributes right after `parse_packet`: every field an int. */
  function Parsed(raw: RawSample): (r: Readings)
    ensures Unscaled(r)
  {
    Readings(Int(raw.gyroX), Int(raw.gyroY), Int(raw.gyroZ),
             Int(raw.accX), Int(raw.accY), Int(raw.accZ), Int(raw.accXHighG),
             Int(raw.temperature),
             Int(raw.swVersion), Int(raw.counter), Int(raw.crc))
  }

  /** The attributes `sensor_values_adaptions` converts hold non-negative ints. */
  predicate Unscaled(f: Readings)
  {
    f.gyroAxisX.Int? && f.gyroAxisX.i >= 0 &&
    f.gyroAxisY.Int? && f.gyroAxisY.i >= 0 &&
    f.gyroAxisZ.Int? && f.gyroAxisZ.i >= 0 &&
    f.accelerometerAxisX.Int? && f.accelerometerAxisX.i >= 0 &&
    f.accelerometerAxisY.Int? && f.accelerometerAxisY.i >= 0 &&
    f.accelerometerAxisZ.Int? && f.accelerometerAxisZ.i >= 0 &&
    f.accelerometerAxisXHighG.Int? && f.accelerometerAxisXHighG.i >= 0 &&
    f.temperature.Int? && f.temperature.i >= 0
  }

  /**
   * The attributes after `sensor_values_adaptions`: gyro axes over 2^12,
   * accelerometer channels over 2^15 with 1 subtracted from z, temperature
   * over 10; version, counter and crc untouched.
   */
  function Adapted(f: Readings): (r: Readings)
    requires Unscaled(f)
    ensures r.swVersion == f.swVersion && r.counter == f.counter && r.crc == f.crc
    ensures r.gyroAxisX.Float? && r.gyroAxisY.Float? && r.gyroAxisZ.Float? &&
            r.accelerometerAxisX.Float? && r.accelerometerAxisY.Float? &&
            r.accelerometerAxisZ.Float? && r.accelerometerAxisXHighG.Float? &&
            r.temperature.Float?
  {
    f.(gyroAxisX := Float(ValuesAdapt(f.gyroAxisX.i, GyroFactor)),
       gyroAxisY := Float(ValuesAdapt(f.gyroAxisY.i, GyroFactor)),
       gyroAxisZ := Float(ValuesAdapt(f.gyroAxisZ.i, GyroFactor)),
       accelerometerAxisX := Float(ValuesAdapt(f.accelerometerAxisX.i, AccelerationFactor)),
       accelerometerAxisY := Float(ValuesAdapt(f.accelerometerAxisY.i, AccelerationFactor)),
       accelerometerAxisZ := Float(ValuesAdapt(f.accelerometerAxisZ.i, AccelerationFactor) - 1.0),
       accelerometerAxisXHighG := Float(ValuesAdapt(f.accelerometerAxisXHighG.i, AccelerationFactor)),
       temperature := Float(f.temperature.i as real / TemperatureFactor as real))
  }

  /** What one accepted frame leaves in the sensor attributes. */
  function FrameReadings(frame: seq<Byte>): Readings
    requires |frame| == PacketSize
  {
    Adapted(Parsed(Decode(frame)))
  }

  /**
   * The readings of a frame, field by field in terms of its bytes: each
   * gyro and accelerometer channel is the two's-complement reading of its
   * three little-endian bytes over its factor, accelerometer z less one,
   * temperature the unsigned 16-bit field over ten, version and counter
   * single bytes, crc the unsigned 16-bit field at 33-34.
   */
  lemma FrameReadingsFields(p: seq<Byte>)
    requires |p| == PacketSize
    ensures var f := FrameReadings(p);
      f.gyroAxisX == Float(Signed24(LE24(p[8], p[9], p[10])) as real / 4096.0) &&
      f.gyroAxisY == Float(Signed24(LE24(p[11], p[12], p[13])) as real / 4096.0) &&
      f.gyroAxisZ == Float(Signed24(LE24(p[14], p[15], p[16])) as real / 4096.0) &&
      f.accelerometerAxisX == Float(Signed24(LE24(p[17], p[18], p[19])) as real / 32768.0) &&
      f.accelerometerAxisY == Float(Signed24(LE24(p[20], p[21], p[22])) as real / 32768.0) &&
      f.accelerometerAxisZ == Float(Signed24(LE24(p[23], p[24], p[25])) as real / 32768.0 - 1.0) &&
      f.accelerometerAxisXHighG == Float(Signed24(LE24(p[26], p[27], p[28])) as real / 32768.0) &&
      f.temperature == Float(LE16(p[29], p[30]) as real / 10.0) &&
      f.swVersion == Int(p[31]) && f.counter == Int(p[32]) &&
      f.crc == Int(LE16(p[33], p[34]))
  {
  }

  /**
   * The range of each reading: a 24-bit two's-complement channel spans
   * [-2^23, 2^23), so the gyro axes lie in [-2048, 2048) deg/s, the
   * accelerometer channels in [-256, 256) g (z shifted down by one) and the
   * temperature in [0, 6553.5].
   */
  lemma FrameReadingsRange(p: seq<Byte>)
    requires |p| == PacketSize
    ensures var f := FrameReadings(p);
      -2048.0 <= f.gyroAxisX.r < 2048.0 && -2048.0 <= f.gyroAxisY.r < 2048.0 &&
      -2048.0 <= f.gyroAxisZ.r < 2048.0 &&
      -256.0 <= f.accelerometerAxisX.r < 256.0 && -256.0 <= f.accelerometerAxisY.r < 256.0 &&
      -257.0 <= f.accelerometerAxisZ.r < 255.0 && -256.0 <= f.accelerometerAxisXHighG.r < 256.0 &&
      0.0 <= f.temperature.r <= 6553.5
  {
  }

  /**
   * Offsets 0-4, 7 and 35 never reach a reading, the status word (5-6)
   * reaches only the status holder, and the crc (33-34) reaches only the crc
   * attribute: two blocks that agree on offsets 8-32 leave the same sensor
   * values, version and counter.
   */
  lemma FrameReadingsIgnore(p: seq<Byte>, q: seq<Byte>)
    requires |p| == PacketSize && |q| == PacketSize
    requires p[8..33] == q[8..33]
    ensures FrameReadings(p).(crc := Missing) == FrameReadings(q).(crc := Missing)
  {
    assert forall i :: 8 <= i < 33 ==> p[i] == p[8..33][i - 8];
    var a, b := Decode(p), Decode(q);
    assert a.(status := 0, crc := 0) == b.(status := 0, crc := 0);
    assert Parsed(a).(crc := Missing) == Parsed(b).(crc := Missing);
  }

  /**
   * Worked accelerometer-z values, bytes in wire order: 00 80 00 is 0x8000,
   * 1 g before the offset and 0 g after it; 00 80 FF is -0x8000, which reads
   * -2 g; 00 00 80 is 0x800000, the most negative field, -256 g before the
   * offset.
   */
  lemma WorkedAccelerometerZ(p: seq<Byte>)
    requires |p| == PacketSize
    ensures p[23] == 0x00 && p[24] == 0x80 && p[25] == 0x00 ==> FrameReadings(p).accelerometerAxisZ == Float(0.0)
    ensures p[23] == 0x00 && p[24] == 0x80 && p[25] == 0xFF ==> FrameReadings(p).accelerometerAxisZ == Float(-2.0)
    ensures p[23] == 0x00 && p[24] == 0x00 && p[25] == 0x80 ==> FrameReadings(p).accelerometerAxisZ == Float(-257.0)
  {
    var v := Decode(p).accZ;
    assert FrameReadings(p).accelerometerAxisZ == Float(ValuesAdapt(v, AccelerationFactor) - 1.0);
    ScaledAccelerations();
    if p[23] == 0x00 && p[24] == 0x80 && p[25] == 0x00 {
      assert v == 0x8000;
    } else if p[23] == 0x00 && p[24] == 0x80 && p[25] == 0xFF {
      assert v == 0xFF_8000;
    } else if p[23] == 0x00 && p[24] == 0x00 && p[25] == 0x80 {
      assert v == 0x80_0000;
    }
  }

  /** All-zero gyro bytes read 0 deg/s, axis by axis. */
  lemma WorkedGyroZero(p: seq<Byte>)
    requires |p| == PacketSize
    ensures p[8] == p[9] == p[10] == 0 ==> FrameReadings(p).gyroAxisX == Float(0.0)
    ensures p[11] == p[12] == p[13] == 0 ==> FrameReadings(p).gyroAxisY == Float(0.0)
    ensures p[14] == p[15] == p[16] == 0 ==> FrameReadings(p).gyroAxisZ == Float(0.0)
  {
    ZeroReadsZero(GyroFactor);
  }

  /** The driver object. */
  class Imu {
    /** True for the legacy driver, which builds a fresh status holder for every frame. */
    const freshStatusPerFrame: bool
    /** The serial link: every byte it delivers, and how many have been read. */
    var stream: seq<Byte>
    var pos: nat
    var mainStatus: MainStatus
    var gyroAxisX: Number
    var gyroAxisY: Number
    var gyroAxisZ: Number
    var accelerometerAxisX: Number
    var accelerometerAxisY: Number
    var accelerometerAxisZ: Number
    var accelerometerAxisXHighG: Number
    var temperature: Number
    var swVersion: Number
    var counter: Number
    var crc: Number

    predicate Valid()
      reads this
    {
      pos <= |stream|
    }

    /** The sensor attributes as a value. */
    function View(): Readings
      reads this
    {
      Readings(gyroAxisX, gyroAxisY, gyroAxisZ,
               accelerometerAxisX, accelerometerAxisY, accelerometerAxisZ,
               accelerometerAxisXHighG, temperature, swVersion, counter, crc)
    }

    /**
     * `IMU(com_port, baudrate)` of the current driver: a status holder
     * decoded from 0 and no sensor attribute yet.
     */
    constructor Open(stream: seq<Byte>)
      ensures Valid() && this.stream == stream && pos == 0 && !freshStatusPerFrame
      ensures fresh(mainStatus) && mainStatus.val == 0 && mainStatus.Flags() == DecodeStatus(0)
      ensures View() == Readings(Missing, Missing, Missing, Missing, Missing, Missing,
                                 Missing, Missing, Missing, Missing, Missing)
    {
      freshStatusPerFrame := false;
      this.stream := stream;
      pos := 0;
      mainStatus := new MainStatus(0);
      gyroAxisX, gyroAxisY, gyroAxisZ := Missing, Missing, Missing;
      accelerometerAxisX, accelerometerAxisY, accelerometerAxisZ := Missing, Missing, Missing;
      accelerometerAxisXHighG, temperature := Missing, Missing;
      swVersion, counter, crc := Missing, Missing, Missing;
    }

    /**
     * `IMU(com_port, baudrate)` of the legacy driver: a blank status holder
     * and every sensor attribute, version, counter and crc set to 0.
     */
    constructor OpenLegacy(stream: seq<Byte>)
      ensures Valid() && this.stream == stream && pos == 0 && freshStatusPerFrame
      ensures fresh(mainStatus) && mainStatus.val == 0 && mainStatus.Flags() == NoFlags
      ensures View() == Readings(Int(0), Int(0), Int(0), Int(0), Int(0), Int(0),
                                 Int(0), Int(0), Int(0), Int(0), Int(0))
    {
      freshStatusPerFrame := true;
      this.stream := stream;
      pos := 0;
      mainStatus := new MainStatus.Blank(0);
      gyroAxisX, gyroAxisY, gyroAxisZ := Int(0), Int(0), Int(0);
      accelerometerAxisX, accelerometerAxisY, accelerometerAxisZ := Int(0), Int(0), Int(0);
      accelerometerAxisXHighG, temperature := Int(0), Int(0);
      swVersion, counter, crc := Int(0), Int(0), Int(0);
    }

    /** `ser.read()`: the next byte of the link. */
    method Read() returns (b: Byte)
      requires Valid() && pos < |stream|
      modifies this`pos
      ensures Valid() && pos == old(pos) + 1 && b == stream[old(pos)]
    {
      b := stream[pos];
      pos := pos + 1;
    }

    /**
     * `parse_packet`: the status holder is set from offsets 5-6 (the legacy
     * driver first replaces it with a fresh blank one) and every sensor
     * attribute receives its raw integer.
     */
    method ParsePacket(packet: seq<Byte>)
      requires |packet| == PacketSize
      modifies this, mainStatus
      ensures stream == old(stream) && pos == old(pos)
      ensures View() == Parsed(Decode(packet))
      ensures mainStatus.val == Decode(packet).status && mainStatus.Flags() == DecodeStatus(Decode(packet).status)
      ensures freshStatusPerFrame ==> fresh(mainStatus) && unchanged(old(mainStatus))
      ensures !freshStatusPerFrame ==> mainStatus == old(mainStatus)
    {
      if freshStatusPerFrame {
        mainStatus := new MainStatus.Blank(0);
      }
      mainStatus.Set(LE16(packet[5], packet[6]));
      StoreFields(Decode(packet));
    }

    /** The attribute assignments of `parse_packet`: each sensor attribute receives its raw field. */
    method StoreFields(raw: RawSample)
      modifies this
      ensures View() == Parsed(raw)
      ensures stream == old(stream) && pos == old(pos) && mainStatus == old(mainStatus)
    {
      gyroAxisX, gyroAxisY, gyroAxisZ := Int(raw.gyroX), Int(raw.gyroY), Int(raw.gyroZ);
      accelerometerAxisX, accelerometerAxisY, accelerometerAxisZ := Int(raw.accX), Int(raw.accY), Int(raw.accZ);
      accelerometerAxisXHighG := Int(raw.accXHighG);
      temperature := Int(raw.temperature);
      swVersion, counter, crc := Int(raw.swVersion), Int(raw.counter), Int(raw.crc);
    }

    /** `sensor_values_adaptions`: each raw integer replaced by its scaled value. */
    method SensorValuesAdaptions()
      requires Unscaled(View())
      modifies this
      ensures View() == Adapted(old(View()))
      ensures stream == old(stream) && pos == old(pos) && mainStatus == old(mainStatus)
    {
      var gx, gy, gz := ValuesAdapt(gyroAxisX.i, GyroFactor), ValuesAdapt(gyroAxisY.i, GyroFactor), ValuesAdapt(gyroAxisZ.i, GyroFactor);
      var ax, ay, az := ValuesAdapt(accelerometerAxisX.i, AccelerationFactor), ValuesAdapt(accelerometerAxisY.i, AccelerationFactor), ValuesAdapt(accelerometerAxisZ.i, AccelerationFactor);
      var ah := ValuesAdapt(accelerometerAxisXHighG.i, AccelerationFactor);
      gyroAxisX, gyroAxisY, gyroAxisZ := Float(gx), Float(gy), Float(gz);
      accelerometerAxisX, accelerometerAxisY, accelerometerAxisZ := Float(ax), Float(ay), Float(az - 1.0);
      accelerometerAxisXHighG := Float(ah);
      temperature := Float(temperature.i as real / TemperatureFactor as real);
    }

    /**
     * The scanning loop of `get`: bytes before a start sentinel are skipped;
     * after one, 35 more bytes are read, and the block is kept if its last
     * byte is the end sentinel and dropped whole otherwise. The result is
     * false when the stream ends first (the serial read would block there);
     * then every byte has been read.
     */
    method Synchronise() returns (found: bool, packet: seq<Byte>)
      requires Valid()
      modifies this`pos
      ensures Valid()
      ensures found <==> Scan(stream, old(pos)).Found?
      ensures found ==> packet == Scan(stream, old(pos)).frame && pos == Scan(stream, old(pos)).next
      ensures !found ==> pos == |stream|
    {
      packet := [];
      while true
        invariant Valid() && old(pos) <= pos
        invariant Scan(stream, pos) == Scan(stream, old(pos))
        decreases |stream| - pos
      {
        if pos == |stream| {
          return false, packet;
        }
        var start := pos;
        var startByte := Read();
        if startByte == StartByte {
          packet := [startByte];
          for i := 1 to PacketSize
            invariant Valid() && pos == start + i && packet == stream[start .. pos]
          {
            if pos == |stream| {
              return false, packet;
            }
            var b := Read();
            assert stream[start .. pos] == stream[start .. pos - 1] + [b];
            packet := packet + [b];
          }
          if packet[PacketSize - 1] == EndByte {
            return true, packet;
          } else {
            packet := [];
          }
        } else {
          packet := [];
        }
      }
    }

    /**
     * `get`: reads until a block framed by both sentinels arrives, then
     * decodes and scales it. The result is false when the stream ends first;
     * then every byte has been read and no attribute has changed.
     */
    method Get() returns (found: bool)
      requires Valid()
      modifies this, mainStatus
      ensures Valid() && stream == old(stream)
      ensures found <==> Scan(old(stream), old(pos)).Found?
      ensures found ==>
        var r := Scan(old(stream), old(pos));
        pos == r.next && View() == FrameReadings(r.frame) &&
        mainStatus.val == Decode(r.frame).status && mainStatus.Flags() == DecodeStatus(Decode(r.frame).status) &&
        (freshStatusPerFrame ==> fresh(mainStatus) && unchanged(old(mainStatus))) &&
        (!freshStatusPerFrame ==> mainStatus == old(mainStatus))
      ensures !found ==>
        pos == |stream| && View() == old(View()) &&
        mainStatus == old(mainStatus) && unchanged(mainStatus)
    {
      var packet;
      found, packet := Synchronise();
      if found {
        ParsePacket(packet);
        SensorValuesAdaptions();
      }
    }
  }
}
