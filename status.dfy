/**
 * The status decoder: the 16-bit main status word of a frame expanded into
 * health flags (`MainStatus`). Most flags have inverted polarity: a clear
 * bit means "ok".
 */
module Status {
  import opened Bits

  /** Mask of the two mode bits 13 and 14. */
  const ModeMask: nat := 0x6000

  /** The flags of one status word, as a value. */
  datatype StatusFlags = StatusFlags(
    highGSensorInAllAxes: bool,
    accXOk: bool, accYOk: bool, accZOk: bool,
    gyroXOk: bool, gyroYOk: bool, gyroZOk: bool,
    syncSignalExists: bool,
    normalMode: bool, bitMode: bool, faultMode: bool,
    gyroRangesOk: bool)

  /** Every flag false: what a freshly built legacy `MainStatus` holds. */
  const NoFlags := StatusFlags(false, false, false, false, false, false, false, false,
                               false, false, false, false)

  /**
   * `MainStatus.set`: each flag read from the word with the mask the driver
   * uses (`1 << 4` is 0x10, ..., `1 << 15` is 0x8000). Whatever the word, the
   * mode flags are consistent: fault mode implies built-in test mode, and
   * normal and built-in test mode exclude each other.
   */
  function DecodeStatus(val: nat): (f: StatusFlags)
    ensures f.faultMode ==> f.bitMode
    ensures !(f.normalMode && f.bitMode)
  {
    Pow2Table();
    AndPow2(val, 13);
    AndTwoBits(val, 13);
    StatusFlags(
      And(val, 0x10) != 0,
      And(val, 0x20) == 0, And(val, 0x40) == 0, And(val, 0x80) == 0,
      And(val, 0x200) == 0, And(val, 0x400) == 0, And(val, 0x800) == 0,
      And(val, 0x1000) == 0,
      And(val, ModeMask) == 0,
      And(val, 0x2000) != 0,
      And(val, 0x2000) != 0 && And(val, 0x4000) != 0,
      And(val, 0x8000) == 0)
  }

  /**
   * Each flag in terms of one bit: the high-g flag is bit 4 set, the `Ok`
   * flags and the sync flag are bits 5, 6, 7, 9, 10, 11, 15 and 12 clear.
   */
  lemma {:induction false} DecodeStatusBits(val: nat)
    ensures var f := DecodeStatus(val);
      (f.highGSensorInAllAxes <==> Bit(val, 4)) &&
      (f.accXOk <==> !Bit(val, 5)) && (f.accYOk <==> !Bit(val, 6)) && (f.accZOk <==> !Bit(val, 7)) &&
      (f.gyroXOk <==> !Bit(val, 9)) && (f.gyroYOk <==> !Bit(val, 10)) && (f.gyroZOk <==> !Bit(val, 11)) &&
      (f.syncSignalExists <==> !Bit(val, 12)) &&
      (f.gyroRangesOk <==> !Bit(val, 15))
  {
    Pow2Table();
    AndPow2(val, 4);
    AndPow2(val, 5);
    AndPow2(val, 6);
    AndPow2(val, 7);
    AndPow2(val, 9);
    AndPow2(val, 10);
    AndPow2(val, 11);
    AndPow2(val, 12);
    AndPow2(val, 15);
  }

  /**
   * The operating modes: normal mode is bits 13 and 14 both clear, built-in
   * test mode is bit 13 set, fault mode is both set.
   */
  lemma {:induction false} DecodeStatusModes(val: nat)
    ensures var f := DecodeStatus(val);
      (f.normalMode <==> !Bit(val, 13) && !Bit(val, 14)) &&
      (f.bitMode <==> Bit(val, 13)) &&
      (f.faultMode <==> Bit(val, 13) && Bit(val, 14))
  {
    Pow2Table();
    AndPow2(val, 13);
    AndPow2(val, 14);
    AndTwoBits(val, 13);
  }

  /** Bits 0-3 and 8 of the word reach no flag: setting one of them leaves every flag as it was. */
  lemma {:induction false} DecodeStatusUnusedBits(val: nat, k: nat)
    requires k in {0, 1, 2, 3, 8} && !Bit(val, k)
    ensures DecodeStatus(val + Pow2(k)) == DecodeStatus(val)
  {
    var w := val + Pow2(k);
    DecodeStatusBits(val);
    DecodeStatusBits(w);
    DecodeStatusModes(val);
    DecodeStatusModes(w);
    SetClearBit(val, k, 4);
    SetClearBit(val, k, 5);
    SetClearBit(val, k, 6);
    SetClearBit(val, k, 7);
    SetClearBit(val, k, 9);
    SetClearBit(val, k, 10);
    SetClearBit(val, k, 11);
    SetClearBit(val, k, 12);
    SetClearBit(val, k, 13);
    SetClearBit(val, k, 14);
    SetClearBit(val, k, 15);
  }

  /** The status holder, whose fields `set` overwrites in place. */
  class MainStatus {
    var val: nat
    var highGSensorInAllAxes: bool
    var accXOk: bool
    var accYOk: bool
    var accZOk: bool
    var gyroXOk: bool
    var gyroYOk: bool
    var gyroZOk: bool
    var syncSignalExists: bool
    var normalMode: bool
    var bitMode: bool
    var faultMode: bool
    var gyroRangesOk: bool

    /** The current flags as a value. */
    function Flags(): StatusFlags
      reads this
    {
      StatusFlags(highGSensorInAllAxes, accXOk, accYOk, accZOk,
                  gyroXOk, gyroYOk, gyroZOk, syncSignalExists,
                  normalMode, bitMode, faultMode, gyroRangesOk)
    }

    /** `MainStatus(val)` of the current driver: decodes the word at once. */
    constructor (val: nat)
      ensures this.val == val && Flags() == DecodeStatus(val)
    {
      this.val := val;
      new;
      Set(val);
    }

    /** `MainStatus(val)` of the legacy driver: stores the word but leaves every flag false. */
    constructor Blank(val: nat)
      ensures this.val == val && Flags() == NoFlags
    {
      this.val := val;
      highGSensorInAllAxes := false;
      accXOk, accYOk, accZOk := false, false, false;
      gyroXOk, gyroYOk, gyroZOk := false, false, false;
      syncSignalExists := false;
      normalMode, bitMode, faultMode := false, false, false;
      gyroRangesOk := false;
    }

    /** `set(val)`: stores the word unchanged and overwrites every flag from it. */
    method Set(val: nat)
      modifies this
      ensures this.val == val && Flags() == DecodeStatus(val)
    {
      this.val := val;
      Assign(DecodeStatus(val));
    }

    /** The flag assignments of `set`: every flag attribute overwritten, the word kept. */
    method Assign(f: StatusFlags)
      modifies this
      ensures val == old(val) && Flags() == f
    {
      highGSensorInAllAxes, accXOk, accYOk, accZOk := f.highGSensorInAllAxes, f.accXOk, f.accYOk, f.accZOk;
      gyroXOk, gyroYOk, gyroZOk := f.gyroXOk, f.gyroYOk, f.gyroZOk;
      syncSignalExists := f.syncSignalExists;
      normalMode, bitMode, faultMode := f.normalMode, f.bitMode, f.faultMode;
      gyroRangesOk := f.gyroRangesOk;
    }
  }
}
