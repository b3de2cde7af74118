/**
 * The frame synchroniser (`IMU.get`) as a function of the byte stream and
 * the read index: skip bytes until the start sentinel, take it and the next
 * 35 bytes, keep the block if it ends with the end sentinel, otherwise drop
 * the whole block and go on after it.
 */
module Sync {
  import opened Frame

  /** An accepted frame and the index of the first byte after it, or no frame in the stream. */
  datatype ScanResult = Found(frame: seq<Byte>, next: nat) | NotFound

  /**
   * The frame `get` accepts when it starts reading at `pos`: a block framed
   * by both sentinels that ends within the stream. NotFound means the stream
   * ends first: on the serial line the read would block.
   */
  function Scan(s: seq<Byte>, pos: nat): (r: ScanResult)
    requires pos <= |s|
    ensures r.Found? ==> pos + PacketSize <= r.next <= |s| && IsFrame(r.frame)
    decreases |s| - pos
  {
    if pos == |s| then NotFound
    else if s[pos] != StartByte then Scan(s, pos + 1)
    else if pos + PacketSize > |s| then NotFound
    else if s[pos + PacketSize - 1] == EndByte then Found(s[pos .. pos + PacketSize], pos + PacketSize)
    else Scan(s, pos + PacketSize)
  }

  /** The accepted frame is the 36 bytes of the stream just before `next`. */
  lemma {:induction false} ScanFrame(s: seq<Byte>, pos: nat)
    requires pos <= |s| && Scan(s, pos).Found?
    ensures Scan(s, pos).frame == s[Scan(s, pos).next - PacketSize .. Scan(s, pos).next]
    decreases |s| - pos
  {
    if s[pos] != StartByte {
      ScanFrame(s, pos + 1);
    } else if s[pos + PacketSize - 1] != EndByte {
      ScanFrame(s, pos + PacketSize);
    }
  }

  /**
   * `get` never reads beyond the frame it accepts: bytes appended to the
   * stream do not change which frame is found, nor where reading stops.
   */
  lemma {:induction false} ScanIgnoresLaterBytes(s: seq<Byte>, t: seq<Byte>, pos: nat)
    requires pos <= |s| && Scan(s, pos).Found?
    ensures Scan(s + t, pos) == Scan(s, pos)
    decreases |s| - pos
  {
    var u := s + t;
    assert u[..|s|] == s;
    if s[pos] != StartByte {
      ScanIgnoresLaterBytes(s, t, pos + 1);
    } else if s[pos + PacketSize - 1] != EndByte {
      ScanIgnoresLaterBytes(s, t, pos + PacketSize);
    } else {
      assert u[pos .. pos + PacketSize] == s[pos .. pos + PacketSize];
    }
  }

  /**
   * The payload is never checked: once a frame is accepted at `next`, any
   * other stream with the same bytes up to and including its start sentinel
   * and the same end sentinel accepts its own block at the same place,
   * whatever the status, sensor and checksum bytes in between.
   */
  lemma {:induction false} ScanIgnoresPayload(s: seq<Byte>, s': seq<Byte>, pos: nat, n: nat)
    requires pos <= |s| && Scan(s, pos).Found? && Scan(s, pos).next == n
    requires n <= |s'| && s'[n - 1] == s[n - 1]
    requires forall i :: 0 <= i <= n - PacketSize ==> s'[i] == s[i]
    ensures Scan(s', pos) == Found(s'[n - PacketSize .. n], n)
    decreases |s| - pos
  {
    if s[pos] != StartByte {
      ScanIgnoresPayload(s, s', pos + 1, n);
    } else if s[pos + PacketSize - 1] != EndByte {
      ScanIgnoresPayload(s, s', pos + PacketSize, n);
    }
  }

  /**
   * Recovery after a corrupt frame: a start sentinel, 34 bytes and a wrong
   * terminator, followed by a valid frame, yield exactly that frame, and
   * nothing after it.
   */
  lemma DesyncRecovery(junk: seq<Byte>, bad: Byte, frame: seq<Byte>)
    requires |junk| == PacketSize - 2 && bad != EndByte && IsFrame(frame)
    ensures var s := [StartByte] + junk + [bad] + frame;
      Scan(s, 0) == Found(frame, 2 * PacketSize) && Scan(s, 2 * PacketSize) == NotFound
  {
    var s := [StartByte] + junk + [bad] + frame;
    assert s[0] == StartByte && s[PacketSize - 1] == bad;
    assert s[PacketSize] == StartByte && s[2 * PacketSize - 1] == EndByte;
    assert s[PacketSize .. 2 * PacketSize] == frame;
  }

  /**
   * The degraded resynchronisation: once a block that starts with the start
   * sentinel is rejected, scanning resumes after the whole block, as if its
   * bytes were never there. In particular no frame that starts at an offset
   * k strictly inside the block is ever accepted: the first frame found
   * ends at least a block later.
   */
  lemma RejectedBlockSkipped(s: seq<Byte>, pos: nat, k: nat)
    requires pos + PacketSize <= |s| && s[pos] == StartByte && s[pos + PacketSize - 1] != EndByte
    requires pos < k < pos + PacketSize
    ensures Scan(s, pos) == Scan(s, pos + PacketSize)
    ensures Scan(s, pos).Found? ==>
      Scan(s, pos).next >= pos + 2 * PacketSize && Scan(s, pos).next != k + PacketSize
  {
  }

  /**
   * The degraded resynchronisation, exhibited: a valid frame that begins
   * inside a rejected block is never found, because scanning resumes after
   * the whole block.
   */
  lemma MissedFrameInsideRejectedBlock()
    ensures var s := [StartByte, StartByte] + seq(PacketSize - 2, _ => 0) + [EndByte];
      |s| == PacketSize + 1 && IsFrame(s[1..]) && Scan(s, 0) == NotFound
  {
    var s := [StartByte, StartByte] + seq(PacketSize - 2, _ => 0) + [EndByte];
    assert s[PacketSize - 1] == 0;
    assert s[PacketSize] == EndByte;
    assert Scan(s, PacketSize + 1) == NotFound;
    assert Scan(s, PacketSize) == NotFound;
  }
}
