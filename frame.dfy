/**
 * The DFPlayer Mini command frame built by `send_pkt` (main.cpp:88-92).
 *
 * A frame is ten bytes: start 0x7E, version 0xFF, length 0x06, the command,
 * a feedback byte 0x00 (no acknowledgement requested), two data bytes, a
 * 16-bit checksum stored big-endian, and the end byte 0xEF.
 */
module Frame {
  import opened Base

  const Start: byte := 0x7E
  const Version: byte := 0xFF
  const Length: byte := 0x06
  const NoFeedback: byte := 0x00
  const End: byte := 0xEF

  /** Number of bytes in every frame. */
  const FrameSize := 10

  /** A command as the receiver sees it: command code and two data bytes. */
  datatype Command = Command(cmd: byte, dh: byte, dl: byte)

  /** The bytes the checksum covers, frame positions 1..6, summed as `int`. */
  function CoveredSum(cmd: byte, dh: byte, dl: byte): int
  {
    Version + Length + cmd + NoFeedback + dh + dl
  }

  /** Big-endian 16-bit word made of two bytes. */
  function Word(hi: byte, lo: byte): int
  {
    256 * hi + lo
  }

  /**
   * `uint16_t sum = 0 - (...)`: the negation is computed in `int` and then
   * truncated to 16 bits, i.e. taken modulo 65536.
   */
  function Checksum(cmd: byte, dh: byte, dl: byte): (sum: uint16)
    ensures (CoveredSum(cmd, dh, dl) + sum) % 0x1_0000 == 0
  {
    (0 - CoveredSum(cmd, dh, dl)) % 0x1_0000
  }

  /** The receiver's check: bytes 1..6 plus the checksum word vanish modulo 65536. */
  predicate ChecksumHolds(p: seq<byte>)
    requires |p| == FrameSize
  {
    (p[1] + p[2] + p[3] + p[4] + p[5] + p[6]
     + Word(p[7], p[8])) % 0x1_0000 == 0
  }

  /** The frame `send_pkt(cmd, dh, dl)` transmits. */
  function BuildFrame(cmd: byte, dh: byte, dl: byte): (p: seq<byte>)
    ensures |p| == FrameSize
    ensures p[0] == Start && p[1] == Version && p[2] == Length && p[9] == End
    ensures p[3] == cmd && p[4] == NoFeedback && p[5] == dh && p[6] == dl
    ensures ChecksumHolds(p)
  {
    var sum := Checksum(cmd, dh, dl);
    [Start, Version, Length, cmd, NoFeedback, dh, dl, sum / 256, sum % 256, End]
  }

  /**
   * What a receiver accepts: ten bytes with the fixed fields in place and a
   * checksum that holds; anything else is rejected.
   */
  function ParseFrame(p: seq<byte>): (c: Option<Command>)
    ensures c.Some? ==> |p| == FrameSize && ChecksumHolds(p)
  {
    if |p| == FrameSize && p[0] == Start && p[1] == Version && p[2] == Length
       && p[4] == NoFeedback && p[9] == End && ChecksumHolds(p)
    then Some(Command(p[3], p[5], p[6]))
    else None
  }

  /** A frame the firmware builds is accepted and carries its arguments back. */
  lemma ParseBuildFrame(cmd: byte, dh: byte, dl: byte)
    ensures ParseFrame(BuildFrame(cmd, dh, dl)) == Some(Command(cmd, dh, dl))
  {
  }

  /** Two checksum words that both complete the same sum are equal. */
  lemma ChecksumWordUnique(covered: int, w: int)
    requires 0 <= w < 0x1_0000
    requires (covered + w) % 0x1_0000 == 0
    ensures w == (0 - covered) % 0x1_0000
  {
    var m := 0x1_0000;
    var q := (covered + w) / m;
    assert covered + w == q * m;
    assert w == -covered + q * m;
  }

  /** The two checksum bytes are determined by their big-endian word. */
  lemma WordBytes(hi: byte, lo: byte)
    ensures Word(hi, lo) / 256 == hi && Word(hi, lo) % 256 == lo
  {
  }

  /** Every frame a receiver accepts is exactly the frame built from its command. */
  lemma BuildParseFrame(p: seq<byte>)
    requires ParseFrame(p).Some?
    ensures var c := ParseFrame(p).value; BuildFrame(c.cmd, c.dh, c.dl) == p
  {
    var c := ParseFrame(p).value;
    var w := Word(p[7], p[8]);
    assert (CoveredSum(c.cmd, c.dh, c.dl) + w) % 0x1_0000 == 0;
    ChecksumWordUnique(CoveredSum(c.cmd, c.dh, c.dl), w);
    assert w == Checksum(c.cmd, c.dh, c.dl);
    WordBytes(p[7], p[8]);
    var q := BuildFrame(c.cmd, c.dh, c.dl);
    assert q[7] == w / 256 == p[7];
    assert q[8] == w % 256 == p[8];
    assert forall i :: 0 <= i < FrameSize ==> q[i] == p[i];
  }

  /** The worked example: play folder 1, file 5 has checksum 0xFEE6. */
  lemma PlayFolder1File5()
    ensures BuildFrame(0x0F, 0x01, 0x05) == [0x7E, 0xFF, 0x06, 0x0F, 0x00, 0x01, 0x05, 0xFE, 0xE6, 0xEF]
  {
  }
}
