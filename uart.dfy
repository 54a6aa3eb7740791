/**
 * The bit-banged 9600-8N1 transmitter `tx_byte` (main.cpp:72-86) seen as the
 * sequence of levels it drives on the TX pin, one per bit period, and the
 * receiver-side decoding that inverts it. The 104 us bit delays are not
 * modelled; only the order of levels is.
 */
module Uart {
  import opened Base

  /** Line levels: `true` is high. The line idles high. */
  const Low := false
  const High := true

  /** Levels per character: start bit, eight data bits, stop bit. */
  const CharLength := 10

  function Pow2(n: nat): (r: nat)
    ensures r > 0
  {
    if n == 0 then 1 else 2 * Pow2(n - 1)
  }

  lemma MulAtLeast(d: int, k: int)
    requires d > 0 && k >= 1
    ensures d * k >= d
  {
    var j := k - 1;
    assert d * k == d * j + d;
    assert d * j >= 0;
  }

  /** Division by a positive `d` is determined by any quotient/remainder split. */
  lemma DivModUnique(a: int, d: int, q: int, r: int)
    requires d > 0 && 0 <= r < d && a == d * q + r
    ensures a / d == q && a % d == r
  {
    var q', r' := a / d, a % d;
    assert a == d * q' + r';
    if q' < q {
      assert d * (q - q') == r' - r;
      MulAtLeast(d, q - q');
    } else if q' > q {
      assert d * (q' - q) == r - r';
      MulAtLeast(d, q' - q);
    }
  }

  /** Shifting right once and then by `i - 1` is shifting right by `i`. */
  lemma ShiftTwice(b: nat, i: nat)
    requires i > 0
    ensures b / 2 / Pow2(i - 1) == b / Pow2(i)
    ensures b % Pow2(i) == b % 2 + 2 * ((b / 2) % Pow2(i - 1))
  {
    var p := Pow2(i - 1);
    var q, r := b / 2, b % 2;
    var q2, r2 := q / p, q % p;
    assert b == Pow2(i) * q2 + (2 * r2 + r);
    DivModUnique(b, Pow2(i), q2, 2 * r2 + r);
  }

  /**
   * The data bits `tx_byte` sends, in order: it tests bit 0 of `b`, then
   * shifts `b` right by one, `n` times over.
   */
  function DataBits(b: nat, n: nat): (bits: seq<bool>)
    ensures |bits| == n
  {
    if n == 0 then [] else [b % 2 == 1] + DataBits(b / 2, n - 1)
  }

  /** Data bit `i` is bit `i` of `b`, `(b >> i) & 1`: least significant first. */
  lemma {:induction false} DataBitsAt(b: nat, n: nat, i: nat)
    requires i < n
    ensures DataBits(b, n)[i] == (b / Pow2(i) % 2 == 1)
  {
    if i > 0 {
      DataBitsAt(b / 2, n - 1, i - 1);
      ShiftTwice(b, i);
    }
  }

  /** The levels `tx_byte(b)` drives: low start bit, data LSB first, high stop bit. */
  function Levels(b: byte): (l: seq<bool>)
    ensures |l| == CharLength
  {
    [Low] + DataBits(b, 8) + [High]
  }

  /** Level by level: 0 is the start bit, `1 + i` is bit `i` of `b`, 9 is the stop bit. */
  lemma LevelsAt(b: byte)
    ensures Levels(b)[0] == Low && Levels(b)[9] == High
    ensures forall i :: 0 <= i < 8 ==> Levels(b)[1 + i] == (b / Pow2(i) % 2 == 1)
  {
    forall i | 0 <= i < 8
      ensures Levels(b)[1 + i] == (b / Pow2(i) % 2 == 1)
    {
      DataBitsAt(b, 8, i);
    }
  }

  /** The value a receiver assembles from data bits sent least significant first. */
  function FromBits(bits: seq<bool>): (v: nat)
    ensures v < Pow2(|bits|)
  {
    if bits == [] then 0 else (if bits[0] then 1 else 0) + 2 * FromBits(bits[1..])
  }

  /** Assembling the first `n` data bits of `b` gives the low `n` bits of `b`. */
  lemma {:induction false} FromDataBits(b: nat, n: nat)
    ensures FromBits(DataBits(b, n)) == b % Pow2(n)
  {
    if n > 0 {
      var bits := DataBits(b, n);
      assert bits[1..] == DataBits(b / 2, n - 1);
      FromDataBits(b / 2, n - 1);
      ShiftTwice(b, n);
    }
  }

  /** Sending the bits of an assembled value reproduces the bits. */
  lemma {:induction false} DataFromBits(bits: seq<bool>)
    ensures DataBits(FromBits(bits), |bits|) == bits
  {
    if bits != [] {
      var v := FromBits(bits);
      var rest := FromBits(bits[1..]);
      assert v == (if bits[0] then 1 else 0) + 2 * rest;
      assert v % 2 == (if bits[0] then 1 else 0) && v / 2 == rest;
      DataFromBits(bits[1..]);
      assert DataBits(v, |bits|) == [bits[0]] + bits[1..];
    }
  }

  /** What a receiver makes of one character: a byte, or a framing error. */
  function DecodeChar(l: seq<bool>): (r: Option<byte>)
    requires |l| == CharLength
  {
    if l[0] != Low || l[9] != High then None
    else
      var v := FromBits(l[1..9]);
      assert v < Pow2(8) == 256;
      Some(v)
  }

  /** Decoding what `tx_byte` drives gives back the byte. */
  lemma DecodeLevels(b: byte)
    ensures DecodeChar(Levels(b)) == Some(b)
  {
    var l := Levels(b);
    assert l[1..9] == DataBits(b, 8);
    FromDataBits(b, 8);
    assert Pow2(8) == 256;
  }

  /** A character that decodes to `b` is exactly what `tx_byte(b)` drives. */
  lemma LevelsOfDecoded(l: seq<bool>)
    requires |l| == CharLength && DecodeChar(l).Some?
    ensures Levels(DecodeChar(l).value) == l
  {
    var bits := l[1..9];
    DataFromBits(bits);
    assert l == [l[0]] + bits + [l[9]];
  }

  /** The levels for a sequence of bytes, sent back to back. */
  function Serialize(p: seq<byte>): (l: seq<bool>)
    ensures |l| == CharLength * |p|
  {
    if p == [] then [] else Levels(p[0]) + Serialize(p[1..])
  }

  lemma {:induction false} SerializeAppend(a: seq<byte>, b: seq<byte>)
    ensures Serialize(a + b) == Serialize(a) + Serialize(b)
  {
    if a != [] {
      assert (a + b)[1..] == a[1..] + b;
      SerializeAppend(a[1..], b);
    } else {
      assert a + b == b;
    }
  }

  /** A receiver decoding characters back to back: every ten levels one byte. */
  function Deserialize(l: seq<bool>): (r: Option<seq<byte>>)
    decreases |l|
  {
    if l == [] then Some([])
    else if |l| < CharLength then None
    else match DecodeChar(l[..CharLength])
      case None => None
      case Some(b) =>
        match Deserialize(l[CharLength..])
        case None => None
        case Some(rest) => Some([b] + rest)
  }

  /** Round trip: what the transmitter sends, the receiver decodes. */
  lemma {:induction false} DeserializeSerialize(p: seq<byte>)
    ensures Deserialize(Serialize(p)) == Some(p)
  {
    if p != [] {
      var l := Serialize(p);
      assert l[..CharLength] == Levels(p[0]);
      assert l[CharLength..] == Serialize(p[1..]);
      DecodeLevels(p[0]);
      DeserializeSerialize(p[1..]);
      assert [p[0]] + p[1..] == p;
    }
  }

  /** Conversely, levels that decode to `p` are exactly `Serialize(p)`. */
  lemma {:induction false} SerializeDeserialize(l: seq<bool>)
    requires Deserialize(l).Some?
    ensures Serialize(Deserialize(l).value) == l
    decreases |l|
  {
    if l != [] {
      var head := l[..CharLength];
      var p := Deserialize(l).value;
      LevelsOfDecoded(head);
      SerializeDeserialize(l[CharLength..]);
      assert p[1..] == Deserialize(l[CharLength..]).value;
      assert l == head + l[CharLength..];
    }
  }
}
