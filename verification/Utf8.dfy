/** UTF-8 as the Go runtime reads and writes it: sections 3 and 4 of RFC 3629.
    A byte that does not start a well-formed sequence decodes to U+FFFD with size 1. */
module Utf8 {

  type byte = x: int | 0 <= x < 0x100

  const RUNE_ERROR := 0xFFFD

  datatype Decoded = Decoded(r: int, size: nat)

  /** How many bytes the sequence led by `b0` takes; 0 when `b0` leads none. */
  function SequenceLength(b0: byte): (n: nat)
    ensures n <= 4
  {
    if b0 < 0x80 then 1
    else if b0 < 0xC2 then 0
    else if b0 < 0xE0 then 2
    else if b0 < 0xF0 then 3
    else if b0 < 0xF5 then 4
    else 0
  }

  predicate Continuation(b: byte) {
    0x80 <= b <= 0xBF
  }

  /** The narrower range some lead bytes impose on the second byte. */
  predicate SecondByteOk(b0: byte, b1: byte) {
    && (if b0 == 0xE0 then 0xA0 else if b0 == 0xF0 then 0x90 else 0x80) <= b1
    && b1 <= (if b0 == 0xED then 0x9F else if b0 == 0xF4 then 0x8F else 0xBF)
  }

  predicate StartsWellFormed(b: seq<byte>) {
    && b != []
    && var n := SequenceLength(b[0]);
    && 1 <= n <= |b|
    && (n >= 2 ==> SecondByteOk(b[0], b[1]))
    && (n >= 3 ==> Continuation(b[2]))
    && (n >= 4 ==> Continuation(b[3]))
  }

  function DecodeRune(b: seq<byte>): (d: Decoded)
    ensures d.size <= |b|
    ensures b != [] ==> 1 <= d.size
    ensures d.size > 1 ==> d.r >= 0x80
  {
    if b == [] then Decoded(RUNE_ERROR, 0)
    else if !StartsWellFormed(b) then Decoded(RUNE_ERROR, 1)
    else
      match SequenceLength(b[0])
      case 1 => Decoded(b[0], 1)
      case 2 => Decoded(Bits(b[0], 0x20) * 0x40 + Bits(b[1], 0x40), 2)
      case 3 => Decoded(Bits(b[0], 0x10) * 0x1000 + Bits(b[1], 0x40) * 0x40 + Bits(b[2], 0x40), 3)
      case _ =>
        Decoded(Bits(b[0], 0x08) * 0x40000 + Bits(b[1], 0x40) * 0x1000
                + Bits(b[2], 0x40) * 0x40 + Bits(b[3], 0x40), 4)
  }

  /** The payload bits of a byte: what is left below the power of two `m`. */
  function Bits(b: byte, m: int): int
    requires m > 0
  {
    b % m
  }

  /** The decoder's error answer, as against a well-formed U+FFFD of three bytes. */
  predicate Invalid(d: Decoded) {
    d.r == RUNE_ERROR && d.size <= 1
  }

  predicate Scalar(r: int) {
    0 <= r < 0xD800 || 0xE000 <= r < 0x110000
  }

  function EncodeRune(r: int): (b: seq<byte>)
    ensures 1 <= |b| <= 4
  {
    if !Scalar(r) then [0xEF, 0xBF, 0xBD]
    else if r < 0x80 then [r]
    else if r < 0x800 then [0xC0 + r / 0x40, 0x80 + r % 0x40]
    else if r < 0x10000 then [0xE0 + r / 0x1000, 0x80 + r / 0x40 % 0x40, 0x80 + r % 0x40]
    else [0xF0 + r / 0x40000, 0x80 + r / 0x1000 % 0x40, 0x80 + r / 0x40 % 0x40, 0x80 + r % 0x40]
  }

  /** True of every byte that is not a continuation byte. */
  predicate RuneStart(b: byte) {
    !Continuation(b)
  }

  /** Unicode White_Space, as unicode.IsSpace has it. */
  predicate IsSpace(r: int) {
    || 0x09 <= r <= 0x0D || r == 0x20 || r == 0x85 || r == 0xA0
    || r == 0x1680 || 0x2000 <= r <= 0x200A || r == 0x2028 || r == 0x2029
    || r == 0x202F || r == 0x205F || r == 0x3000
  }

  // ---- What the rest relies on ----

  /** One six-bit digit on top of `hi` comes apart again. */
  lemma Digit(hi: int, lo: int)
    requires 0 <= lo < 0x40
    ensures (hi * 0x40 + lo) / 0x40 == hi && (hi * 0x40 + lo) % 0x40 == lo
  {
  }

  lemma Digits(r: int)
    requires 0 <= r
    ensures r / 0x1000 == r / 0x40 / 0x40 && r / 0x40000 == r / 0x1000 / 0x40
    ensures r == r / 0x40 * 0x40 + r % 0x40
    ensures r / 0x40 == r / 0x1000 * 0x40 + r / 0x40 % 0x40
    ensures r / 0x1000 == r / 0x40000 * 0x40 + r / 0x1000 % 0x40
  {
  }

  /** Encoding a scalar and decoding it gives it back, whatever follows. */
  lemma DecodeEncoded(r: int, rest: seq<byte>)
    requires Scalar(r)
    ensures DecodeRune(EncodeRune(r) + rest) == Decoded(r, |EncodeRune(r)|)
  {
    if r < 0x80 {
    } else if r < 0x800 {
      DecodeEncoded2(r, EncodeRune(r) + rest);
    } else if r < 0x10000 {
      DecodeEncoded3(r, EncodeRune(r) + rest);
    } else {
      DecodeEncoded4(r, EncodeRune(r) + rest);
    }
  }

  lemma DecodeEncoded2(r: int, b: seq<byte>)
    requires 0x80 <= r < 0x800
    requires |b| >= 2 && b[0] == 0xC0 + r / 0x40 && b[1] == 0x80 + r % 0x40
    ensures DecodeRune(b) == Decoded(r, 2)
  {
    Low(b[0], 6, 0x20, r / 0x40);
    Low(b[1], 2, 0x40, r % 0x40);
  }

  lemma DecodeEncoded3(r: int, b: seq<byte>)
    requires 0x800 <= r < 0x10000 && Scalar(r)
    requires |b| >= 3 && b[0] == 0xE0 + r / 0x1000
    requires b[1] == 0x80 + r / 0x40 % 0x40 && b[2] == 0x80 + r % 0x40
    ensures DecodeRune(b) == Decoded(r, 3)
  {
    Digits(r);
    assert SequenceLength(b[0]) == 3;
    Low(b[0], 0xE, 0x10, r / 0x1000);
    Low(b[1], 2, 0x40, r / 0x40 % 0x40);
    Low(b[2], 2, 0x40, r % 0x40);
    assert SecondByteOk(b[0], b[1]);
  }

  lemma DecodeEncoded4(r: int, b: seq<byte>)
    requires 0x10000 <= r < 0x110000
    requires |b| >= 4 && b[0] == 0xF0 + r / 0x40000 && b[1] == 0x80 + r / 0x1000 % 0x40
    requires b[2] == 0x80 + r / 0x40 % 0x40 && b[3] == 0x80 + r % 0x40
    ensures DecodeRune(b) == Decoded(r, 4)
  {
    Digits(r);
    assert SequenceLength(b[0]) == 4;
    Low(b[0], 0x1E, 8, r / 0x40000);
    Low(b[1], 2, 0x40, r / 0x1000 % 0x40);
    Low(b[2], 2, 0x40, r / 0x40 % 0x40);
    Low(b[3], 2, 0x40, r % 0x40);
    assert SecondByteOk(b[0], b[1]);
  }

  /** The payload of a byte made of a tag and a digit is the digit. */
  lemma Low(b: byte, tag: int, m: int, digit: int)
    requires m in {8, 0x10, 0x20, 0x40} && 0 <= digit < m && b == tag * m + digit
    ensures Bits(b, m) == digit
  {
  }

  /** A continuation byte is 10 followed by its payload. */
  lemma Payload(b: byte)
    requires Continuation(b)
    ensures b == 0x80 + Bits(b, 0x40) && 0 <= Bits(b, 0x40) < 0x40
  {
  }

  /** A well-formed sequence is the encoding of what it decodes to. */
  lemma EncodeDecoded(b: seq<byte>)
    requires StartsWellFormed(b)
    ensures var d := DecodeRune(b);
            Scalar(d.r) && d.size == SequenceLength(b[0]) && EncodeRune(d.r) == b[..d.size]
  {
    match SequenceLength(b[0])
    case 1 =>
    case 2 => EncodeDecoded2(b);
    case 3 => EncodeDecoded3(b);
    case _ => EncodeDecoded4(b);
  }

  lemma EncodeDecoded2(b: seq<byte>)
    requires StartsWellFormed(b) && SequenceLength(b[0]) == 2
    ensures Scalar(DecodeRune(b).r) && EncodeRune(DecodeRune(b).r) == b[..2]
  {
    var x, y := Bits(b[0], 0x20), Bits(b[1], 0x40);
    Payload(b[1]);
    assert b[0] == 0xC0 + x && 2 <= x < 0x20;
    Digit(x, y);
  }

  lemma EncodeDecoded3(b: seq<byte>)
    requires StartsWellFormed(b) && SequenceLength(b[0]) == 3
    ensures Scalar(DecodeRune(b).r) && EncodeRune(DecodeRune(b).r) == b[..3]
  {
    var x, y, z := Bits(b[0], 0x10), Bits(b[1], 0x40), Bits(b[2], 0x40);
    Payload(b[1]);
    Payload(b[2]);
    assert b[0] == 0xE0 + x && 0 <= x < 0x10;
    assert x == 0 ==> y >= 0x20;
    assert x == 0xD ==> y < 0x20;
    var r := DecodeRune(b).r;
    assert r == (x * 0x40 + y) * 0x40 + z;
    assert 0x800 <= r < 0x10000 && Scalar(r);
    Digit(x * 0x40 + y, z);
    Digit(x, y);
    Digits(r);
  }

  lemma EncodeDecoded4(b: seq<byte>)
    requires StartsWellFormed(b) && SequenceLength(b[0]) == 4
    ensures Scalar(DecodeRune(b).r) && EncodeRune(DecodeRune(b).r) == b[..4]
  {
    var x, y, z, w := Bits(b[0], 0x08), Bits(b[1], 0x40), Bits(b[2], 0x40), Bits(b[3], 0x40);
    Payload(b[1]);
    Payload(b[2]);
    Payload(b[3]);
    assert b[0] == 0xF0 + x && 0 <= x < 5;
    assert x == 0 ==> y >= 0x10;
    assert x == 4 ==> y < 0x10;
    var r := DecodeRune(b).r;
    assert r == ((x * 0x40 + y) * 0x40 + z) * 0x40 + w;
    assert 0x10000 <= r < 0x110000 && Scalar(r);
    Digit((x * 0x40 + y) * 0x40 + z, w);
    Digit(x * 0x40 + y, z);
    Digit(x, y);
    Digits(r);
  }

  /** Only the first byte of an encoding starts a character. */
  lemma EncodingShape(r: int)
    ensures var e := EncodeRune(r);
            RuneStart(e[0]) && forall k | 1 <= k < |e| :: !RuneStart(e[k])
    ensures var e := EncodeRune(r);
            0x20 in e ==> r == 0x20
  {
  }

  /** Decoding reads no further than the sequence it accepts: a cut leaves the answer alone
      or turns it into an error. */
  lemma DecodePrefix(b: seq<byte>, n: nat)
    requires n <= |b|
    ensures StartsWellFormed(b[..n]) <==> StartsWellFormed(b) && DecodeRune(b).size <= n
    ensures DecodeRune(b).size <= n ==> DecodeRune(b[..n]) == DecodeRune(b)
  {
    var c := b[..n];
    assert forall k | 0 <= k < n :: c[k] == b[k];
  }
}
