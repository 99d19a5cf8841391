/** `codePointToUTF8`, against the UTF-8 definition of section 3 of RFC 3629. A byte is a
    character below 256; masks and shifts of non-negative numbers are written % and /. */
module Utf8 {

  predicate IsScalarValue(cp: nat) {
    cp <= 0x10FFFF && !(0xD800 <= cp <= 0xDFFF)
  }

  function Encode(cp: nat): (bytes: string) {
    if cp <= 0x7F then [cp as char]
    else if cp <= 0x7FF then [(0xC0 + cp / 0x40) as char, Continuation(cp)]
    else if cp <= 0xFFFF then
      [(0xE0 + cp / 0x1000) as char, Continuation(cp / 0x40), Continuation(cp)]
    else if cp <= 0x10FFFF then
      [(0xF0 + cp / 0x4_0000) as char, Continuation(cp / 0x1000), Continuation(cp / 0x40), Continuation(cp)]
    else ""
  }

  function Continuation(bits: nat): (c: char)
    ensures IsContinuation(c) && Payload(c) == bits % 0x40
  {
    (0x80 + bits % 0x40) as char
  }

  predicate IsContinuation(c: char) {
    0x80 <= c as int <= 0xBF
  }

  function Payload(c: char): nat {
    c as int % 0x40
  }

  // The source allocates the result and assigns its bytes by index, last first.
  method CodePointToUtf8(cp: nat) returns (result: string)
    ensures result == Encode(cp)
  {
    result := "";
    if cp <= 0x7F {
      result := [cp as char];
    } else if cp <= 0x7FF {
      result := seq(2, _ => '\0');
      result := result[1 := Continuation(cp)];
      result := result[0 := (0xC0 + (cp / 0x40) % 0x20) as char];
    } else if cp <= 0xFFFF {
      result := seq(3, _ => '\0');
      result := result[2 := Continuation(cp)];
      result := result[1 := Continuation(cp / 0x40)];
      result := result[0 := (0xE0 + (cp / 0x1000) % 0x10) as char];
    } else if cp <= 0x10FFFF {
      result := seq(4, _ => '\0');
      result := result[3 := Continuation(cp)];
      result := result[2 := Continuation(cp / 0x40)];
      result := result[1 := Continuation(cp / 0x1000)];
      result := result[0 := (0xF0 + (cp / 0x4_0000) % 8) as char];
    }
  }

  // One character of the ABNF of section 4 of RFC 3629: no overlong form, no surrogate,
  // nothing above U+10FFFF.
  predicate IsWellFormed(b: string) {
    || (|b| == 1 && b[0] as int <= 0x7F)
    || (|b| == 2 && 0xC2 <= b[0] as int <= 0xDF && IsContinuation(b[1]))
    || (|b| == 3 && IsContinuation(b[1]) && IsContinuation(b[2]) &&
        ( || (b[0] as int == 0xE0 && b[1] as int >= 0xA0)
          || (b[0] as int == 0xED && b[1] as int <= 0x9F)
          || 0xE1 <= b[0] as int <= 0xEC
          || 0xEE <= b[0] as int <= 0xEF))
    || (|b| == 4 && IsContinuation(b[1]) && IsContinuation(b[2]) && IsContinuation(b[3]) &&
        ( || (b[0] as int == 0xF0 && b[1] as int >= 0x90)
          || (b[0] as int == 0xF4 && b[1] as int <= 0x8F)
          || 0xF1 <= b[0] as int <= 0xF3))
  }

  function Decode(b: string): nat
    requires IsWellFormed(b)
  {
    if |b| == 1 then b[0] as int
    else if |b| == 2 then (b[0] as int - 0xC0) * 0x40 + Payload(b[1])
    else if |b| == 3 then (b[0] as int - 0xE0) * 0x1000 + Payload(b[1]) * 0x40 + Payload(b[2])
    else (b[0] as int - 0xF0) * 0x4_0000 + Payload(b[1]) * 0x1000 + Payload(b[2]) * 0x40 + Payload(b[3])
  }

  // The encoder maps the scalar values one to one onto the well-formed sequences, and
  // the decoder of the standard inverts it on both sides.
  lemma EncodeIsWellFormed(cp: nat)
    requires IsScalarValue(cp)
    ensures IsWellFormed(Encode(cp)) && Decode(Encode(cp)) == cp
  {
    if 0x7FF < cp <= 0xFFFF {
      assert (cp / 0x40) / 0x40 == cp / 0x1000;
    } else if cp > 0xFFFF {
      assert (cp / 0x40) / 0x40 == cp / 0x1000;
      assert (cp / 0x1000) / 0x40 == cp / 0x4_0000;
    }
  }

  lemma DecodeIsScalar(b: string)
    requires IsWellFormed(b)
    ensures IsScalarValue(Decode(b)) && Encode(Decode(b)) == b
  {
    if |b| == 3 {
      DecodeThree(b, b[0] as int - 0xE0, Payload(b[1]), Payload(b[2]));
    } else if |b| == 4 {
      DecodeFour(b, b[0] as int - 0xF0, Payload(b[1]), Payload(b[2]), Payload(b[3]));
    } else {
      assert Encode(Decode(b)) == b;
    }
  }

  lemma DecodeThree(b: string, z: nat, y: nat, x: nat)
    requires IsWellFormed(b) && |b| == 3
    requires z == b[0] as int - 0xE0 && y == Payload(b[1]) && x == Payload(b[2])
    ensures IsScalarValue(Decode(b)) && Encode(Decode(b)) == b
  {
    SixBitDigits(z, y, x);
    var cp := z * 0x1000 + y * 0x40 + x;
    assert Decode(b) == cp && 0x800 <= cp <= 0xFFFF;
    assert Continuation(cp / 0x40) == b[1] && Continuation(cp) == b[2];
  }

  lemma DecodeFour(b: string, w: nat, z: nat, y: nat, x: nat)
    requires IsWellFormed(b) && |b| == 4
    requires w == b[0] as int - 0xF0 && z == Payload(b[1]) && y == Payload(b[2]) && x == Payload(b[3])
    ensures IsScalarValue(Decode(b)) && Encode(Decode(b)) == b
  {
    var high := w * 0x40 + z;
    SixBitDigits(high, y, x);
    var cp := high * 0x1000 + y * 0x40 + x;
    assert Decode(b) == cp && 0x1_0000 <= cp <= 0x10_FFFF;
    assert cp / 0x4_0000 == high / 0x40 == w;
    assert Continuation(cp / 0x1000) == b[1];
    assert Continuation(cp / 0x40) == b[2] && Continuation(cp) == b[3];
  }

  lemma SixBitDigits(z: nat, y: nat, x: nat)
    requires y < 0x40 && x < 0x40
    ensures var n := z * 0x1000 + y * 0x40 + x;
      n % 0x40 == x && (n / 0x40) % 0x40 == y && n / 0x1000 == z && n / 0x40 == z * 0x40 + y
  {
    var n := z * 0x1000 + y * 0x40 + x;
    assert n == (z * 0x40 + y) * 0x40 + x;
    assert n / 0x40 == z * 0x40 + y;
    assert n / 0x1000 == (n / 0x40) / 0x40;
  }

  // A code unit is a surrogate exactly when its encoding is ill-formed.
  lemma EncodeIsWellFormedOnlyForScalars(cp: nat)
    ensures IsScalarValue(cp) <==> IsWellFormed(Encode(cp))
  {
    if IsScalarValue(cp) {
      EncodeIsWellFormed(cp);
    }
  }
}
