// The bytes the rewriter takes for UTF-8 are exactly the encodings of Unicode scalar values
// (RFC 3629, sections 3 and 4; utf8.Valid in internal/platform/cachyos/vicinae.go:498).
module Utf8 {
  import opened Cosmic

  predicate IsScalar(v: nat) {
    v < 0x110000 && !(0xD800 <= v < 0xE000)
  }

  // The table of section 3.
  function Encoded(v: nat): Bytes
    requires IsScalar(v)
  {
    if v < 0x80 then [v as byte]
    else if v < 0x800 then [(0xC0 + v / 64) as byte, (0x80 + v % 64) as byte]
    else if v < 0x10000 then [(0xE0 + v / 4096) as byte, (0x80 + v / 64 % 64) as byte, (0x80 + v % 64) as byte]
    else [(0xF0 + v / 262144) as byte, (0x80 + v / 4096 % 64) as byte, (0x80 + v / 64 % 64) as byte, (0x80 + v % 64) as byte]
  }

  ghost function AllEncoded(values: seq<nat>): Bytes
    requires forall v :: v in values ==> IsScalar(v)
  {
    if values == [] then [] else Encoded(values[0]) + AllEncoded(values[1..])
  }

  lemma TwoBytes(v: nat, rest: Bytes)
    requires 0x80 <= v < 0x800
    ensures RuneLength(Encoded(v) + rest) == 2
  {
    assert 2 <= v / 64 < 32;
  }

  lemma ThreeBytes(v: nat, rest: Bytes)
    requires 0x800 <= v < 0x10000 && IsScalar(v)
    ensures RuneLength(Encoded(v) + rest) == 3
  {
    var a, b, c := v / 4096, v / 64 % 64, v % 64;
    assert a < 16 && v / 64 == a * 64 + b && v == a * 4096 + b * 64 + c;
    var s := Encoded(v) + rest;
    assert s[0] == (0xE0 + a) as byte && s[1] == (0x80 + b) as byte && s[2] == (0x80 + c) as byte;
    assert a == 0 ==> b >= 32;
    assert a == 13 ==> b < 32;
  }

  lemma FourBytes(v: nat, rest: Bytes)
    requires 0x10000 <= v < 0x110000
    ensures RuneLength(Encoded(v) + rest) == 4
  {
    var a, b, c, d := v / 262144, v / 4096 % 64, v / 64 % 64, v % 64;
    assert v / 4096 == a * 64 + b && v / 64 == (a * 64 + b) * 64 + c && v == ((a * 64 + b) * 64 + c) * 64 + d;
    var s := Encoded(v) + rest;
    assert a < 5;
    assert s[0] == (0xF0 + a) as byte && s[1] == (0x80 + b) as byte && s[2] == (0x80 + c) as byte && s[3] == (0x80 + d) as byte;
    assert a == 0 ==> b >= 16;
    assert a == 4 ==> b < 16;
  }

  lemma EncodingIsRune(v: nat, rest: Bytes)
    requires IsScalar(v)
    ensures RuneLength(Encoded(v) + rest) == |Encoded(v)|
  {
    if 0x80 <= v < 0x800 { TwoBytes(v, rest); }
    if 0x800 <= v < 0x10000 { ThreeBytes(v, rest); }
    if 0x10000 <= v { FourBytes(v, rest); }
  }

  lemma Joined(a: nat, b: nat, c: nat)
    requires b < 64 && c < 64
    ensures var v := a * 4096 + b * 64 + c; v / 4096 == a && v / 64 % 64 == b && v % 64 == c
  {
    var v := a * 4096 + b * 64 + c;
    assert v / 64 == a * 64 + b;
    assert v / 64 / 64 == v / 4096;
  }

  // What a sequence of bytes accepted as one character encodes.
  lemma RuneIsEncoding(s: Bytes) returns (v: nat)
    requires RuneLength(s) > 0
    ensures IsScalar(v) && Encoded(v) == s[..RuneLength(s)]
  {
    var n := RuneLength(s);
    if n == 1 {
      v := s[0] as nat;
    } else if n == 2 {
      var a, b := s[0] as nat - 0xC0, s[1] as nat - 0x80;
      v := a * 64 + b;
      assert v / 64 == a && v % 64 == b;
    } else if n == 3 {
      v := ThreeByteRune(s);
    } else {
      v := FourByteRune(s);
    }
  }

  lemma ThreeByteRune(s: Bytes) returns (v: nat)
    requires RuneLength(s) == 3
    ensures IsScalar(v) && Encoded(v) == s[..3]
  {
    var a, b, c := s[0] as nat - 0xE0, s[1] as nat - 0x80, s[2] as nat - 0x80;
    v := a * 4096 + b * 64 + c;
    Joined(a, b, c);
    assert a == 0 ==> b >= 32;
    assert a == 13 ==> b < 32;
    assert 0x800 <= v < 0x10000 && !(0xD800 <= v < 0xE000);
  }

  lemma FourByteRune(s: Bytes) returns (v: nat)
    requires RuneLength(s) == 4
    ensures IsScalar(v) && Encoded(v) == s[..4]
  {
    var a, b, c, d := s[0] as nat - 0xF0, s[1] as nat - 0x80, s[2] as nat - 0x80, s[3] as nat - 0x80;
    v := (a * 64 + b) * 4096 + c * 64 + d;
    Joined(a * 64 + b, c, d);
    assert v / 4096 == a * 64 + b;
    assert v / 262144 == v / 4096 / 64 == a && v / 4096 % 64 == b;
    assert a == 0 ==> b >= 16;
    assert a == 4 ==> b < 16;
  }

  lemma {:induction false} EncodingsAreUtf8(values: seq<nat>)
    requires forall v :: v in values ==> IsScalar(v)
    ensures IsUtf8(AllEncoded(values))
  {
    hide Encoded, RuneLength;
    if values != [] {
      var rest := AllEncoded(values[1..]);
      EncodingsAreUtf8(values[1..]);
      EncodingIsRune(values[0], rest);
      EncodingIsNotEmpty(values[0]);
      assert (Encoded(values[0]) + rest)[|Encoded(values[0])|..] == rest;
    }
  }

  lemma EncodingIsNotEmpty(v: nat)
    requires IsScalar(v)
    ensures |Encoded(v)| > 0
  {
  }

  lemma {:induction false} Utf8IsEncodings(s: Bytes) returns (values: seq<nat>)
    requires IsUtf8(s)
    ensures (forall v :: v in values ==> IsScalar(v)) && s == AllEncoded(values)
  {
    hide Encoded, RuneLength;
    if s == [] {
      values := [];
    } else {
      var n := RuneLength(s);
      var v := RuneIsEncoding(s);
      var more := Utf8IsEncodings(s[n..]);
      values := [v] + more;
      assert values[1..] == more && s == s[..n] + s[n..];
    }
  }

  // Bytes are accepted exactly if they encode some Unicode scalar values, one after the other.
  lemma Utf8ExactlyWhen(s: Bytes)
    ensures IsUtf8(s) <==> exists values: seq<nat> :: (forall v :: v in values ==> IsScalar(v)) && s == AllEncoded(values)
  {
    hide IsUtf8, AllEncoded, IsScalar;
    if IsUtf8(s) { var values := Utf8IsEncodings(s); }
    if values: seq<nat> :| (forall v :: v in values ==> IsScalar(v)) && s == AllEncoded(values) { EncodingsAreUtf8(values); }
  }
}
