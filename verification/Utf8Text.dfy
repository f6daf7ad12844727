/** What Rust accepts as text: UTF-8 (RFC 3629, section 4), and that this is exactly what encoding
    scalar values gives. */
module Utf8Text {
  import opened ByteOrder

  predicate Tail(b: Byte) { 0x80 <= b <= 0xBF }

  /** What Rust's `String::from_utf8` accepts. */
  predicate Utf8(bs: Key) {
    if bs == [] then true
    else if bs[0] <= 0x7F then Utf8(bs[1..])
    else if 0xC2 <= bs[0] <= 0xDF then |bs| >= 2 && Tail(bs[1]) && Utf8(bs[2..])
    else if 0xE0 <= bs[0] <= 0xEF then
      && |bs| >= 3 && Tail(bs[1]) && Tail(bs[2])
      && (bs[0] == 0xE0 ==> 0xA0 <= bs[1]) && (bs[0] == 0xED ==> bs[1] <= 0x9F)
      && Utf8(bs[3..])
    else if 0xF0 <= bs[0] <= 0xF4 then
      && |bs| >= 4 && Tail(bs[1]) && Tail(bs[2]) && Tail(bs[3])
      && (bs[0] == 0xF0 ==> 0x90 <= bs[1]) && (bs[0] == 0xF4 ==> bs[1] <= 0x8F)
      && Utf8(bs[4..])
    else false
  }

  // ---- the encoding (RFC 3629, section 3) ----

  /** A Unicode scalar value: no surrogates. */
  predicate IsScalar(c: nat) {
    c <= 0x10FFFF && !(0xD800 <= c <= 0xDFFF)
  }

  function Encode(c: nat): (bs: Key)
    requires IsScalar(c)
    ensures bs != []
  {
    if c < 0x80 then [c]
    else if c < 0x800 then [0xC0 + c / 0x40, 0x80 + c % 0x40]
    else if c < 0x1_0000 then [0xE0 + c / 0x1000, 0x80 + c / 0x40 % 0x40, 0x80 + c % 0x40]
    else [0xF0 + c / 0x4_0000, 0x80 + c / 0x1000 % 0x40, 0x80 + c / 0x40 % 0x40, 0x80 + c % 0x40]
  }

  function EncodeAll(cs: seq<nat>): Key
    requires forall c | c in cs :: IsScalar(c)
  {
    if cs == [] then [] else Encode(cs[0]) + EncodeAll(cs[1..])
  }

  lemma EncodedIsText(c: nat, rest: Key)
    requires IsScalar(c)
    ensures Utf8(Encode(c) + rest) <==> Utf8(rest)
  {
    var bs := Encode(c) + rest;
    assert bs[|Encode(c)|..] == rest;
  }

  lemma {:induction false} EncodingIsText(cs: seq<nat>)
    requires forall c | c in cs :: IsScalar(c)
    ensures Utf8(EncodeAll(cs))
  {
    if cs != [] {
      EncodingIsText(cs[1..]);
      EncodedIsText(cs[0], EncodeAll(cs[1..]));
    }
  }

  /** The six bits of a continuation byte. */
  function Low(b: Byte): (d: nat)
    requires Tail(b)
    ensures d < 0x40
  {
    b - 0x80
  }

  lemma TwoBytes(a: nat, b: nat)
    requires b < 0x40
    ensures (a * 0x40 + b) / 0x40 == a && (a * 0x40 + b) % 0x40 == b
  {
  }

  lemma ThreeBytes(a: nat, b: nat, c: nat)
    requires b < 0x40 && c < 0x40
    ensures var n := (a * 0x40 + b) * 0x40 + c;
      n / 0x1000 == a && n / 0x40 % 0x40 == b && n % 0x40 == c
  {
    TwoBytes(a * 0x40 + b, c);
    TwoBytes(a, b);
  }

  lemma FourBytes(a: nat, b: nat, c: nat, d: nat)
    requires b < 0x40 && c < 0x40 && d < 0x40
    ensures var n := ((a * 0x40 + b) * 0x40 + c) * 0x40 + d;
      n / 0x4_0000 == a && n / 0x1000 % 0x40 == b && n / 0x40 % 0x40 == c && n % 0x40 == d
  {
    TwoBytes((a * 0x40 + b) * 0x40 + c, d);
    ThreeBytes(a, b, c);
  }

  /** The first scalar value of a text, and what follows it. */
  lemma Decoded(bs: Key) returns (c: nat, rest: Key)
    requires bs != [] && Utf8(bs)
    ensures IsScalar(c) && Utf8(rest) && bs == Encode(c) + rest
  {
    var a: nat := bs[0];
    if a <= 0x7F {
      c, rest := a, bs[1..];
    } else if a <= 0xDF {
      var x := Low(bs[1]);
      TwoBytes(a - 0xC0, x);
      c, rest := (a - 0xC0) * 0x40 + x, bs[2..];
      assert bs == [bs[0], bs[1]] + rest;
    } else if a <= 0xEF {
      c, rest := DecodedThree(bs);
    } else {
      c, rest := DecodedFour(bs);
    }
  }

  lemma DecodedThree(bs: Key) returns (c: nat, rest: Key)
    requires bs != [] && Utf8(bs) && 0xE0 <= bs[0] <= 0xEF
    ensures IsScalar(c) && Utf8(rest) && bs == Encode(c) + rest
  {
    var a: nat := bs[0];
    var x, y := Low(bs[1]), Low(bs[2]);
    ThreeBytes(a - 0xE0, x, y);
    c, rest := ((a - 0xE0) * 0x40 + x) * 0x40 + y, bs[3..];
    assert bs == [bs[0], bs[1], bs[2]] + rest;
  }

  lemma DecodedFour(bs: Key) returns (c: nat, rest: Key)
    requires bs != [] && Utf8(bs) && 0xF0 <= bs[0]
    ensures IsScalar(c) && Utf8(rest) && bs == Encode(c) + rest
  {
    var a: nat := bs[0];
    var x, y, z := Low(bs[1]), Low(bs[2]), Low(bs[3]);
    FourBytes(a - 0xF0, x, y, z);
    c, rest := (((a - 0xF0) * 0x40 + x) * 0x40 + y) * 0x40 + z, bs[4..];
    assert bs == [bs[0], bs[1], bs[2], bs[3]] + rest;
  }

  /** Every text is an encoding. */
  lemma {:induction false} TextIsEncoding(bs: Key) returns (cs: seq<nat>)
    requires Utf8(bs)
    ensures forall c | c in cs :: IsScalar(c)
    ensures EncodeAll(cs) == bs
    decreases |bs|
  {
    cs := [];
    if bs != [] {
      var c, rest := Decoded(bs);
      var tail := TextIsEncoding(rest);
      cs := [c] + tail;
      assert cs[1..] == tail;
    }
  }

  /** A byte string is text if and only if it encodes some scalar values. */
  lemma TextExact(bs: Key)
    ensures Utf8(bs) <==> exists cs :: (forall c | c in cs :: IsScalar(c)) && EncodeAll(cs) == bs
  {
    if Utf8(bs) {
      var cs := TextIsEncoding(bs);
    }
    forall cs | (forall c | c in cs :: IsScalar(c)) && EncodeAll(cs) == bs ensures Utf8(bs) {
      EncodingIsText(cs);
    }
  }
}
