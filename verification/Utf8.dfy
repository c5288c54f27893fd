/** Well-formed UTF-8 (RFC 3629, section 4), which the parser demands of every string field. */
module Utf8 {
  import opened Wire

  predicate Tail(b: byte) { 0x80 <= b <= 0xBF }

  predicate ValidUtf8(s: bytes) {
    s == []
    || (s[0] < 0x80 && ValidUtf8(s[1..]))
    || (|s| >= 2 && 0xC2 <= s[0] <= 0xDF && Tail(s[1]) && ValidUtf8(s[2..]))
    || (|s| >= 3 && Three(s[0], s[1]) && Tail(s[2]) && ValidUtf8(s[3..]))
    || (|s| >= 4 && Four(s[0], s[1]) && Tail(s[2]) && Tail(s[3]) && ValidUtf8(s[4..]))
  }

  predicate Three(a: byte, b: byte) {
    if a == 0xE0 then 0xA0 <= b <= 0xBF
    else if a == 0xED then 0x80 <= b <= 0x9F
    else 0xE1 <= a <= 0xEF && Tail(b)
  }

  predicate Four(a: byte, b: byte) {
    if a == 0xF0 then 0x90 <= b <= 0xBF
    else if a == 0xF4 then 0x80 <= b <= 0x8F
    else 0xF1 <= a <= 0xF3 && Tail(b)
  }

  /** Unicode scalar values: the code points that are not surrogates. */
  predicate IsScalar(c: nat) { c < 0xD800 || 0xE000 <= c < 0x11_0000 }

  /** The table of RFC 3629, section 3: six bits a continuation byte, most significant first. */
  function EncodeScalar(c: nat): (s: bytes)
    requires IsScalar(c)
  {
    if c < 0x80 then [c]
    else if c < 0x800 then [0xC0 + c / 0x40, 0x80 + c % 0x40]
    else if c < 0x1_0000 then [0xE0 + c / 0x1000, 0x80 + c / 0x40 % 0x40, 0x80 + c % 0x40]
    else [0xF0 + c / 0x4_0000, 0x80 + c / 0x1000 % 0x40, 0x80 + c / 0x40 % 0x40, 0x80 + c % 0x40]
  }

  predicate AllScalars(text: seq<nat>) { forall i :: 0 <= i < |text| ==> IsScalar(text[i]) }

  function EncodeText(text: seq<nat>): bytes
    requires AllScalars(text)
  {
    if text == [] then [] else EncodeScalar(text[0]) + EncodeText(text[1..])
  }

  lemma ValidAfterScalar(c: nat, rest: bytes)
    requires IsScalar(c) && ValidUtf8(rest)
    ensures ValidUtf8(EncodeScalar(c) + rest)
  {
    var e := EncodeScalar(c);
    assert (e + rest)[|e|..] == rest;
    if 0x800 <= c < 0x1_0000 {
      ThreeBytes(c);
    } else if c >= 0x1_0000 {
      FourBytes(c);
    }
  }

  lemma ThreeBytes(c: nat)
    requires IsScalar(c) && 0x800 <= c < 0x1_0000
    ensures Three(0xE0 + c / 0x1000, 0x80 + c / 0x40 % 0x40) && Tail(0x80 + c % 0x40)
  {
  }

  lemma FourBytes(c: nat)
    requires IsScalar(c) && c >= 0x1_0000
    ensures Four(0xF0 + c / 0x4_0000, 0x80 + c / 0x1000 % 0x40) && Tail(0x80 + c / 0x40 % 0x40) && Tail(0x80 + c % 0x40)
  {
  }

  lemma {:induction false} EncodedIsValid(text: seq<nat>)
    requires AllScalars(text)
    ensures ValidUtf8(EncodeText(text))
  {
    if text != [] {
      EncodedIsValid(text[1..]);
      ValidAfterScalar(text[0], EncodeText(text[1..]));
    }
  }

  /** The six bits of a continuation byte. */
  function Low(b: byte): (n: nat)
    requires Tail(b)
    ensures n < 0x40 && b == 0x80 + n
  {
    var n: nat := b;
    n - 0x80
  }

  lemma TwoBytesBack(h: nat, x: nat)
    requires 2 <= h < 0x20 && x < 0x40
    ensures IsScalar(h * 0x40 + x) && EncodeScalar(h * 0x40 + x) == [0xC0 + h, 0x80 + x]
  {
  }

  lemma SixBits(upper: nat, x: nat)
    requires x < 0x40
    ensures (upper * 0x40 + x) / 0x40 == upper && (upper * 0x40 + x) % 0x40 == x
  {
  }

  lemma ThreeBytesBack(h: nat, x: nat, y: nat)
    requires h < 0x10 && x < 0x40 && y < 0x40 && Three(0xE0 + h, 0x80 + x)
    ensures var c := (h * 0x40 + x) * 0x40 + y; IsScalar(c) && EncodeScalar(c) == [0xE0 + h, 0x80 + x, 0x80 + y]
  {
    var upper := h * 0x40 + x;
    SixBits(h, x);
    SixBits(upper, y);
    assert (upper * 0x40 + y) / 0x1000 == upper / 0x40;
  }

  lemma FourBytesBack(h: nat, x: nat, y: nat, z: nat)
    requires h < 8 && x < 0x40 && y < 0x40 && z < 0x40 && Four(0xF0 + h, 0x80 + x)
    ensures var c := ((h * 0x40 + x) * 0x40 + y) * 0x40 + z;
      IsScalar(c) && EncodeScalar(c) == [0xF0 + h, 0x80 + x, 0x80 + y, 0x80 + z]
  {
    var high := h * 0x40 + x;
    var upper := high * 0x40 + y;
    SixBits(h, x);
    SixBits(high, y);
    SixBits(upper, z);
    assert (upper * 0x40 + z) / 0x1000 == upper / 0x40;
    assert (upper * 0x40 + z) / 0x4_0000 == high / 0x40;
  }

  /** The first scalar value of a well-formed text, and what follows it. */
  lemma FirstScalar(s: bytes) returns (c: nat, rest: bytes)
    requires s != [] && ValidUtf8(s)
    ensures IsScalar(c) && s == EncodeScalar(c) + rest && ValidUtf8(rest) && |rest| < |s|
  {
    var lead: nat := s[0];
    if lead < 0x80 {
      c, rest := lead, s[1..];
    } else if lead <= 0xDF {
      c, rest := (lead - 0xC0) * 0x40 + Low(s[1]), s[2..];
      TwoBytesBack(lead - 0xC0, Low(s[1]));
    } else if lead <= 0xEF {
      c, rest := ((lead - 0xE0) * 0x40 + Low(s[1])) * 0x40 + Low(s[2]), s[3..];
      ThreeBytesBack(lead - 0xE0, Low(s[1]), Low(s[2]));
    } else {
      c, rest := (((lead - 0xF0) * 0x40 + Low(s[1])) * 0x40 + Low(s[2])) * 0x40 + Low(s[3]), s[4..];
      FourBytesBack(lead - 0xF0, Low(s[1]), Low(s[2]), Low(s[3]));
    }
    assert s == EncodeScalar(c) + rest;
  }

  lemma {:induction false} ValidIsEncoded(s: bytes) returns (text: seq<nat>)
    requires ValidUtf8(s)
    ensures AllScalars(text) && EncodeText(text) == s
    decreases |s|
  {
    if s == [] {
      text := [];
    } else {
      var c, rest := FirstScalar(s);
      var more := ValidIsEncoded(rest);
      text := [c] + more;
      assert text[1..] == more;
    }
  }

  /** Well-formed are exactly the encodings of sequences of Unicode scalar values. */
  lemma ValidIff(s: bytes)
    ensures ValidUtf8(s) <==> exists text :: AllScalars(text) && EncodeText(text) == s
  {
    if ValidUtf8(s) {
      var text := ValidIsEncoded(s);
    }
    forall text | AllScalars(text) && EncodeText(text) == s ensures ValidUtf8(s) {
      EncodedIsValid(text);
    }
  }
}
