/** The check that a string makes of its bytes accepts exactly the encodings of sequences of scalar values. */
module Utf8 {
  import opened Base
  import opened Codec

  /** A Unicode scalar value: any code point but the surrogates. */
  predicate IsScalar(c: int)
  {
    0 <= c <= 0xD7FF || 0xE000 <= c <= 0x10FFFF
  }

  /** The octets of one scalar value, in the number of them that section 3 of RFC 3629 gives for its range. */
  function Octets(c: int): (s: seq<byte>)
    requires IsScalar(c)
    ensures 1 <= |s| <= 4
  {
    if c <= 0x7F then [c as byte]
    else if c <= 0x7FF then [(0xC0 + c / 0x40) as byte, (0x80 + c % 0x40) as byte]
    else if c <= 0xFFFF then
      [(0xE0 + c / 0x1000) as byte, (0x80 + c / 0x40 % 0x40) as byte, (0x80 + c % 0x40) as byte]
    else
      [(0xF0 + c / 0x4_0000) as byte, (0x80 + c / 0x1000 % 0x40) as byte, (0x80 + c / 0x40 % 0x40) as byte,
       (0x80 + c % 0x40) as byte]
  }

  predicate AllScalars(cs: seq<int>)
  {
    forall i :: 0 <= i < |cs| ==> IsScalar(cs[i])
  }

  function Utf8Of(cs: seq<int>): seq<byte>
    requires AllScalars(cs)
  {
    if cs == [] then [] else Octets(cs[0]) + Utf8Of(cs[1..])
  }

  lemma TwoAccepted(c: int, rest: seq<byte>)
    requires 0x80 <= c <= 0x7FF
    ensures ValidUtf8(Octets(c) + rest) <==> ValidUtf8(rest)
  {
    var s := Octets(c) + rest;
    assert 2 <= c / 0x40 <= 0x1F;
    assert s[2..] == rest;
  }

  lemma ThreeAccepted(c: int, rest: seq<byte>)
    requires 0x800 <= c <= 0xFFFF && IsScalar(c)
    ensures ValidUtf8(Octets(c) + rest) <==> ValidUtf8(rest)
  {
    var s, high := Octets(c) + rest, c / 0x40;
    assert c / 0x1000 == high / 0x40 && high / 0x40 <= 0xF;
    assert high == high / 0x40 * 0x40 + high % 0x40;
    assert s[3..] == rest;
    hide Octets;
  }

  lemma FourAccepted(c: int, rest: seq<byte>)
    requires 0x1_0000 <= c <= 0x10_FFFF
    ensures ValidUtf8(Octets(c) + rest) <==> ValidUtf8(rest)
  {
    var s, high := Octets(c) + rest, c / 0x1000;
    assert c / 0x4_0000 == high / 0x40 && 0x10 <= high <= 0x10F;
    assert high == high / 0x40 * 0x40 + high % 0x40;
    assert s[4..] == rest;
    hide Octets;
  }

  lemma ScalarAccepted(c: int, rest: seq<byte>)
    requires IsScalar(c)
    ensures ValidUtf8(Octets(c) + rest) <==> ValidUtf8(rest)
  {
    if c <= 0x7F {
      assert (Octets(c) + rest)[1..] == rest;
    } else if c <= 0x7FF {
      TwoAccepted(c, rest);
    } else if c <= 0xFFFF {
      ThreeAccepted(c, rest);
    } else {
      FourAccepted(c, rest);
    }
  }

  lemma {:induction false} EncodedAccepted(cs: seq<int>)
    requires AllScalars(cs)
    ensures ValidUtf8(Utf8Of(cs))
  {
    if cs != [] {
      EncodedAccepted(cs[1..]);
      ScalarAccepted(cs[0], Utf8Of(cs[1..]));
    }
  }

  /** One base-64 digit more. */
  lemma Six(v: nat, z: nat)
    requires z < 0x40
    ensures (v * 0x40 + z) / 0x40 == v && (v * 0x40 + z) % 0x40 == z
  {
  }

  lemma Quotients(c: nat)
    ensures c / 0x1000 == c / 0x40 / 0x40 && c / 0x4_0000 == c / 0x1000 / 0x40
  {
  }

  lemma Sixes(a: nat, x: nat, y: nat, z: nat)
    requires x < 0x40 && y < 0x40 && z < 0x40
    ensures var c := a * 0x4_0000 + x * 0x1000 + y * 0x40 + z;
            && c / 0x4_0000 == a && c / 0x1000 == a * 0x40 + x && c / 0x40 == (a * 0x40 + x) * 0x40 + y
            && c / 0x1000 % 0x40 == x && c / 0x40 % 0x40 == y && c % 0x40 == z
  {
    var u := a * 0x40 + x;
    var v := u * 0x40 + y;
    Six(a, x);
    Six(u, y);
    Six(v, z);
    Quotients(v * 0x40 + z);
  }

  lemma TwoOctets(b: byte, y: byte)
    requires 0xC2 <= b <= 0xDF && 0x80 <= y <= 0xBF
    ensures var c := (b as int - 0xC0) * 0x40 + (y as int - 0x80); IsScalar(c) && Octets(c) == [b, y]
  {
    Sixes(0, 0, b as int - 0xC0, y as int - 0x80);
  }

  lemma ThreeOctets(b: byte, x: byte, y: byte)
    requires 0xE0 <= b <= 0xEF && 0x80 <= x <= 0xBF && 0x80 <= y <= 0xBF
    requires (b == 0xE0 ==> x >= 0xA0) && (b == 0xED ==> x <= 0x9F)
    ensures var c := (b as int - 0xE0) * 0x1000 + (x as int - 0x80) * 0x40 + (y as int - 0x80);
            IsScalar(c) && Octets(c) == [b, x, y]
  {
    Sixes(0, b as int - 0xE0, x as int - 0x80, y as int - 0x80);
  }

  lemma FourOctets(b: byte, w: byte, x: byte, y: byte)
    requires 0xF0 <= b <= 0xF4 && 0x80 <= w <= 0xBF && 0x80 <= x <= 0xBF && 0x80 <= y <= 0xBF
    requires (b == 0xF0 ==> w >= 0x90) && (b == 0xF4 ==> w <= 0x8F)
    ensures var c := (b as int - 0xF0) * 0x4_0000 + (w as int - 0x80) * 0x1000 + (x as int - 0x80) * 0x40
                     + (y as int - 0x80);
            IsScalar(c) && Octets(c) == [b, w, x, y]
  {
    Sixes(b as int - 0xF0, w as int - 0x80, x as int - 0x80, y as int - 0x80);
  }

  /** The scalar value at the front of accepted bytes. */
  lemma FirstScalar(s: seq<byte>) returns (c: int)
    requires s != [] && ValidUtf8(s)
    ensures IsScalar(c) && |Octets(c)| <= |s| && s[..|Octets(c)|] == Octets(c)
    ensures ValidUtf8(s[|Octets(c)|..])
  {
    var b := s[0] as int;
    if b <= 0x7F {
      c := b;
    } else if b <= 0xDF {
      TwoOctets(s[0], s[1]);
      c := (b - 0xC0) * 0x40 + (s[1] as int - 0x80);
    } else if b <= 0xEF {
      ThreeOctets(s[0], s[1], s[2]);
      c := (b - 0xE0) * 0x1000 + (s[1] as int - 0x80) * 0x40 + (s[2] as int - 0x80);
    } else {
      FourOctets(s[0], s[1], s[2], s[3]);
      c := (b - 0xF0) * 0x4_0000 + (s[1] as int - 0x80) * 0x1000 + (s[2] as int - 0x80) * 0x40
           + (s[3] as int - 0x80);
    }
    hide Octets;
  }

  lemma {:induction false} AcceptedEncoded(s: seq<byte>) returns (cs: seq<int>)
    requires ValidUtf8(s)
    ensures AllScalars(cs) && Utf8Of(cs) == s
    decreases |s|
  {
    if s == [] {
      cs := [];
    } else {
      var c := FirstScalar(s);
      var rest := AcceptedEncoded(s[|Octets(c)|..]);
      cs := [c] + rest;
      assert cs[1..] == rest;
    }
  }

  /** `str::from_utf8` accepts exactly the encodings of sequences of scalar values. */
  lemma ValidUtf8Exact(s: seq<byte>)
    ensures ValidUtf8(s) <==> exists cs :: AllScalars(cs) && Utf8Of(cs) == s
  {
    if ValidUtf8(s) {
      var cs := AcceptedEncoded(s);
    }
    forall cs | AllScalars(cs) && Utf8Of(cs) == s ensures ValidUtf8(s) {
      EncodedAccepted(cs);
    }
  }
}
