/** Four-byte words in either byte order, and the padding that keeps fields aligned. */
module Wire {
  import opened Base

  function Power256(n: nat): (p: nat)
    ensures p > 0
  {
    if n == 0 then 1 else 256 * Power256(n - 1)
  }

  /** The `n` least significant base-256 digits of `v`, least significant first. */
  function Digits(v: nat, n: nat): (ds: seq<byte>)
    ensures |ds| == n
  {
    if n == 0 then [] else [(v % 256) as byte] + Digits(v / 256, n - 1)
  }

  function Weigh(ds: seq<byte>): nat
  {
    if ds == [] then 0 else ds[0] as int + 256 * Weigh(ds[1..])
  }

  lemma {:induction false} DigitsWeigh(v: nat, n: nat)
    requires v < Power256(n)
    ensures Weigh(Digits(v, n)) == v
  {
    if n > 0 {
      DigitsWeigh(v / 256, n - 1);
      assert Digits(v, n)[1..] == Digits(v / 256, n - 1);
    }
  }

  lemma {:induction false} WeighDigits(ds: seq<byte>)
    ensures Weigh(ds) < Power256(|ds|)
    ensures Digits(Weigh(ds), |ds|) == ds
  {
    if ds != [] {
      WeighDigits(ds[1..]);
      assert ds == [ds[0]] + ds[1..];
    }
  }

  lemma Power256Of4()
    ensures Power256(4) == 0x1_0000_0000
  {
    assert Power256(2) == 0x1_0000;
  }

  function Flip(b: seq<byte>): (r: seq<byte>)
    requires |b| == 4
    ensures |r| == 4
  {
    [b[3], b[2], b[1], b[0]]
  }

  /** `to_ne_bytes` on a 32-bit word. */
  function WordBytes(t: Target, v: u32): (b: seq<byte>)
    ensures |b| == 4
    ensures BytesWord(t, b) == v
  {
    Power256Of4();
    DigitsWeigh(v, 4);
    var ds := Digits(v, 4);
    assert Flip(Flip(ds)) == ds;
    if t.bigEndian then Flip(ds) else ds
  }

  /** `from_ne_bytes` on a 32-bit word. */
  function BytesWord(t: Target, b: seq<byte>): u32
    requires |b| == 4
  {
    var ds := if t.bigEndian then Flip(b) else b;
    Power256Of4();
    WeighDigits(ds);
    Weigh(ds)
  }

  /** Every four bytes are the encoding of the word they decode to. */
  lemma WordBytesCanonical(t: Target, b: seq<byte>)
    requires |b| == 4
    ensures WordBytes(t, BytesWord(t, b)) == b
  {
    var ds := if t.bigEndian then Flip(b) else b;
    WeighDigits(ds);
    assert Flip(Flip(b)) == b;
  }

  /** Byte by byte: the least significant byte comes first on a little-endian target and last on a big-endian one. */
  lemma WordBytesAre(t: Target, v: u32)
    ensures var b := WordBytes(t, v);
            var lowest, low, high, highest := v % 0x100, v / 0x100 % 0x100, v / 0x1_0000 % 0x100, v / 0x100_0000;
            if t.bigEndian
            then b[0] as int == highest && b[1] as int == high && b[2] as int == low && b[3] as int == lowest
            else b[0] as int == lowest && b[1] as int == low && b[2] as int == high && b[3] as int == highest
  {
    var ds := Digits(v, 4);
    assert ds == [(v % 0x100) as byte] + Digits(v / 0x100, 3);
    assert Digits(v / 0x100, 3) == [(v / 0x100 % 0x100) as byte] + Digits(v / 0x1_0000, 2);
    assert Digits(v / 0x1_0000, 2) == [(v / 0x1_0000 % 0x100) as byte] + Digits(v / 0x100_0000, 1);
    assert Digits(v / 0x100_0000, 1) == [(v / 0x100_0000) as byte];
  }

  /** The matching weights. */
  lemma BytesWordIs(t: Target, b: seq<byte>)
    requires |b| == 4
    ensures BytesWord(t, b) ==
            if t.bigEndian
            then b[0] as int * 0x100_0000 + b[1] as int * 0x1_0000 + b[2] as int * 0x100 + b[3] as int
            else b[0] as int + b[1] as int * 0x100 + b[2] as int * 0x1_0000 + b[3] as int * 0x100_0000
  {
    var ds := if t.bigEndian then [b[3], b[2], b[1], b[0]] else b;
    assert Weigh(ds) == ds[0] as int + 0x100 * Weigh(ds[1..]);
    assert Weigh(ds[1..]) == ds[1] as int + 0x100 * Weigh(ds[2..]) by {
      assert ds[1..][1..] == ds[2..];
    }
    assert Weigh(ds[2..]) == ds[2] as int + 0x100 * Weigh(ds[3..]) by {
      assert ds[2..][1..] == ds[3..];
    }
    assert Weigh(ds[3..]) == ds[3] as int;
  }

  /** The two's complement pattern of a signed word, which is congruent to it modulo 2^32, and back. */
  function Unsigned(v: i32): (w: u32)
    ensures (w - v) % 0x1_0000_0000 == 0
  {
    if v < 0 then v + 0x1_0000_0000 else v
  }

  function Signed(v: u32): (r: i32)
    ensures Unsigned(r) == v
  {
    if v < 0x8000_0000 then v else v - 0x1_0000_0000
  }

  /** The least number of zero bytes that brings a field of `n` bytes to a multiple of four. */
  function Pad(n: nat): (p: nat)
    ensures p < 4 && (n + p) % 4 == 0
  {
    if n % 4 == 0 then 0 else 4 - n % 4
  }

  /** Two aligned lengths add up to an aligned length. */
  lemma AlignedSum(a: int, b: int)
    requires a % 4 == 0 && b % 4 == 0
    ensures (a + b) % 4 == 0
  {
  }

  function Zeros(n: nat): (z: seq<byte>)
    ensures |z| == n
    ensures forall i :: 0 <= i < n ==> z[i] == 0
  {
    seq(n, i => 0 as byte)
  }
}
