/** Bytes, fixed-width unsigned integers and their little-endian encodings. */
module Bytes {
  type byte = x: int | 0 <= x < 256
  type u32 = x: int | 0 <= x < 0x1_0000_0000
  type u64 = x: int | 0 <= x < 0x1_0000_0000_0000_0000

  function Pow256(n: nat): (p: nat)
    ensures p > 0
  {
    if n == 0 then 1 else 256 * Pow256(n - 1)
  }

  lemma Pow256Values()
    ensures Pow256(2) == 0x1_0000
    ensures Pow256(4) == 0x1_0000_0000
    ensures Pow256(8) == 0x1_0000_0000_0000_0000
  {
    assert Pow256(6) == 256 * (256 * Pow256(4));
    assert Pow256(8) == 256 * (256 * Pow256(6));
  }

  /** The low `n` bytes of `x`, least significant first: a Rust `as` cast to n bytes, then `to_le_bytes`. */
  function LittleEndian(x: nat, n: nat): (s: seq<byte>)
    ensures |s| == n
    decreases n, x
  {
    if n == 0 then [] else [x % 256] + LittleEndian(x / 256, n - 1)
  }

  function FromLittleEndian(s: seq<byte>): nat {
    if s == [] then 0 else s[0] + 256 * FromLittleEndian(s[1..])
  }

  lemma {:induction false} FromLittleEndianBound(s: seq<byte>)
    ensures FromLittleEndian(s) < Pow256(|s|)
  {
    if s != [] {
      FromLittleEndianBound(s[1..]);
    }
  }

  /** Decoding an encoding returns the number exactly when the narrowing cast was lossless. */
  lemma {:induction false} LittleEndianRoundTrip(x: nat, n: nat)
    ensures FromLittleEndian(LittleEndian(x, n)) == x <==> x < Pow256(n)
    decreases n
  {
    if n > 0 {
      var s := LittleEndian(x, n);
      assert s[1..] == LittleEndian(x / 256, n - 1);
      LittleEndianRoundTrip(x / 256, n - 1);
    }
  }

  /** Byte `i` of the encoding is the digit of weight 256^i: the least significant byte comes first. */
  lemma {:induction false} LittleEndianDigit(x: nat, n: nat, i: nat)
    requires i < n
    ensures LittleEndian(x, n)[i] == x / Pow256(i) % 256
    decreases n
  {
    if i > 0 {
      LittleEndianDigit(x / 256, n - 1, i - 1);
      DivideTwice(x, Pow256(i - 1));
    }
  }

  lemma DivideTwice(x: nat, d: nat)
    requires d > 0
    ensures x / (256 * d) == x / 256 / d
  {
    var q := x / 256 / d;
    assert q * d <= x / 256 < q * d + d;
    assert q * (256 * d) == 256 * (q * d);
    QuotientUnique(x, 256 * d, q);
  }

  lemma QuotientUnique(x: nat, d: nat, q: nat)
    requires d > 0 && q * d <= x < q * d + d
    ensures x / d == q
  {
    var k := x / d;
    assert k * d <= x < k * d + d;
    NextMultiple(k, q, d);
    NextMultiple(q, k, d);
  }

  lemma {:induction false} NextMultiple(a: nat, b: nat, d: nat)
    ensures a < b ==> a * d + d <= b * d
    decreases b
  {
    if a < b {
      assert b * d == (b - 1) * d + d;
      NextMultiple(a, b - 1, d);
    }
  }

  lemma {:induction false} EncodeDecoded(s: seq<byte>)
    ensures LittleEndian(FromLittleEndian(s), |s|) == s
  {
    if s != [] {
      EncodeDecoded(s[1..]);
      var x := FromLittleEndian(s);
      assert x / 256 == FromLittleEndian(s[1..]) && x % 256 == s[0];
    }
  }

  /** Little-endian decoding is injective on sequences of one length. */
  lemma FromLittleEndianInjective(s: seq<byte>, t: seq<byte>)
    requires |s| == |t| && FromLittleEndian(s) == FromLittleEndian(t)
    ensures s == t
  {
    EncodeDecoded(s);
    EncodeDecoded(t);
  }
}
