/** The CRC-32 of section 8 of RFC 1952 as a fold of one step per byte over a 32-bit state. */
module Crc32 {
  import opened Bytes

  /** A 32-bit word, least significant bit first. */
  type Word = s: seq<bool> | |s| == 32 witness seq(32, i => false)

  function Pow2(n: nat): (p: nat)
    ensures p > 0
  {
    if n == 0 then 1 else 2 * Pow2(n - 1)
  }

  lemma Pow2Of32()
    ensures Pow2(32) == 0x1_0000_0000
  {
    assert Pow2(8) == 0x100;
    assert Pow2(16) == 0x1_0000;
    assert Pow2(24) == 0x100_0000;
  }

  /** The low `n` bits of `x`. */
  function Bits(x: nat, n: nat): (s: seq<bool>)
    ensures |s| == n
    decreases n, x
  {
    if n == 0 then [] else [x % 2 == 1] + Bits(x / 2, n - 1)
  }

  function Number(s: seq<bool>): nat {
    if s == [] then 0 else (if s[0] then 1 else 0) + 2 * Number(s[1..])
  }

  lemma {:induction false} NumberBound(s: seq<bool>)
    ensures Number(s) < Pow2(|s|)
  {
    if s != [] {
      NumberBound(s[1..]);
    }
  }

  function Xor(s: Word, t: Word): Word {
    seq(32, i requires 0 <= i < 32 => s[i] != t[i])
  }

  /** 0xEDB88320, the reflected polynomial. */
  const POLYNOMIAL: Word :=
    [false, false, false, false, false, true, false, false,
     true, true, false, false, false, false, false, true,
     false, false, false, true, true, true, false, true,
     true, false, true, true, false, true, true, true]

  const ONES: Word :=
    [true, true, true, true, true, true, true, true,
     true, true, true, true, true, true, true, true,
     true, true, true, true, true, true, true, true,
     true, true, true, true, true, true, true, true]

  function ShiftBit(state: Word): Word {
    var shifted := state[1..] + [false];
    if state[0] then Xor(shifted, POLYNOMIAL) else shifted
  }

  function ShiftBits(state: Word, n: nat): Word {
    if n == 0 then state else ShiftBit(ShiftBits(state, n - 1))
  }

  function Step(state: Word, b: byte): Word {
    ShiftBits(Xor(state, Bits(b, 32)), 8)
  }

  /** `Hasher::update`: absorb `data`, one byte at a time. */
  function Update(state: Word, data: seq<byte>): Word {
    if data == [] then state
    else Step(Update(state, data[..|data| - 1]), data[|data| - 1])
  }

  /** `Hasher::finalize`. */
  function Finalize(state: Word): u32 {
    Pow2Of32();
    NumberBound(Xor(state, ONES));
    Number(Xor(state, ONES))
  }

  /** `crc32fast::hash`: the checksum of a whole buffer in one go. */
  function Hash(data: seq<byte>): u32 {
    Finalize(Update(ONES, data))
  }

  /** Hashing in pieces, as `append` does, equals hashing the concatenation, as `open` does. */
  lemma {:induction false} UpdateConcat(state: Word, a: seq<byte>, b: seq<byte>)
    ensures Update(Update(state, a), b) == Update(state, a + b)
    decreases |b|
  {
    if b == [] {
      assert a + b == a;
    } else {
      var n := |b| - 1;
      assert (a + b)[..|a + b| - 1] == a + b[..n];
      UpdateConcat(state, a, b[..n]);
    }
  }

  lemma {:induction false} BitsOfNumber(s: seq<bool>)
    ensures Bits(Number(s), |s|) == s
  {
    if s != [] {
      BitsOfNumber(s[1..]);
      assert Number(s) / 2 == Number(s[1..]);
    }
  }

  lemma {:induction false} NumberOfBits(x: nat, n: nat)
    requires x < Pow2(n)
    ensures Number(Bits(x, n)) == x
    decreases n
  {
    if n > 0 {
      assert Bits(x, n)[1..] == Bits(x / 2, n - 1);
      NumberOfBits(x / 2, n - 1);
    }
  }

  lemma XorInjective(s: Word, t: Word, c: Word)
    ensures Xor(s, c) == Xor(t, c) ==> s == t
    ensures Xor(c, s) == Xor(c, t) ==> s == t
  {
    assert Xor(c, s) == Xor(s, c) && Xor(c, t) == Xor(t, c);
    if Xor(s, c) == Xor(t, c) {
      assert forall i | 0 <= i < 32 :: s[i] == (Xor(s, c)[i] != c[i]);
      assert forall i | 0 <= i < 32 :: t[i] == (Xor(t, c)[i] != c[i]);
    }
  }

  /** The polynomial has its top bit set, so a shift can be undone. */
  lemma ShiftBitInjective(s: Word, t: Word)
    requires ShiftBit(s) == ShiftBit(t)
    ensures s == t
  {
    assert ShiftBit(s)[31] == s[0] && ShiftBit(t)[31] == t[0];
    var s', t' := s[1..] + [false], t[1..] + [false];
    XorInjective(s', t', POLYNOMIAL);
    assert s == [s[0]] + s'[..31] && t == [t[0]] + t'[..31];
  }

  lemma {:induction false} ShiftBitsInjective(s: Word, t: Word, n: nat)
    requires ShiftBits(s, n) == ShiftBits(t, n)
    ensures s == t
    decreases n
  {
    if n > 0 {
      ShiftBitInjective(ShiftBits(s, n - 1), ShiftBits(t, n - 1));
      ShiftBitsInjective(s, t, n - 1);
    }
  }

  /** One step is injective in the state and in the byte. */
  lemma StepInjective(s: Word, t: Word, a: byte, b: byte)
    ensures Step(s, a) == Step(t, a) ==> s == t
    ensures Step(s, a) == Step(s, b) ==> a == b
  {
    if Step(s, a) == Step(t, a) {
      ShiftBitsInjective(Xor(s, Bits(a, 32)), Xor(t, Bits(a, 32)), 8);
      XorInjective(s, t, Bits(a, 32));
    }
    if Step(s, a) == Step(s, b) {
      ShiftBitsInjective(Xor(s, Bits(a, 32)), Xor(s, Bits(b, 32)), 8);
      XorInjective(Bits(a, 32), Bits(b, 32), s);
      Pow2Of32();
      NumberOfBits(a, 32);
      NumberOfBits(b, 32);
    }
  }

  lemma {:induction false} UpdateInjective(s: Word, t: Word, data: seq<byte>)
    requires s != t
    ensures Update(s, data) != Update(t, data)
    decreases |data|
  {
    if data != [] {
      var n := |data| - 1;
      UpdateInjective(s, t, data[..n]);
      StepInjective(Update(s, data[..n]), Update(t, data[..n]), data[n], data[n]);
    }
  }

  lemma FinalizeInjective(s: Word, t: Word)
    requires Finalize(s) == Finalize(t)
    ensures s == t
  {
    BitsOfNumber(Xor(s, ONES));
    BitsOfNumber(Xor(t, ONES));
    XorInjective(s, t, ONES);
  }

  /** Changing any one byte of a buffer changes its checksum. */
  lemma HashDetectsByteChange(data: seq<byte>, i: nat, b: byte)
    requires i < |data| && b != data[i]
    ensures Hash(data[i := b]) != Hash(data)
  {
    var pre, post := data[..i], data[i + 1..];
    var s := Update(ONES, pre);
    var before, after := pre + [data[i]], pre + [b];
    assert data == before + post && data[i := b] == after + post;
    assert before[..i] == pre && after[..i] == pre;
    StepInjective(s, s, data[i], b);
    UpdateInjective(Update(ONES, before), Update(ONES, after), post);
    UpdateConcat(ONES, before, post);
    UpdateConcat(ONES, after, post);
    if Hash(data[i := b]) == Hash(data) {
      FinalizeInjective(Update(ONES, data[i := b]), Update(ONES, data));
    }
  }

  // ------------------------------------------------------------------ the checksum as a remainder

  // Polynomials over the field of two elements, as their coefficients from the highest power down.

  /** x^32 + x^26 + x^23 + x^22 + x^16 + x^12 + x^11 + x^10 + x^8 + x^7 + x^5 + x^4 + x^2 + x + 1, without x^32. */
  predicate InGenerator(power: int) {
    power in {26, 23, 22, 16, 12, 11, 10, 8, 7, 5, 4, 2, 1, 0}
  }

  /** Long division: bring down the next coefficient, and subtract the divisor when the leading one is set. */
  function BringDown(window: Word, next: bool): Word {
    seq(32, i requires 0 <= i < 32 =>
          (if i < 31 then window[i + 1] else next) != (window[0] && InGenerator(31 - i)))
  }

  /** The remainder of the polynomial that starts with `window` and goes on with `rest`. */
  function Divide(window: Word, rest: seq<bool>): Word
    decreases |rest|
  {
    if rest == [] then window else Divide(BringDown(window, rest[0]), rest[1..])
  }

  function Not(w: Word): Word {
    seq(32, i requires 0 <= i < 32 => !w[i])
  }

  function Zeros(): Word {
    seq(32, i => false)
  }

  /** The bits of a message in the order they are divided: each byte from its least significant bit on. */
  function Message(data: seq<byte>): seq<bool> {
    if data == [] then [] else Message(data[..|data| - 1]) + Bits(data[|data| - 1], 8)
  }

  /** A register that takes one bit at its front. */
  function Front(w: Word, b: bool): Word {
    ShiftBit(w[0 := w[0] != b])
  }

  function FrontAll(w: Word, bits: seq<bool>): Word
    decreases |bits|
  {
    if bits == [] then w else FrontAll(Front(w, bits[0]), bits[1..])
  }

  /** The reflected constant is the generator. */
  lemma PolynomialIsGenerator(i: nat)
    requires i < 32
    ensures POLYNOMIAL[i] == InGenerator(31 - i)
  {}

  lemma ShiftBitAt(w: Word, i: nat)
    requires i < 32
    ensures ShiftBit(w)[i] == ((if i < 31 then w[i + 1] else false) != (w[0] && POLYNOMIAL[i]))
  {}

  /** The window of the division is the register, with the bits it has not taken yet added in. */
  lemma FrontIsBringDown(w: Word, p: seq<bool>)
    requires |p| > 32
    ensures BringDown(Xor(w, p[..32]), p[32]) == Xor(Front(w, p[0]), p[1..33])
  {
    hide ShiftBit;
    var x, y := BringDown(Xor(w, p[..32]), p[32]), Xor(Front(w, p[0]), p[1..33]);
    forall i | 0 <= i < 32
      ensures x[i] == y[i]
    {
      PolynomialIsGenerator(i);
      ShiftBitAt(w[0 := w[0] != p[0]], i);
    }
  }

  lemma {:induction false} FrontAllDivides(w: Word, bits: seq<bool>)
    ensures var p := bits + Zeros(); FrontAll(w, bits) == Divide(Xor(w, p[..32]), p[32..])
    decreases |bits|
  {
    hide BringDown, Front;
    var p := bits + Zeros();
    if bits == [] {
      assert Xor(w, p[..32]) == w;
    } else {
      FrontIsBringDown(w, p);
      FrontAllDivides(Front(w, bits[0]), bits[1..]);
      assert bits[1..] + Zeros() == p[1..];
      assert p[32..][1..] == p[1..][32..] && p[1..33] == p[1..][..32];
    }
  }

  lemma {:induction false} FrontAllConcat(w: Word, a: seq<bool>, b: seq<bool>)
    ensures FrontAll(FrontAll(w, a), b) == FrontAll(w, a + b)
    decreases |a|
  {
    hide Front;
    if a == [] {
      assert a + b == b;
    } else {
      assert (a + b)[1..] == a[1..] + b;
      FrontAllConcat(Front(w, a[0]), a[1..], b);
    }
  }

  lemma {:induction false} ShiftFirst(w: Word, n: nat)
    ensures ShiftBits(ShiftBit(w), n) == ShiftBits(w, n + 1)
  {
    hide ShiftBit;
    if n > 0 {
      ShiftFirst(w, n - 1);
    }
  }

  function Pad(bits: seq<bool>): Word
    requires |bits| <= 32
  {
    seq(32, i requires 0 <= i < 32 => i < |bits| && bits[i])
  }

  /** Adding all bits at once and then shifting is taking them one by one. */
  lemma {:induction false} ShiftsTakeBits(w: Word, bits: seq<bool>)
    requires |bits| <= 32
    ensures ShiftBits(Xor(w, Pad(bits)), |bits|) == FrontAll(w, bits)
    decreases |bits|
  {
    hide ShiftBit, Front;
    var x := Xor(w, Pad(bits));
    if bits == [] {
      assert x == w;
    } else {
      ShiftFirst(x, |bits| - 1);
      ShiftsTakeBits(Front(w, bits[0]), bits[1..]);
      FrontAddsRest(w, bits);
    }
  }

  lemma FrontAddsRest(w: Word, bits: seq<bool>)
    requires 0 < |bits| <= 32
    ensures ShiftBit(Xor(w, Pad(bits))) == Xor(Front(w, bits[0]), Pad(bits[1..]))
  {
    hide ShiftBit;
    var x, y := ShiftBit(Xor(w, Pad(bits))), Xor(Front(w, bits[0]), Pad(bits[1..]));
    forall i | 0 <= i < 32
      ensures x[i] == y[i]
    {
      ShiftBitAt(Xor(w, Pad(bits)), i);
      ShiftBitAt(w[0 := w[0] != bits[0]], i);
    }
  }

  lemma {:induction false} HighBits(x: nat, n: nat, i: nat)
    requires x < Pow2(n) && i < 32 && n <= 32
    ensures Bits(x, 32)[i] == (i < n && Bits(x, n)[i])
  {
    BitsAgree(x, n, 32, i);
  }

  lemma {:induction false} BitsAgree(x: nat, n: nat, m: nat, i: nat)
    requires x < Pow2(n) && i < m && n <= m
    ensures Bits(x, m)[i] == (i < n && Bits(x, n)[i])
    decreases m
  {
    if n == 0 {
      NoBits(m, i);
    } else if i > 0 {
      BitsAgree(x / 2, n - 1, m - 1, i - 1);
    }
  }

  lemma {:induction false} NoBits(m: nat, i: nat)
    requires i < m
    ensures !Bits(0, m)[i]
  {
    if i > 0 {
      NoBits(m - 1, i - 1);
    }
  }

  lemma StepTakesByte(w: Word, b: byte)
    ensures Step(w, b) == FrontAll(w, Bits(b, 8))
  {
    hide ShiftBits, FrontAll, Bits;
    assert Pow2(8) == 256;
    forall i | 0 <= i < 32
      ensures Bits(b, 32)[i] == Pad(Bits(b, 8))[i]
    {
      HighBits(b, 8, i);
    }
    assert Bits(b, 32) == Pad(Bits(b, 8));
    ShiftsTakeBits(w, Bits(b, 8));
  }

  lemma {:induction false} UpdateTakesMessage(w: Word, data: seq<byte>)
    ensures Update(w, data) == FrontAll(w, Message(data))
  {
    hide Step, FrontAll, Bits;
    if data == [] {
      NothingTaken(w);
    } else {
      var n := |data| - 1;
      UpdateTakesMessage(w, data[..n]);
      StepTakesByte(Update(w, data[..n]), data[n]);
      FrontAllConcat(w, Message(data[..n]), Bits(data[n], 8));
    }
  }

  lemma NothingTaken(w: Word)
    ensures FrontAll(w, []) == w
  {}

  /**
   * The checksum is the CRC-32 of the standard: take the message bits followed by 32 zeros, invert the first 32,
   * divide by the generator polynomial, and invert the remainder.
   */
  lemma HashIsRemainder(data: seq<byte>)
    ensures var p := Message(data) + Zeros(); Hash(data) == Number(Not(Divide(Not(p[..32]), p[32..])))
  {
    hide Update, Divide, Message, FrontAll, Number, Xor, Not;
    var p := Message(data) + Zeros();
    UpdateTakesMessage(ONES, data);
    FrontAllDivides(ONES, Message(data));
    XorOnes(p[..32]);
    XorOnes(Update(ONES, data));
  }

  lemma XorOnes(w: Word)
    ensures Xor(w, ONES) == Not(w) && Xor(ONES, w) == Not(w)
  {
    forall i | 0 <= i < 32
      ensures ONES[i]
    {
    }
  }
}
