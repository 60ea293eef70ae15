/** The 32-bit arithmetic of utility.cc: overflow flags and the 64-bit products. */
module Arithmetic {
  import opened Words

  const TWO31 := 0x8000_0000
  const TWO48 := 0x1_0000_0000_0000

  type SWord = x: int | -TWO31 <= x < TWO31

  /** The unsigned and the signed reading of the same 32 bits. */
  function ToUnsigned(x: SWord): Word { x % TWO32 }

  function ToSigned(w: int): SWord {
    var u := w % TWO32;
    if u < TWO31 then u else u - TWO32
  }

  predicate SignBit(w: Word) { w >= TWO31 }

  method UnsAdd(a1: Word, a2: Word) returns (dest: Word, overflow: bool)
    ensures dest == (a1 + a2) % TWO32
    ensures overflow <==> a1 + a2 != dest
  {
    dest := (a1 + a2) % TWO32;
    overflow := MAX_WORD - a1 < a2;
  }

  method UnsSub(s1: Word, s2: Word) returns (dest: Word, underflow: bool)
    ensures dest == (s1 - s2) % TWO32
    ensures underflow <==> s1 - s2 != dest
  {
    dest := (s1 - s2) % TWO32;
    underflow := s1 < s2;
  }

  /** The flag is raised exactly when the true sum does not fit a signed word. */
  method SignAdd(a1: SWord, a2: SWord) returns (dest: Word, overflow: bool)
    ensures overflow <==> ToSigned(dest) != a1 + a2
    ensures !overflow <==> -TWO31 <= a1 + a2 < TWO31
    ensures dest == (a1 + a2) % TWO32
  {
    dest := (a1 + a2) % TWO32;
    overflow := SignBit(ToUnsigned(a1)) == SignBit(ToUnsigned(a2)) && SignBit(dest) != SignBit(ToUnsigned(a1));
  }

  method SignSub(s1: SWord, s2: SWord) returns (dest: Word, underflow: bool)
    ensures underflow <==> ToSigned(dest) != s1 - s2
    ensures !underflow <==> -TWO31 <= s1 - s2 < TWO31
    ensures dest == (s1 - s2) % TWO32
  {
    dest := (s1 - s2) % TWO32;
    underflow := SignBit(ToUnsigned(s1)) != SignBit(ToUnsigned(s2)) && SignBit(dest) != SignBit(ToUnsigned(s1));
  }

  // ---- multiplication ---------------------------------------------------------------

  /** The sum of the middle partial products; its carry past 32 bits is dropped by UnsMult. */
  function Middle(m1: Word, m2: Word): nat {
    var a, b, c, d := m1 / TWO16, m1 % TWO16, m2 / TWO16, m2 % TWO16;
    MulNonNeg(a, d);
    MulNonNeg(b, c);
    MulNonNeg(b, d);
    a * d + b * c + b * d / TWO16
  }

  function LostCarry(m1: Word, m2: Word): nat { Middle(m1, m2) / TWO32 }

  lemma MulNonNeg(x: nat, y: nat)
    ensures x * y >= 0
  {
  }

  lemma MulBound(x: nat, y: nat, m: nat, n: nat)
    requires x <= m && y <= n
    ensures 0 <= x * y <= m * n
  {
    assert x * y <= m * y;
    assert m * y <= m * n;
  }

  /** The carry is one bit at most, and none for operands up to 2^31. */
  lemma LostCarryBound(m1: Word, m2: Word)
    ensures LostCarry(m1, m2) <= 1
    ensures m1 <= TWO31 && m2 <= TWO31 ==> LostCarry(m1, m2) == 0
  {
    var a, b, c, d := m1 / TWO16, m1 % TWO16, m2 / TWO16, m2 % TWO16;
    MulBound(a, d, 0xFFFF, 0xFFFF);
    MulBound(b, c, 0xFFFF, 0xFFFF);
    MulBound(b, d, 0xFFFF, 0xFFFF);
    if m1 <= TWO31 && m2 <= TWO31 {
      assert a <= 0x8000 && c <= 0x8000;
      MulBound(a, d, 0x8000, 0xFFFF);
      MulBound(b, c, 0xFFFF, 0x8000);
      if a == 0x8000 { assert b == 0; assert b * c == 0 && b * d == 0; }
      else { MulBound(a, d, 0x7FFF, 0xFFFF); }
      if c == 0x8000 { assert d == 0; assert a * d == 0 && b * d == 0; }
      else { MulBound(b, c, 0xFFFF, 0x7FFF); }
    }
  }

  /** There are operands for which the carry is lost. */
  lemma CarryIsLost()
    ensures LostCarry(MAX_WORD, MAX_WORD) == 1
  {
  }

  lemma ProductByHalves(m1: Word, m2: Word)
    ensures var a, b, c, d := m1 / TWO16, m1 % TWO16, m2 / TWO16, m2 % TWO16;
      m1 * m2 == a * c * TWO32 + (a * d + b * c) * TWO16 + b * d
  {
    var a, b, c, d := m1 / TWO16, m1 % TWO16, m2 / TWO16, m2 % TWO16;
    assert m1 == a * TWO16 + b && m2 == c * TWO16 + d;
    calc {
      m1 * m2;
      (a * TWO16 + b) * (c * TWO16 + d);
      a * TWO16 * (c * TWO16) + a * TWO16 * d + b * (c * TWO16) + b * d;
      { assert a * TWO16 * (c * TWO16) == a * c * TWO32; assert a * TWO16 * d == a * d * TWO16; assert b * (c * TWO16) == b * c * TWO16; }
      a * c * TWO32 + (a * d + b * c) * TWO16 + b * d;
    }
  }

  lemma SumOfParts(ac: int, mid: int, bd: int, s: int, c: int, y: int, yh: int, yl: int, bh: int, bl: int)
    requires bd == bh * TWO16 + bl && s == mid + bh && s == c * TWO32 + y && y == yh * TWO16 + yl
    ensures (yh + ac) * TWO32 + (bl + yl * TWO16) == ac * TWO32 + mid * TWO16 + bd - c * TWO48
  {
  }

  /** Cutting both parts of a sum to 32 bits before adding them changes nothing. */
  lemma MiddleSum(mid: nat, bd: nat)
    requires bd <= 0xFFFE_0001
    ensures bd % TWO32 == bd && bd / TWO16 % TWO16 == bd / TWO16
    ensures (bd / TWO16 + mid % TWO32) % TWO32 == (mid + bd / TWO16) % TWO32
  {
  }

  /** Putting the partial products together, with the carry of the middle sum dropped. */
  lemma HalvesAddUp(ac: nat, mid: nat, bd: nat)
    requires ac <= 0xFFFE_0001 && bd <= 0xFFFE_0001
    ensures var s := mid + bd / TWO16; var y := (bd % TWO32 / TWO16 % TWO16 + mid % TWO32) % TWO32;
      && y == s - s / TWO32 * TWO32
      && (y / TWO16 % TWO16 + ac) % TWO32 * TWO32 + (bd % TWO32 % TWO16 + y % TWO16 * TWO16)
         == ac * TWO32 + mid * TWO16 + bd - s / TWO32 * TWO48
  {
    MiddleSum(mid, bd);
    var s := mid + bd / TWO16;
    var y := s % TWO32;
    var yh, yl := y / TWO16, y % TWO16;
    assert yh % TWO16 == yh && (yh + ac) % TWO32 == yh + ac;
    SumOfParts(ac, mid, bd, s, s / TWO32, y, yh, yl, bd / TWO16, bd % TWO16);
  }

  lemma CarryIs(m1: Word, m2: Word)
    ensures var a, b, c, d := m1 / TWO16, m1 % TWO16, m2 / TWO16, m2 % TWO16;
      Middle(m1, m2) == a * d + b * c + b * d / TWO16
    ensures LostCarry(m1, m2) == Middle(m1, m2) / TWO32
    ensures LostCarry(m1, m2) * TWO48 == 0 <==> Middle(m1, m2) < TWO32
  {
  }

  /** The product comes out exact but for the lost carry, worth 2^48. */
  method UnsMult(m1: Word, m2: Word) returns (hi: Word, lo: Word)
    ensures hi * TWO32 + lo == m1 * m2 - LostCarry(m1, m2) * TWO48
    ensures hi * TWO32 + lo == m1 * m2 <==> Middle(m1, m2) < TWO32
  {
    hide Middle, LostCarry;
    var a, b := m1 / TWO16, m1 % TWO16;
    var c, d := m2 / TWO16, m2 % TWO16;
    MulBound(b, d, 0xFFFF, 0xFFFF);
    MulBound(a, c, 0xFFFF, 0xFFFF);
    MulNonNeg(a, d);
    MulNonNeg(b, c);
    CarryIs(m1, m2);
    lo := b * d % TWO32;
    var x := (a * d + b * c) % TWO32;
    var y := (lo / TWO16 % TWO16 + x) % TWO32;
    HalvesAddUp(a * c, a * d + b * c, b * d);
    lo := lo % TWO16 + y % TWO16 * TWO16;
    hi := (y / TWO16 % TWO16 + a * c) % TWO32;
    ProductByHalves(m1, m2);
  }

  /** Wrapping negation of a signed word. */
  function Negate(x: SWord): SWord { ToSigned(0 - (x as int)) }

  /** |x|, which wrapping negation gives when read as unsigned. */
  function Magnitude(x: SWord): Word { if x < 0 then 0 - (x as int) else x }

  lemma MagnitudeProduct(x: SWord, y: SWord)
    ensures Magnitude(x) * Magnitude(y) == if (x < 0) != (y < 0) then 0 - (x as int) * y else (x as int) * y
    ensures 0 <= Magnitude(x) * Magnitude(y) <= 0x4000_0000_0000_0000
  {
    MulBound(Magnitude(x), Magnitude(y), TWO31, TWO31);
  }

  /** Both halves complemented, then one added with its carry. */
  function Complement(h: Word, l: Word): (Word, Word) {
    var l1 := (MAX_WORD - l + 1) % TWO32;
    (if MAX_WORD - l + 1 != l1 then (MAX_WORD - h + 1) % TWO32 else MAX_WORD - h, l1)
  }

  lemma ComplementNegates(h: Word, l: Word, p: int)
    requires h * TWO32 + l == p && 0 <= p <= 0x4000_0000_0000_0000
    ensures var (h1, l1) := Complement(h, l); ToSigned(h1) * TWO32 + l1 == 0 - p
  {
  }

  lemma SmallReads(h: Word, l: Word, p: int)
    requires h * TWO32 + l == p && 0 <= p <= 0x4000_0000_0000_0000
    ensures ToSigned(h) * TWO32 + l == p
  {
  }

  lemma MagnitudeIs(x: SWord)
    ensures ToUnsigned(if x < 0 then Negate(x) else x) == Magnitude(x) <= TWO31
  {
  }

  lemma SameBitsBack(w: Word)
    ensures ToUnsigned(ToSigned(w)) == w
  {
  }

  /** Reading the product of the magnitudes as a signed 64-bit value. */
  lemma SignedResult(m1: SWord, m2: SWord, h: Word, l: Word)
    requires h * TWO32 + l == Magnitude(m1) * Magnitude(m2)
    ensures var (h1, l1) := if (m1 < 0) != (m2 < 0) then Complement(h, l) else (h, l);
      ToSigned(h1) * TWO32 + ToUnsigned(ToSigned(l1)) == (m1 as int) * m2
  {
    MagnitudeProduct(m1, m2);
    var p: int := h * TWO32 + l;
    ComplementNegates(h, l, p);
    SmallReads(h, l, p);
    SameBitsBack(Complement(h, l).1);
    SameBitsBack(l);
  }

  /** The signed product is exact for every pair of operands. */
  method SignMult(m1: SWord, m2: SWord) returns (hi: SWord, lo: SWord)
    ensures hi * TWO32 + ToUnsigned(lo) == (m1 as int) * m2
  {
    var n1, n2, negResult := m1, m2, false;
    if n1 < 0 {
      negResult := !negResult;
      n1 := Negate(n1);
    }
    if n2 < 0 {
      negResult := !negResult;
      n2 := Negate(n2);
    }
    MagnitudeIs(m1);
    MagnitudeIs(m2);
    var h, l := UnsMult(ToUnsigned(n1), ToUnsigned(n2));
    LostCarryBound(Magnitude(m1), Magnitude(m2));
    SignedResult(m1, m2, h, l);
    if negResult {
      h, l := MAX_WORD - h, MAX_WORD - l;
      var carry;
      l, carry := UnsAdd(l, 1);
      if carry {
        h := (h + 1) % TWO32;
      }
    }
    hi, lo := ToSigned(h), ToSigned(l);
  }
}
