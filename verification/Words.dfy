/** 32-bit words kept as integers, and the bit helpers of utility.cc on them. */
module Words {

  const TWO16 := 0x1_0000
  const TWO32 := 0x1_0000_0000
  const TWO64 := 0x1_0000_0000_0000_0000
  const MAX_WORD: Word := 0xFFFF_FFFF

  type Word = x: int | 0 <= x < TWO32
  type U64 = x: int | 0 <= x < TWO64

  /** Unsigned 32-bit addition and subtraction wrap. */
  function Add32(a: int, b: int): Word {
    (a + b) % TWO32
  }

  function Sub32(a: int, b: int): Word {
    (a - b) % TWO32
  }

  function Pow2(n: nat): (p: nat)
    ensures p > 0
  {
    if n == 0 then 1 else 2 * Pow2(n - 1)
  }

  /** Bit `i` of `w`, `(w >> i) & 1` in the source. */
  predicate BitVal(w: nat, i: nat)
    decreases i
  {
    if i == 0 then w % 2 == 1 else BitVal(w / 2, i - 1)
  }

  /** `w | (1 << i)`. */
  function SetBit(w: nat, i: nat): nat
    decreases i
  {
    if i == 0 then w - w % 2 + 1 else 2 * SetBit(w / 2, i - 1) + w % 2
  }

  /** `w & ~(1 << i)`. */
  function ResetBit(w: nat, i: nat): nat
    decreases i
  {
    if i == 0 then w - w % 2 else 2 * ResetBit(w / 2, i - 1) + w % 2
  }

  /** Setting or clearing bit `i` decides bit `i` and leaves every other bit alone. */
  lemma {:induction false} SetResetBitVal(w: nat, i: nat, j: nat)
    ensures BitVal(SetBit(w, i), j) <==> i == j || BitVal(w, j)
    ensures BitVal(ResetBit(w, i), j) <==> i != j && BitVal(w, j)
    decreases i
  {
    if i > 0 {
      assert (2 * SetBit(w / 2, i - 1) + w % 2) / 2 == SetBit(w / 2, i - 1);
      assert (2 * ResetBit(w / 2, i - 1) + w % 2) / 2 == ResetBit(w / 2, i - 1);
      if j > 0 {
        SetResetBitVal(w / 2, i - 1, j - 1);
      }
    }
  }

  lemma {:induction false} SetResetBound(w: nat, i: nat, n: nat)
    requires w < Pow2(n) && i < n
    ensures SetBit(w, i) < Pow2(n) && ResetBit(w, i) <= w
    ensures SetBit(w, i) > 0
    decreases i
  {
    if i > 0 {
      SetResetBound(w / 2, i - 1, n - 1);
    }
  }

  lemma Pow2Is32()
    ensures Pow2(32) == TWO32
  {
    assert Pow2(8) == 256;
    assert Pow2(16) == TWO16;
    assert Pow2(24) == 0x100_0000;
  }

  /** SetBit and ResetBit on a 32-bit register. */
  function SetBit32(w: Word, i: nat): (r: Word)
    requires i < 32
    ensures r != 0
    ensures forall j: nat :: BitVal(r, j) <==> i == j || BitVal(w, j)
  {
    Pow2Is32();
    SetResetBound(w, i, 32);
    assert forall j: nat :: BitVal(SetBit(w, i), j) <==> i == j || BitVal(w, j) by {
      forall j: nat ensures BitVal(SetBit(w, i), j) <==> i == j || BitVal(w, j) { SetResetBitVal(w, i, j); }
    }
    SetBit(w, i)
  }

  function ResetBit32(w: Word, i: nat): (r: Word)
    requires i < 32
    ensures forall j: nat :: BitVal(r, j) <==> i != j && BitVal(w, j)
  {
    Pow2Is32();
    SetResetBound(w, i, 32);
    assert forall j: nat :: BitVal(ResetBit(w, i), j) <==> i != j && BitVal(w, j) by {
      forall j: nat ensures BitVal(ResetBit(w, i), j) <==> i != j && BitVal(w, j) { SetResetBitVal(w, i, j); }
    }
    ResetBit(w, i)
  }

  /** A word is zero exactly when none of its bits is set. */
  lemma {:induction false} ZeroIffNoBit(w: nat, n: nat)
    requires w < Pow2(n)
    ensures w == 0 ==> forall i: nat | i < n :: !BitVal(w, i)
    ensures w != 0 ==> exists i: nat | i < n :: BitVal(w, i)
    decreases n
  {
    if n > 0 {
      ZeroIffNoBit(w / 2, n - 1);
      if w == 0 {
        forall i: nat | i < n ensures !BitVal(w, i) {
          if i > 0 { assert !BitVal(w / 2, i - 1); }
        }
      } else {
        var j: nat := if w % 2 == 1 then 0 else
          var i: nat :| i < n - 1 && BitVal(w / 2, i); i + 1;
        assert BitVal(w, j);
      }
    }
  }

  /** Two words with the same bits are the same word. */
  lemma {:induction false} SameBitsSameWord(a: nat, b: nat, n: nat)
    requires a < Pow2(n) && b < Pow2(n)
    requires forall i: nat | i < n :: BitVal(a, i) == BitVal(b, i)
    ensures a == b
    decreases n
  {
    if n > 0 {
      assert BitVal(a, 0) == BitVal(b, 0);
      forall i: nat | i < n - 1 ensures BitVal(a / 2, i) == BitVal(b / 2, i) {
        assert BitVal(a, i + 1) == BitVal(b, i + 1);
      }
      SameBitsSameWord(a / 2, b / 2, n - 1);
    }
  }

  /** Bitwise and. */
  function And(a: nat, b: nat): (r: nat)
    ensures r <= a && r <= b
  {
    if a == 0 || b == 0 then 0 else 2 * And(a / 2, b / 2) + (a % 2) * (b % 2)
  }

  lemma {:induction false} AndBits(a: nat, b: nat, i: nat)
    ensures BitVal(And(a, b), i) <==> BitVal(a, i) && BitVal(b, i)
    decreases i
  {
    if a == 0 || b == 0 {
      ZeroHasNoBit(i);
    } else {
      assert And(a, b) / 2 == And(a / 2, b / 2);
      if i > 0 {
        AndBits(a / 2, b / 2, i - 1);
      }
    }
  }

  lemma {:induction false} ZeroHasNoBit(i: nat)
    ensures !BitVal(0, i)
  {
    if i > 0 {
      ZeroHasNoBit(i - 1);
    }
  }

  /** Bitwise or. */
  function Or(a: nat, b: nat): nat
  {
    if a == 0 then b else if b == 0 then a
    else 2 * Or(a / 2, b / 2) + if a % 2 == 1 || b % 2 == 1 then 1 else 0
  }

  lemma {:induction false} OrBits(a: nat, b: nat, i: nat)
    ensures BitVal(Or(a, b), i) <==> BitVal(a, i) || BitVal(b, i)
    decreases i
  {
    if a == 0 || b == 0 {
      ZeroHasNoBit(i);
    } else {
      assert Or(a, b) / 2 == Or(a / 2, b / 2);
      if i > 0 {
        OrBits(a / 2, b / 2, i - 1);
      }
    }
  }

  lemma {:induction false} OrBound(a: nat, b: nat, n: nat)
    requires a < Pow2(n) && b < Pow2(n)
    ensures Or(a, b) < Pow2(n)
    decreases n
  {
    if a != 0 && b != 0 {
      OrBound(a / 2, b / 2, n - 1);
    }
  }

  lemma {:induction false} HighBitsClear(w: nat, n: nat, i: nat)
    requires w < Pow2(n) && n <= i
    ensures !BitVal(w, i)
    decreases n
  {
    if n == 0 {
      ZeroHasNoBit(i);
    } else {
      HighBitsClear(w / 2, n - 1, i - 1);
    }
  }

  /** `a << n` before truncation. */
  function Shl(a: nat, n: nat): nat {
    if n == 0 then a else 2 * Shl(a, n - 1)
  }

  lemma {:induction false} ShlBits(a: nat, n: nat, i: nat)
    ensures BitVal(Shl(a, n), i) <==> n <= i && BitVal(a, i - n)
    decreases n
  {
    if n > 0 && i > 0 {
      ShlBits(a, n - 1, i - 1);
    }
  }

  lemma {:induction false} OnesBits(n: nat, i: nat)
    ensures BitVal(Pow2(n) - 1, i) <==> i < n
    decreases n
  {
    if n == 0 {
      ZeroHasNoBit(i);
    } else if i > 0 {
      assert (Pow2(n) - 1) / 2 == Pow2(n - 1) - 1;
      OnesBits(n - 1, i - 1);
    }
  }

  /** `a >> n`. */
  function Shr(a: nat, n: nat): nat
    decreases n
  {
    if n == 0 then a else Shr(a / 2, n - 1)
  }

  lemma {:induction false} ShrBits(a: nat, n: nat, i: nat)
    ensures BitVal(Shr(a, n), i) == BitVal(a, n + i)
    decreases n
  {
    if n > 0 {
      ShrBits(a / 2, n - 1, i);
    }
  }

  lemma ShrByte(a: nat)
    ensures Shr(a, 8) == a / 0x100
  {
    var b := a / 2 / 2 / 2 / 2;
    assert Shr(a, 8) == Shr(b, 4) by { assert Shr(a, 8) == Shr(a / 2 / 2, 6) == Shr(b, 4); }
    assert Shr(b, 4) == Shr(b / 2 / 2, 2) == b / 2 / 2 / 2 / 2;
  }

  /** A bit, eight places further down. */
  lemma BytesUp(w: nat, i: nat)
    ensures BitVal(w, 8 + i) == BitVal(w / 0x100, i)
  {
    ShrBits(w, 8, i);
    ShrByte(w);
  }

  lemma DoubleTimes(a: int, p: int)
    ensures a * (2 * p) == 2 * (a * p)
  {
  }

  lemma {:induction false} ShlIsTimes(a: nat, n: nat)
    ensures Shl(a, n) == a * Pow2(n)
  {
    if n > 0 {
      ShlIsTimes(a, n - 1);
      DoubleTimes(a, Pow2(n - 1));
    }
  }

  /** A mask of `n` ones above `z` zeros. */
  lemma FieldBits(n: nat, z: nat, i: nat)
    ensures BitVal(Shl(Pow2(n) - 1, z), i) <==> z <= i < z + n
  {
    ShlBits(Pow2(n) - 1, z, i);
    if z <= i {
      OnesBits(n, i - z);
    }
  }

  function Or32(a: Word, b: Word): (r: Word)
    ensures forall i: nat :: BitVal(r, i) <==> BitVal(a, i) || BitVal(b, i)
  {
    Pow2Is32();
    OrBound(a, b, 32);
    assert forall i: nat :: BitVal(Or(a, b), i) <==> BitVal(a, i) || BitVal(b, i) by {
      forall i: nat ensures BitVal(Or(a, b), i) <==> BitVal(a, i) || BitVal(b, i) { OrBits(a, b, i); }
    }
    Or(a, b)
  }

  function And32(a: Word, b: Word): (r: Word)
    ensures r <= a && r <= b
    ensures forall i: nat :: BitVal(r, i) <==> BitVal(a, i) && BitVal(b, i)
  {
    assert forall i: nat :: BitVal(And(a, b), i) <==> BitVal(a, i) && BitVal(b, i) by {
      forall i: nat ensures BitVal(And(a, b), i) <==> BitVal(a, i) && BitVal(b, i) { AndBits(a, b, i); }
    }
    And(a, b)
  }

  lemma ResetBitOfZero(i: nat)
    requires i < 32
    ensures ResetBit32(0, i) == 0
  {
    Pow2Is32();
    ZeroIffNoBit(ResetBit32(0, i), 32);
    forall j: nat ensures !BitVal(0, j) { ZeroHasNoBit(j); }
  }

  lemma {:induction false} NotBelow(n: nat, d: nat)
    requires d > 0
    ensures n * d >= n
  {
    if d > 1 { NotBelow(n, d - 1); }
  }

  /** A quotient and a remainder are the only ones. */
  lemma OneQuotient(n: nat, q: int, m: nat, p: int, r: nat)
    requires m < n && r < n && n * q + m == n * p + r
    ensures q == p && m == r
  {
    var d: nat := if q > p then q - p else p - q;
    assert n * d == if q > p then r - m else m - r;
    if d > 0 { NotBelow(n, d); }
  }

  // ---- fields of a word, by arithmetic ------------------------------------------------

  lemma HalfMod(w: nat, m: nat)
    requires m > 0
    ensures w % (2 * m) == 2 * (w / 2 % m) + w % 2
  {
    var q, r := w / 2 / m, w / 2 % m;
    assert 2 * m * q == 2 * (m * q);
    OneQuotient(2 * m, w / (2 * m), w % (2 * m), q, 2 * r + w % 2);
  }

  /** The remainder by a power of two keeps the low bits. */
  lemma {:induction false} ModBits(w: nat, n: nat, i: nat)
    ensures BitVal(w % Pow2(n), i) <==> i < n && BitVal(w, i)
    decreases n
  {
    if n == 0 {
      ZeroHasNoBit(i);
    } else {
      HalfMod(w, Pow2(n - 1));
      assert w % Pow2(n) / 2 == w / 2 % Pow2(n - 1);
      if i > 0 { ModBits(w / 2, n - 1, i - 1); }
    }
  }

  lemma HalfDiv(w: nat, m: nat)
    requires m > 0
    ensures w / (2 * m) == w / 2 / m
  {
    var q, r := w / 2 / m, w / 2 % m;
    assert 2 * m * q == 2 * (m * q);
    OneQuotient(2 * m, w / (2 * m), w % (2 * m), q, 2 * r + w % 2);
  }

  lemma {:induction false} ShrIsDiv(w: nat, z: nat)
    ensures Shr(w, z) == w / Pow2(z)
    decreases z
  {
    if z > 0 {
      ShrIsDiv(w / 2, z - 1);
      HalfDiv(w, Pow2(z - 1));
    }
  }

  lemma AndOdd(x: nat, m: nat)
    ensures And(x, 2 * m + 1) == 2 * And(x / 2, m) + x % 2
  {
    assert (2 * m + 1) / 2 == m && (2 * m + 1) % 2 == 1;
  }

  lemma {:induction false} LowOnes(x: nat, n: nat)
    ensures And(x, Pow2(n) - 1) == x % Pow2(n)
    decreases n
  {
    hide And;
    if n > 0 {
      HalfMod(x, Pow2(n - 1));
      AndOdd(x, Pow2(n - 1) - 1);
      LowOnes(x / 2, n - 1);
    } else {
      NoOnes(x);
    }
  }

  lemma NoOnes(x: nat)
    ensures And(x, 0) == 0
  {
  }

  lemma AndTwice(x: nat, m: nat)
    ensures And(x, 2 * m) == 2 * And(x / 2, m)
  {
    assert 2 * m / 2 == m && x % 2 * (2 * m % 2) == 0;
  }

  lemma {:induction false} AndShifted(x: nat, m: nat, z: nat)
    ensures And(x, Shl(m, z)) == Shl(And(Shr(x, z), m), z)
    decreases z
  {
    hide And;
    if z > 0 {
      AndTwice(x, Shl(m, z - 1));
      AndShifted(x / 2, m, z - 1);
    }
  }

  /** Masking with `n` ones above `z` zeros. */
  lemma AndField(x: nat, n: nat, z: nat)
    ensures And(x, Shl(Pow2(n) - 1, z)) == x / Pow2(z) % Pow2(n) * Pow2(z)
  {
    AndShifted(x, Pow2(n) - 1, z);
    ShrIsDiv(x, z);
    LowOnes(Shr(x, z), n);
    ShlIsTimes(Shr(x, z) % Pow2(n), z);
  }
}
