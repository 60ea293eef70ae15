/** Loading and storing words at any byte address with the left/right instruction pairs. */
module Unaligned {
  import opened Words

  type BytePos = b: nat | b < 4
  type Octet = x: nat | x < 0x100

  /** 256^k. */
  function Scale(k: nat): nat
    requires k <= 4
  {
    match k case 0 => 1 case 1 => 0x100 case 2 => 0x1_0000 case 3 => 0x100_0000 case 4 => TWO32
  }

  function Byte(w: Word, k: BytePos): Octet { w / Scale(k) % 0x100 }

  /** `w << 8k` and the `k` low bytes of `w`. */
  function Up(w: Word, k: nat): Word
    requires k <= 3
  {
    match k case 0 => w case 1 => w * 0x100 % TWO32 case 2 => w * 0x1_0000 % TWO32 case 3 => w * 0x100_0000 % TWO32
  }

  function Low(w: Word, k: nat): Word
    requires k <= 3
  {
    match k case 0 => 0 case 1 => w % 0x100 case 2 => w % 0x1_0000 case 3 => w % 0x100_0000
  }

  /** `w >> 8k`, and `w` with all but its `k` high bytes cleared. */
  function Down(w: Word, k: nat): Word
    requires k <= 3
  {
    match k case 0 => w case 1 => w / 0x100 case 2 => w / 0x1_0000 case 3 => w / 0x100_0000
  }

  function High(w: Word, k: nat): Word
    requires k <= 3
  {
    match k case 0 => 0 case 1 => w / 0x100_0000 * 0x100_0000 case 2 => w / 0x1_0000 * 0x1_0000 case 3 => w / 0x100 * 0x100
  }

  /** The partial overlap of LWL/LWR and SWL/SWR: the two parts share no bit, so their or is their sum. */
  function Merge(dest: Word, src: Word, bytep0: BytePos, loadBig: bool, startLeft: bool): Word {
    var bytep := if loadBig then 3 - bytep0 else bytep0;
    Fits(dest, src, bytep);
    if startLeft then Up(src, 3 - bytep) + Low(dest, 3 - bytep) else High(dest, bytep) + Down(src, bytep)
  }

  lemma Fits(dest: Word, src: Word, b: BytePos)
    ensures Up(src, 3 - b) + Low(dest, 3 - b) < TWO32
    ensures High(dest, b) + Down(src, b) < TWO32
  {
    UpIs(src);
  }

  lemma UpIs(w: Word)
    ensures w * 0x100_0000 % TWO32 == w % 0x100 * 0x100_0000
    ensures w * 0x1_0000 % TWO32 == w % 0x1_0000 * 0x1_0000
    ensures w * 0x100 % TWO32 == w % 0x100_0000 * 0x100
  {
  }

  function Pack(b0: Octet, b1: Octet, b2: Octet, b3: Octet): Word {
    b0 + b1 * 0x100 + b2 * 0x1_0000 + b3 * 0x100_0000
  }

  lemma PackBytes(b0: Octet, b1: Octet, b2: Octet, b3: Octet)
    ensures var w := Pack(b0, b1, b2, b3);
      Byte(w, 0) == b0 && Byte(w, 1) == b1 && Byte(w, 2) == b2 && Byte(w, 3) == b3
  {
    var w := Pack(b0, b1, b2, b3);
    LowPart8(b0, b1 + b2 * 0x100 + b3 * 0x1_0000);
    LowPart16(b0 + b1 * 0x100, b2 + b3 * 0x100);
    LowPart24(b0 + b1 * 0x100 + b2 * 0x1_0000, b3);
    assert w / 0x100 == b1 + b2 * 0x100 + b3 * 0x1_0000;
    assert w / 0x1_0000 == b2 + b3 * 0x100;
    assert w / 0x100_0000 == b3;
    LowPart8(b1, b2 + b3 * 0x100);
    LowPart8(b2, b3);
  }

  lemma WordIsPack(w: Word)
    ensures w == Pack(Byte(w, 0), Byte(w, 1), Byte(w, 2), Byte(w, 3))
  {
    var q1 := w / 0x100;
    var q2 := q1 / 0x100;
    var q3 := q2 / 0x100;
    assert w / 0x1_0000 == q2 && w / 0x100_0000 == q3;
    assert w == w % 0x100 + q1 * 0x100 && q1 == q1 % 0x100 + q2 * 0x100 && q2 == q2 % 0x100 + q3 * 0x100;
  }

  lemma SameBytes(v: Word, w: Word)
    requires forall k: BytePos :: Byte(v, k) == Byte(w, k)
    ensures v == w
  {
    WordIsPack(v);
    WordIsPack(w);
  }

  /** Low bytes of `s` move up over the low bytes of `d`. */
  lemma ShiftLeftPacks(d0: Octet, d1: Octet, d2: Octet, d3: Octet, s0: Octet, s1: Octet, s2: Octet, s3: Octet)
    ensures var d: int, s: int := Pack(d0, d1, d2, d3), Pack(s0, s1, s2, s3);
      && s * 0x100 % TWO32 + d % 0x100 == Pack(d0, s0, s1, s2)
      && s * 0x1_0000 % TWO32 + d % 0x1_0000 == Pack(d0, d1, s0, s1)
      && s * 0x100_0000 % TWO32 + d % 0x100_0000 == Pack(d0, d1, d2, s0)
  {
    LowPacks(d0, d1, d2, d3);
    HighPacks(s0, s1, s2, s3);
  }

  lemma LowPacks(d0: Octet, d1: Octet, d2: Octet, d3: Octet)
    ensures var d := Pack(d0, d1, d2, d3);
      d % 0x100 == d0 && d % 0x1_0000 == d0 + d1 * 0x100 && d % 0x100_0000 == d0 + d1 * 0x100 + d2 * 0x1_0000
  {
    LowPart8(d0, d1 + d2 * 0x100 + d3 * 0x1_0000);
    LowPart16(d0 + d1 * 0x100, d2 + d3 * 0x100);
    LowPart24(d0 + d1 * 0x100 + d2 * 0x1_0000, d3);
  }

  lemma LowPart8(x: nat, y: nat)
    requires x < 0x100
    ensures (x + y * 0x100) % 0x100 == x && (x + y * 0x100) / 0x100 == y
  {
  }

  lemma LowPart16(x: nat, y: nat)
    requires x < 0x1_0000
    ensures (x + y * 0x1_0000) % 0x1_0000 == x && (x + y * 0x1_0000) / 0x1_0000 == y
  {
  }

  lemma LowPart24(x: nat, y: nat)
    requires x < 0x100_0000
    ensures (x + y * 0x100_0000) % 0x100_0000 == x && (x + y * 0x100_0000) / 0x100_0000 == y
  {
  }

  lemma HighPacks(s0: Octet, s1: Octet, s2: Octet, s3: Octet)
    ensures var s: int := Pack(s0, s1, s2, s3);
      && s * 0x100 % TWO32 == s0 * 0x100 + s1 * 0x1_0000 + s2 * 0x100_0000
      && s * 0x1_0000 % TWO32 == s0 * 0x1_0000 + s1 * 0x100_0000
      && s * 0x100_0000 % TWO32 == s0 * 0x100_0000
  {
    var s: int := Pack(s0, s1, s2, s3);
    assert s * 0x100 == s0 * 0x100 + s1 * 0x1_0000 + s2 * 0x100_0000 + s3 * TWO32;
    ModDrop(s0 * 0x100 + s1 * 0x1_0000 + s2 * 0x100_0000, s3);
    ModDrop(s0 * 0x1_0000 + s1 * 0x100_0000, s2 + s3 * 0x100);
    ModDrop(s0 * 0x100_0000, s1 + s2 * 0x100 + s3 * 0x1_0000);
  }

  lemma ModDrop(x: Word, y: nat)
    ensures (x + y * TWO32) % TWO32 == x
  {
  }

  lemma ShiftRightPacks(d0: Octet, d1: Octet, d2: Octet, d3: Octet, s0: Octet, s1: Octet, s2: Octet, s3: Octet)
    ensures var d: int, s: int := Pack(d0, d1, d2, d3), Pack(s0, s1, s2, s3);
      && d / 0x100_0000 * 0x100_0000 + s / 0x100 == Pack(s1, s2, s3, d3)
      && d / 0x1_0000 * 0x1_0000 + s / 0x1_0000 == Pack(s2, s3, d2, d3)
      && d / 0x100 * 0x100 + s / 0x100_0000 == Pack(s3, d1, d2, d3)
  {
    var d, s := Pack(d0, d1, d2, d3), Pack(s0, s1, s2, s3);
    assert d / 0x100_0000 == d3 && d / 0x1_0000 == d2 + d3 * 0x100 && d / 0x100 == d1 + d2 * 0x100 + d3 * 0x1_0000;
    assert s / 0x100_0000 == s3 && s / 0x1_0000 == s2 + s3 * 0x100 && s / 0x100 == s1 + s2 * 0x100 + s3 * 0x1_0000;
  }

  /** Which byte of the merge comes from where. */
  function MergedByte(dest: Word, src: Word, b: BytePos, startLeft: bool, k: BytePos): nat {
    if startLeft then (if k >= 3 - b then Byte(src, k - (3 - b)) else Byte(dest, k))
    else (if k + b <= 3 then Byte(src, k + b) else Byte(dest, k))
  }

  /** The merge on packed bytes, `b` being the byte position after the endianness flip. */
  function MergePacked(d0: Octet, d1: Octet, d2: Octet, d3: Octet, s0: Octet, s1: Octet, s2: Octet, s3: Octet,
                       b: BytePos, startLeft: bool): Word {
    if startLeft then
      match b case 0 => Pack(d0, d1, d2, s0) case 1 => Pack(d0, d1, s0, s1) case 2 => Pack(d0, s0, s1, s2) case _ => Pack(s0, s1, s2, s3)
    else
      match b case 0 => Pack(s0, s1, s2, s3) case 1 => Pack(s1, s2, s3, d3) case 2 => Pack(s2, s3, d2, d3) case _ => Pack(s3, d1, d2, d3)
  }

  lemma MergeIsPacked(dest: Word, src: Word, p: BytePos, loadBig: bool, startLeft: bool)
    ensures Merge(dest, src, p, loadBig, startLeft) ==
      MergePacked(Byte(dest, 0), Byte(dest, 1), Byte(dest, 2), Byte(dest, 3),
                  Byte(src, 0), Byte(src, 1), Byte(src, 2), Byte(src, 3), if loadBig then 3 - p else p, startLeft)
  {
    var b: BytePos := if loadBig then 3 - p else p;
    if startLeft { MergeLeft(dest, src, b); } else { MergeRight(dest, src, b); }
  }

  lemma MergeLeft(dest: Word, src: Word, b: BytePos)
    ensures Up(src, 3 - b) + Low(dest, 3 - b) ==
      MergePacked(Byte(dest, 0), Byte(dest, 1), Byte(dest, 2), Byte(dest, 3),
                  Byte(src, 0), Byte(src, 1), Byte(src, 2), Byte(src, 3), b, true)
  {
    var d0, d1, d2, d3 := Byte(dest, 0), Byte(dest, 1), Byte(dest, 2), Byte(dest, 3);
    var s0, s1, s2, s3 := Byte(src, 0), Byte(src, 1), Byte(src, 2), Byte(src, 3);
    hide Byte, Pack;
    WordIsPack(dest);
    WordIsPack(src);
    ShiftLeftPacks(d0, d1, d2, d3, s0, s1, s2, s3);
  }

  lemma MergeRight(dest: Word, src: Word, b: BytePos)
    ensures High(dest, b) + Down(src, b) ==
      MergePacked(Byte(dest, 0), Byte(dest, 1), Byte(dest, 2), Byte(dest, 3),
                  Byte(src, 0), Byte(src, 1), Byte(src, 2), Byte(src, 3), b, false)
  {
    var d0, d1, d2, d3 := Byte(dest, 0), Byte(dest, 1), Byte(dest, 2), Byte(dest, 3);
    var s0, s1, s2, s3 := Byte(src, 0), Byte(src, 1), Byte(src, 2), Byte(src, 3);
    hide Byte, Pack;
    WordIsPack(dest);
    WordIsPack(src);
    ShiftRightPacks(d0, d1, d2, d3, s0, s1, s2, s3);
  }

  lemma MergeBytes(dest: Word, src: Word, p: BytePos, loadBig: bool, startLeft: bool, k: BytePos)
    ensures Byte(Merge(dest, src, p, loadBig, startLeft), k) ==
      MergedByte(dest, src, if loadBig then 3 - p else p, startLeft, k)
  {
    MergeIsPacked(dest, src, p, loadBig, startLeft);
    var d0, d1, d2, d3 := Byte(dest, 0), Byte(dest, 1), Byte(dest, 2), Byte(dest, 3);
    var s0, s1, s2, s3 := Byte(src, 0), Byte(src, 1), Byte(src, 2), Byte(src, 3);
    hide Byte, Pack, Merge;
    PackBytes(s0, s1, s2, s3);
    if startLeft {
      PackBytes(d0, s0, s1, s2); PackBytes(d0, d1, s0, s1); PackBytes(d0, d1, d2, s0);
    } else {
      PackBytes(s1, s2, s3, d3); PackBytes(s2, s3, d2, d3); PackBytes(s3, d1, d2, d3);
    }
  }

  /** The byte at address `x` of a memory of words. */
  function MemByte(mem: seq<Word>, x: nat, big: bool): nat
    requires x < 4 * |mem|
  {
    Byte(mem[x / 4], if big then 3 - x % 4 else x % 4)
  }

  /** Byte `k` of a register, counted from the lowest address it would occupy. */
  function RegByte(r: Word, k: BytePos, big: bool): nat { Byte(r, if big then 3 - k else k) }

  function SWL(mem: seq<Word>, a: nat, r: Word, big: bool): seq<Word>
    requires a < 4 * |mem|
  {
    mem[a / 4 := Merge(mem[a / 4], r, a % 4, !big, false)]
  }

  function SWR(mem: seq<Word>, a: nat, r: Word, big: bool): seq<Word>
    requires a < 4 * |mem|
  {
    mem[a / 4 := Merge(mem[a / 4], r, a % 4, !big, true)]
  }

  function LWL(mem: seq<Word>, a: nat, r: Word, big: bool): Word
    requires a < 4 * |mem|
  {
    Merge(r, mem[a / 4], a % 4, big, true)
  }

  function LWR(mem: seq<Word>, a: nat, r: Word, big: bool): Word
    requires a < 4 * |mem|
  {
    Merge(r, mem[a / 4], a % 4, big, false)
  }

  /** The idiomatic pair: left at the address and right at its last byte, or the other way round. */
  function StorePair(mem: seq<Word>, a: nat, r: Word, big: bool): seq<Word>
    requires a + 3 < 4 * |mem|
  {
    if big then SWR(SWL(mem, a, r, big), a + 3, r, big) else SWL(SWR(mem, a, r, big), a + 3, r, big)
  }

  function LoadPair(mem: seq<Word>, a: nat, r: Word, big: bool): Word
    requires a + 3 < 4 * |mem|
  {
    if big then LWR(mem, a + 3, LWL(mem, a, r, big), big) else LWL(mem, a + 3, LWR(mem, a, r, big), big)
  }

  /** The pair writes exactly the four bytes at the address and leaves every other byte alone. */
  lemma StorePairBytes(mem: seq<Word>, a: nat, r: Word, big: bool, x: nat)
    requires a + 3 < 4 * |mem| && x < 4 * |mem|
    ensures |StorePair(mem, a, r, big)| == |mem|
    ensures MemByte(StorePair(mem, a, r, big), x, big) ==
      if a <= x < a + 4 then RegByte(r, x - a, big) else MemByte(mem, x, big)
  {
    hide Merge, Byte;
    var k := if big then 3 - x % 4 else x % 4;
    if big {
      var m1 := SWL(mem, a, r, big);
      MergeBytes(mem[a / 4], r, a % 4, false, false, k);
      MergeBytes(m1[(a + 3) / 4], r, (a + 3) % 4, false, true, k);
    } else {
      var m1 := SWR(mem, a, r, big);
      MergeBytes(mem[a / 4], r, a % 4, true, true, k);
      MergeBytes(m1[(a + 3) / 4], r, (a + 3) % 4, true, false, k);
    }
  }

  /** The pair reads exactly the four bytes at the address, whatever the register held. */
  lemma LoadPairBytes(mem: seq<Word>, a: nat, r: Word, big: bool, k: BytePos)
    requires a + 3 < 4 * |mem|
    ensures RegByte(LoadPair(mem, a, r, big), k, big) == MemByte(mem, a + k, big)
  {
    hide Merge, Byte;
    var j := if big then 3 - k else k;
    if big {
      MergeBytes(r, mem[a / 4], a % 4, true, true, j);
      MergeBytes(LWL(mem, a, r, big), mem[(a + 3) / 4], (a + 3) % 4, true, false, j);
    } else {
      MergeBytes(r, mem[a / 4], a % 4, false, false, j);
      MergeBytes(LWR(mem, a, r, big), mem[(a + 3) / 4], (a + 3) % 4, false, true, j);
    }
  }

  /** Storing a register at any byte address and loading it back gives the register. */
  lemma UnalignedRoundTrip(mem: seq<Word>, a: nat, r: Word, r0: Word, big: bool)
    requires a + 3 < 4 * |mem|
    ensures |StorePair(mem, a, r, big)| == |mem|
    ensures LoadPair(StorePair(mem, a, r, big), a, r0, big) == r
  {
    hide Byte, StorePair, LoadPair;
    StorePairBytes(mem, a, r, big, a);
    var m := StorePair(mem, a, r, big);
    var v := LoadPair(m, a, r0, big);
    forall k: BytePos ensures Byte(v, k) == Byte(r, k) {
      var j := if big then 3 - k else k;
      LoadPairBytes(m, a, r0, big, j);
      StorePairBytes(mem, a, r, big, a + j);
    }
    SameBytes(v, r);
  }
}
