/**
 * The 32-bit integer operators of JavaScript that the generator and the seed
 * hash rely on. A `Word` is the uint32 a JavaScript bit operator works on
 * (the int32 it reads has the same 32 bits, `Signed` gives its value).
 *
 * `Math.imul`, `|0` after `+`, `<<` and `>>>0` wrap modulo 2^32; `^` and `|`
 * work bit by bit. JavaScript's `>>` is the sign-propagating shift: the
 * floor of the int32 divided by 2^n, which is `Sar` here and not `Shr`
 * (`>>>`). A `(x<<n)|(x>>m)` written with it is `JsRotl`, a rotation only
 * when the sign bit is clear.
 */
module Int32 {

  type Word = x: int | 0 <= x < 0x1_0000_0000

  function Pow2(n: nat): (r: nat)
    ensures r >= 1
  {
    if n == 0 then 1 else 2 * Pow2(n - 1)
  }

  /** JavaScript's ToUint32: the integer modulo 2^32. */
  function Wrap(x: int): Word {
    x % 0x1_0000_0000
  }

  /** The int32 with the bits of `x` (JavaScript's ToInt32 of it). */
  function Signed(x: Word): int {
    if x < 0x8000_0000 then x else x - 0x1_0000_0000
  }

  /** `(x + y)|0`, read back as uint32. */
  function Add(x: Word, y: Word): Word {
    Wrap(x + y)
  }

  /** `Math.imul(x, y)`, read back as uint32. */
  function Mul(x: Word, y: Word): Word {
    Wrap(x * y)
  }

  /** `x << n`. */
  function Shl(x: Word, n: nat): Word
    requires n < 32
  {
    Wrap(x * Pow2(n))
  }

  /** `x >>> n`, the logical shift. */
  function Shr(x: Word, n: nat): Word
    requires n < 32
  {
    DivBelow(x, Pow2(n));
    x / Pow2(n)
  }

  /** `x >> n`, the arithmetic shift: the int32 floor-divided by 2^n. */
  function Sar(x: Word, n: nat): Word
    requires n < 32
  {
    Wrap(Signed(x) / Pow2(n))
  }

  lemma DivBelow(x: nat, p: nat)
    requires p >= 1
    ensures x / p <= x
  {
  }

  /** The exclusive or of the binary digits of `x` and `y`. */
  function BitXor(x: nat, y: nat): nat
    decreases x + y
  {
    if x == 0 then y
    else if y == 0 then x
    else 2 * BitXor(x / 2, y / 2) + (x + y) % 2
  }

  /** The inclusive or of the binary digits of `x` and `y`. */
  function BitOr(x: nat, y: nat): nat
    decreases x + y
  {
    if x == 0 then y
    else if y == 0 then x
    else 2 * BitOr(x / 2, y / 2) + (if x % 2 == 1 || y % 2 == 1 then 1 else 0)
  }

  /** No binary digit at or above `k` is set by either or. */
  lemma {:induction false} BitsBelow(x: nat, y: nat, k: nat)
    requires x < Pow2(k) && y < Pow2(k)
    ensures BitXor(x, y) < Pow2(k) && BitOr(x, y) < Pow2(k)
  {
    if x != 0 && y != 0 {
      BitsBelow(x / 2, y / 2, k - 1);
    }
  }

  /** The powers of two behind the shift distances the program uses. */
  lemma Pow2Table()
    ensures Pow2(3) == 0x8 && Pow2(9) == 0x200 && Pow2(11) == 0x800 && Pow2(13) == 0x2000
    ensures Pow2(15) == 0x8000 && Pow2(16) == 0x1_0000 && Pow2(17) == 0x2_0000
    ensures Pow2(19) == 0x8_0000 && Pow2(21) == 0x20_0000 && Pow2(23) == 0x80_0000
    ensures Pow2(32) == 0x1_0000_0000
  {
    assert Pow2(8) == 0x100;
    assert Pow2(16) == 0x1_0000;
    assert Pow2(24) == 0x100_0000;
  }

  /** `x ^ y`. */
  function Xor(x: Word, y: Word): Word {
    Pow2Table();
    BitsBelow(x, y, 32);
    BitXor(x, y)
  }

  /** `x | y`. */
  function Or(x: Word, y: Word): Word {
    Pow2Table();
    BitsBelow(x, y, 32);
    BitOr(x, y)
  }

  /** The JavaScript `(x << n) | (x >> (32 - n))`, with the arithmetic `>>`. */
  function JsRotl(x: Word, n: nat): Word
    requires 0 < n < 32
  {
    Or(Shl(x, n), Sar(x, 32 - n))
  }

  /** A true 32-bit left rotation, the reference `JsRotl` is compared with. */
  function Rotl(x: Word, n: nat): Word
    requires 0 < n < 32
  {
    Or(Shl(x, n), Shr(x, 32 - n))
  }

  /**
   * `Sar` is floor division of the int32: its int32 reading is the signed
   * value of `x` divided by 2^n and rounded down.
   */
  lemma SarIsFloorDivision(x: Word, n: nat)
    requires n < 32
    ensures Signed(Sar(x, n)) == Signed(x) / Pow2(n)
  {
    var p := Pow2(n);
    var q := Signed(x) / p;
    if Signed(x) >= 0 {
      DivBelow(Signed(x), p);
    } else {
      NegativeDivBelow(Signed(x), p);
    }
    assert -0x8000_0000 <= q < 0x8000_0000;
  }

  lemma NegativeDivBelow(s: int, p: nat)
    requires s < 0 && p >= 1
    ensures s <= s / p < 0
  {
    var q, r := s / p, s % p;
    assert s == q * p + r && 0 <= r < p;
    LessTimes(1, p, s);
    if q < s {
      LessTimes(q, s - 1, p);
      assert false;
    }
    if q >= 0 {
      LessTimes(0, q, p);
      assert false;
    }
  }

  lemma LessTimes(a: int, b: int, c: int)
    requires a <= b
    ensures c >= 0 ==> a * c <= b * c
    ensures c <= 0 ==> a * c >= b * c
  {
  }

  /**
   * Where `Sar` and the logical `Shr` part: for a non-negative int32 they
   * agree, for a negative one `Sar` also sets the top `n` bits.
   */
  lemma SarVersusShr(x: Word)
    ensures Sar(x, 9) == if x < 0x8000_0000 then Shr(x, 9) else Shr(x, 9) + 0xFF80_0000
    ensures Sar(x, 11) == if x < 0x8000_0000 then Shr(x, 11) else Shr(x, 11) + 0xFFE0_0000
    ensures Sar(x, 13) == if x < 0x8000_0000 then Shr(x, 13) else Shr(x, 13) + 0xFFF8_0000
    ensures Sar(x, 16) == if x < 0x8000_0000 then Shr(x, 16) else Shr(x, 16) + 0xFFFF_0000
    ensures Sar(x, 17) == if x < 0x8000_0000 then Shr(x, 17) else Shr(x, 17) + 0xFFFF_8000
    ensures Sar(x, 19) == if x < 0x8000_0000 then Shr(x, 19) else Shr(x, 19) + 0xFFFF_E000
  {
    SarVersusShr9(x);
    SarVersusShr11(x);
    SarVersusShr13(x);
    SarVersusShr16(x);
    SarVersusShr17(x);
    SarVersusShr19(x);
  }

  lemma SarVersusShr9(x: Word)
    ensures Sar(x, 9) == if x < 0x8000_0000 then Shr(x, 9) else Shr(x, 9) + 0xFF80_0000
  {
    Pow2Table();
  }

  lemma SarVersusShr11(x: Word)
    ensures Sar(x, 11) == if x < 0x8000_0000 then Shr(x, 11) else Shr(x, 11) + 0xFFE0_0000
  {
    Pow2Table();
  }

  lemma SarVersusShr13(x: Word)
    ensures Sar(x, 13) == if x < 0x8000_0000 then Shr(x, 13) else Shr(x, 13) + 0xFFF8_0000
  {
    Pow2Table();
  }

  lemma SarVersusShr16(x: Word)
    ensures Sar(x, 16) == if x < 0x8000_0000 then Shr(x, 16) else Shr(x, 16) + 0xFFFF_0000
  {
    Pow2Table();
  }

  lemma SarVersusShr17(x: Word)
    ensures Sar(x, 17) == if x < 0x8000_0000 then Shr(x, 17) else Shr(x, 17) + 0xFFFF_8000
  {
    Pow2Table();
  }

  lemma SarVersusShr19(x: Word)
    ensures Sar(x, 19) == if x < 0x8000_0000 then Shr(x, 19) else Shr(x, 19) + 0xFFFF_E000
  {
    Pow2Table();
  }

  /**
   * `JsRotl` is the rotation for a non-negative int32, and is not one in
   * general: for the sign bit alone the arithmetic shift brings down ones
   * where a rotation brings down the sign bit.
   */
  lemma JsRotlVersusRotl(x: Word)
    ensures x < 0x8000_0000 ==> JsRotl(x, 13) == Rotl(x, 13) && JsRotl(x, 15) == Rotl(x, 15) && JsRotl(x, 21) == Rotl(x, 21)
    ensures JsRotl(0x8000_0000, 15) == 0xFFFF_C000 && Rotl(0x8000_0000, 15) == 0x4000
  {
    SarVersusShr(x);
    Pow2Table();
  }
}
