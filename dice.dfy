/**
 * `Dice.RNG` of `script.js`: one draw of the shared generator becomes the
 * face of a die. A die type is either a number `N` (faces `1..N`) or an
 * object `{max, step, faces}` (faces `step, 2*step, .., faces*step`); `D100`
 * is the object `{max: 100, step: 10, faces: 10}`.
 */
module Dice {
  import opened Int32
  import Rng

  /** A value of `DiceType`, or any other number or object passed in its place. */
  datatype DiceType = Sides(n: int) | Stepped(max: int, step: int, faces: int)

  const C: DiceType := Sides(2)
  const D4: DiceType := Sides(4)
  const D6: DiceType := Sides(6)
  const D8: DiceType := Sides(8)
  const D10: DiceType := Sides(10)
  const D12: DiceType := Sides(12)
  const D20: DiceType := Sides(20)
  const D100: DiceType := Stepped(100, 10, 10)

  /** The largest safe integer of JavaScript, 2^53 - 1. */
  const MaxSafeInteger := 0x1F_FFFF_FFFF_FFFF

  /** What one call of `Dice.RNG` yields: a face, or the `TypeError` it throws. */
  datatype Throw = Face(value: int) | InvalidDiceType

  /** `Math.trunc(a / b)` for a positive `b`: division rounded toward zero. */
  function TruncDiv(a: int, b: int): (q: int)
    requires b > 0
    ensures a >= 0 ==> q == a / b
    ensures a < 0 ==> q == -((-a) / b)
  {
    if a >= 0 then a / b else -((-a) / b)
  }

  /**
   * Whether `Dice.RNG` accepts the type and draws: every number does; an
   * object needs `faces` and `step` to be positive safe integers (its `max`
   * is not looked at).
   */
  predicate Rollable(t: DiceType) {
    match t
    case Sides(_) => true
    case Stepped(_, step, faces) => 0 < faces <= MaxSafeInteger && 0 < step <= MaxSafeInteger
  }

  /** The face `Dice.RNG` returns for type `t` when the generator yields `v`. */
  function FaceOf(t: DiceType, v: Word): int
    requires Rollable(t)
  {
    if t == C then (if v < 0x8000_0000 then 1 else 2)
    else if t == D4 then 1 + v / 0x4000_0000
    else if t == D6 then 1 + (v * 3) / 0x8000_0000
    else if t == D8 then 1 + v / 0x2000_0000
    else if t == D10 then 1 + (v * 5) / 0x8000_0000
    else if t == D12 then 1 + (v * 3) / 0x4000_0000
    else if t == D20 then 1 + (v * 5) / 0x4000_0000
    else if t == D100 then 10 + 10 * ((v * 5) / 0x8000_0000)
    else match t
      case Sides(n) => 1 + TruncDiv(v * n, 0x1_0000_0000)
      case Stepped(_, step, faces) => step + step * ((v * faces) / 0x1_0000_0000)
  }

  /** The formula `Dice.RNG` applies to a number it has no special case for. */
  function GenericSides(n: int, v: Word): int {
    1 + TruncDiv(v * n, 0x1_0000_0000)
  }

  /** The formula `Dice.RNG` applies to an object it has no special case for. */
  function GenericStepped(step: int, faces: int, v: Word): int {
    step + step * ((v * faces) / 0x1_0000_0000)
  }

  /**
   * Every special case is the generic formula for its type, so which branch
   * a die takes does not change its face; in particular an object equal to
   * `D100` but not identical to it rolls like `D100`.
   */
  lemma SpecialCasesAreGeneric(t: DiceType, v: Word)
    requires Rollable(t)
    ensures t.Sides? ==> FaceOf(t, v) == GenericSides(t.n, v)
    ensures t.Stepped? ==> FaceOf(t, v) == GenericStepped(t.step, t.faces, v)
  {
    if t == C {
      DivScale(v, 2, 0x8000_0000);
    } else if t == D4 {
      DivScale(v, 4, 0x4000_0000);
    } else if t == D6 {
      DivScale(v * 3, 2, 0x8000_0000);
    } else if t == D8 {
      DivScale(v, 8, 0x2000_0000);
    } else if t == D10 {
      DivScale(v * 5, 2, 0x8000_0000);
    } else if t == D12 {
      DivScale(v * 3, 4, 0x4000_0000);
    } else if t == D20 {
      DivScale(v * 5, 4, 0x4000_0000);
    } else if t == D100 {
      DivScale(v * 5, 2, 0x8000_0000);
    }
  }

  /** Scaling both sides of a division by `m` keeps the quotient. */
  lemma DivScale(x: nat, m: nat, q: nat)
    requires m > 0 && q > 0
    ensures (x * m) / (q * m) == x / q
  {
    var a, r := x / q, x % q;
    assert x == q * a + r && 0 <= r < q;
    assert x * m == (q * a + r) * m;
    assert (q * a + r) * m == (q * m) * a + r * m;
    LessTimes(r, q - 1, m);
    assert (q - 1) * m == q * m - m;
    DivUnique(x * m, q * m, a, r * m);
  }

  /** A quotient is determined by any decomposition with an in-range remainder. */
  lemma DivUnique(y: int, d: int, a: int, s: int)
    requires d > 0 && y == d * a + s && 0 <= s < d
    ensures y / d == a
  {
    var a', s' := y / d, y % d;
    assert y == d * a' + s' && 0 <= s' < d;
    assert d * (a - a') == s' - s;
    if a - a' >= 1 {
      LessTimes(1, a - a', d);
      assert false;
    } else if a - a' <= -1 {
      LessTimes(a - a', -1, d);
      assert false;
    }
  }

  /** `v * k` stays below `2^32 * k` for a draw `v` and a positive `k`. */
  lemma ScaledDrawBelow(v: Word, k: int)
    requires k > 0
    ensures 0 <= v * k < 0x1_0000_0000 * k
    ensures 0 <= (v * k) / 0x1_0000_0000 < k
  {
    LessTimes(v, 0x1_0000_0000 - 1, k);
  }

  /**
   * A number `N >= 1` rolls a face in `1..N`; `0` always rolls `1`, and a
   * negative `N` rolls into `N+2..1` (the truncation then rounds up).
   */
  lemma SidesRange(n: int, v: Word)
    ensures n >= 1 ==> 1 <= FaceOf(Sides(n), v) <= n
    ensures n == 0 ==> FaceOf(Sides(n), v) == 1
    ensures n < 0 ==> n + 2 <= FaceOf(Sides(n), v) <= 1
  {
    SpecialCasesAreGeneric(Sides(n), v);
    if n >= 1 {
      ScaledDrawBelow(v, n);
    } else if n < 0 {
      ScaledDrawBelow(v, -n);
      assert -(v * n) == v * (-n);
    }
  }

  /**
   * An object with positive safe `faces` and `step` rolls `j * step` for
   * some `j` in `1..faces`.
   */
  lemma SteppedRange(max: int, step: int, faces: int, v: Word)
    requires Rollable(Stepped(max, step, faces))
    ensures var r := FaceOf(Stepped(max, step, faces), v);
      r % step == 0 && step <= r <= faces * step && 1 <= r / step <= faces
  {
    var t := Stepped(max, step, faces);
    SpecialCasesAreGeneric(t, v);
    ScaledDrawBelow(v, faces);
    var k := (v * faces) / 0x1_0000_0000;
    assert FaceOf(t, v) == step + step * k;
    assert step + step * k == (k + 1) * step;
    ExactQuotient(k + 1, step);
    LessTimes(k + 1, faces, step);
    LessTimes(1, k + 1, step);
  }

  /** A multiple of a positive `s` divides by it exactly. */
  lemma ExactQuotient(j: int, s: int)
    requires s > 0
    ensures (j * s) / s == j && (j * s) % s == 0
  {
    var q, r := (j * s) / s, (j * s) % s;
    assert j * s == q * s + r && 0 <= r < s;
    assert (j - q) * s == r;
    if j - q >= 1 {
      LessTimes(1, j - q, s);
      assert false;
    } else if j - q <= -1 {
      LessTimes(j - q, -1, s);
      assert false;
    }
  }

  /**
   * `Dice.RNG(diceType)` against the generator `g`: a type it accepts costs
   * exactly one draw and yields that draw's face; any other type throws
   * before drawing, leaving the generator as it was.
   */
  method Draw(t: DiceType, g: Rng.Generator) returns (r: Throw)
    requires g.Valid()
    modifies g
    ensures g.Valid() && g.origin == old(g.origin)
    ensures Rollable(t) ==> |g.drawn| == |old(g.drawn)| + 1 && g.drawn[..|old(g.drawn)|] == old(g.drawn)
    ensures Rollable(t) ==> r == Face(FaceOf(t, g.drawn[|old(g.drawn)|]))
    ensures Rollable(t) ==> r == Face(FaceOf(t, Rng.Output(old(g.State())))) && g.State() == Rng.Next(old(g.State()))
    ensures !Rollable(t) ==> r == InvalidDiceType && g.drawn == old(g.drawn) && g.State() == old(g.State())
  {
    if !Rollable(t) {
      return InvalidDiceType;
    }
    var v := g.Val32();
    r := Face(FaceOf(t, v));
  }
}
