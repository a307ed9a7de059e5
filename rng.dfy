/**
 * The seeded generator of `script.js` (`RNG`): a MurmurHash3-style hash
 * expands a seed string into 128 bits of state, and an sfc32-style step
 * turns that state into a stream of 32-bit draws.
 *
 * Both follow the JavaScript as written, with the arithmetic `>>` (`Sar`,
 * `JsRotl`), so neither is bit-for-bit the published MurmurHash3 or sfc32.
 * A seed is a sequence of UTF-16 code units (what `charCodeAt` yields).
 */
module Rng {
  import opened Int32
  import Stream

  /** A UTF-16 code unit, what `charCodeAt` returns. */
  type CodeUnit = x: int | 0 <= x < 0x1_0000

  /** Four 32-bit words: the hash result and the generator state `_a_.._d_`. */
  datatype Lanes = Lanes(a: Word, b: Word, c: Word, d: Word)

  /** One round of the hash loop: fold code unit `u` into the running `h`. */
  function MixUnit(h: Word, u: CodeUnit): Word {
    var k := JsRotl(Mul(u, 0xCC9E2D51), 15);
    var h1 := JsRotl(Xor(h, Mul(k, 0x1B873593)), 13);
    Add(Mul(h1, 5), 0xE6546B64)
  }

  /** The running `h` after the hash loop has read all of `units`. */
  function Absorb(units: seq<CodeUnit>): Word
    decreases |units|
  {
    if units == [] then 0xAE69DB53
    else MixUnit(Absorb(units[..|units| - 1]), units[|units| - 1])
  }

  /** Reading one more code unit is one more round. */
  lemma AbsorbOneMore(units: seq<CodeUnit>, i: nat)
    requires i < |units|
    ensures Absorb(units[..i + 1]) == MixUnit(Absorb(units[..i]), units[i])
  {
    assert units[..i + 1][..i] == units[..i];
  }

  /** The JavaScript `h ^= N` reads the length `N` as an int32, that is modulo 2^32. */
  function LengthWord(units: seq<CodeUnit>): Word {
    Wrap(|units|)
  }

  /** One call of the hash's inner closure `S`: the next value of `h`, also its result. */
  function Avalanche(h: Word): Word {
    var h1 := Xor(h, Sar(h, 16));
    var h2 := Mul(h1, 0x85EBCA6B);
    var h3 := Xor(h2, Sar(h2, 13));
    var h4 := Mul(h3, 0xC2B2AE35);
    Xor(h4, Sar(h4, 16))
  }

  /**
   * `RNG._hash_`: a loop over the code units, then `h ^= length`, then four
   * successive avalanche rounds of the same `h`, each one giving a lane.
   */
  method Hash(units: seq<CodeUnit>) returns (r: Lanes)
    ensures r.a == Avalanche(Xor(Absorb(units), LengthWord(units)))
    ensures r.b == Avalanche(r.a) && r.c == Avalanche(r.b) && r.d == Avalanche(r.c)
  {
    var h: Word := 0xAE69DB53;
    var i := 0;
    while i < |units|
      invariant 0 <= i <= |units|
      invariant h == Absorb(units[..i])
    {
      AbsorbOneMore(units, i);
      h := MixUnit(h, units[i]);
      i := i + 1;
    }
    assert units[..|units|] == units;
    h := Xor(h, LengthWord(units));
    h := Avalanche(h);
    var a := h;
    h := Avalanche(h);
    var b := h;
    h := Avalanche(h);
    var c := h;
    h := Avalanche(h);
    r := Lanes(a, b, c, h);
  }

  /** The state a generator seeded with `units` starts from. */
  function Seeded(units: seq<CodeUnit>): Lanes {
    var a := Avalanche(Xor(Absorb(units), LengthWord(units)));
    var b := Avalanche(a);
    var c := Avalanche(b);
    Lanes(a, b, c, Avalanche(c))
  }

  /** The draw `val32` returns in state `s`. */
  function Output(s: Lanes): Word {
    Add(Add(s.a, s.b), s.d)
  }

  /** The state after one `val32`. */
  function Next(s: Lanes): Lanes {
    Lanes(Xor(s.b, Sar(s.b, 9)), Add(s.c, Shl(s.c, 3)), Add(JsRotl(s.c, 21), Output(s)), Add(s.d, 1))
  }

  /** The first `n` draws of a generator that starts in state `s`. */
  function Draws(s: Lanes, n: nat): seq<Word> {
    Stream.Outputs(Next, Output, s, n)
  }

  /**
   * A `RNG` object: the four state words `_a_.._d_`, which every `val32`
   * rewrites. The ghost fields record the state it started from and every
   * draw so far; the invariant says the state and the draws are those of
   * that start's stream.
   */
  class Generator {
    var a: Word
    var b: Word
    var c: Word
    var d: Word
    ghost var origin: Lanes
    ghost var drawn: seq<Word>

    function State(): Lanes
      reads this
    {
      Lanes(a, b, c, d)
    }

    ghost predicate Valid()
      reads this
    {
      State() == Stream.After(Next, origin, |drawn|) && drawn == Draws(origin, |drawn|)
    }

    /** `new RNG(seed)`: the state is the hash of the seed. */
    constructor (units: seq<CodeUnit>)
      ensures Valid() && origin == Seeded(units) && drawn == []
    {
      var lanes := Hash(units);
      a, b, c, d := lanes.a, lanes.b, lanes.c, lanes.d;
      origin, drawn := lanes, [];
    }

    /** `val32`: return `a + b + d` and advance the state in place. */
    method Val32() returns (v: Word)
      requires Valid()
      modifies this
      ensures Valid() && origin == old(origin) && drawn == old(drawn) + [v]
      ensures v == Output(old(State())) && State() == Next(old(State()))
    {
      v := Add(Add(a, b), d);
      d := Add(d, 1);
      a := Xor(b, Sar(b, 9));
      b := Add(c, Shl(c, 3));
      c := JsRotl(c, 21);
      c := Add(c, v);
      drawn := drawn + [v];
    }
  }

  /** Two valid generators from the same start that drew equally often agree. */
  lemma SameSeedSameStream(g: Generator, h: Generator)
    requires g.Valid() && h.Valid() && g.origin == h.origin && |g.drawn| == |h.drawn|
    ensures g.drawn == h.drawn && g.State() == h.State()
  {
  }
}
