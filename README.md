# dice_stats core in Dafny

This is a model of the computational core of `dice_stats`, a browser dice
roller. The model omits the page itself. It covers these parts of `script.js`:

- **The seeded generator `RNG`** (module `Rng`, over the int32 arithmetic in
  `Int32` and the state-machine streams in `Stream`). `_hash_` turns the seed
  string into four 32-bit words, in the style of MurmurHash3. `val32` is an
  sfc32-style step that advances those words in place. Both use JavaScript's
  arithmetic `>>`, so neither is bit-for-bit the published algorithm.
  `Int32` states where the arithmetic shift and a true rotation differ.
- **`OperationType`** (module `Operations`). These are the five comparisons
  `op(value, sum)`, including how `NaN` behaves.
- **`Dice.RNG`** (module `Dice`). It maps one draw of the generator to the
  face of a die type. The generator is explicit state.
- **`Probability`** (modules `Probability` and `Combinations`):
  - `Setup` fills a two-row table by a convolution. It is a class method whose
    nested loops are proved against "the number of throws of the dice that
    reach each sum".
  - `Check` turns the table into the chance that a threshold compares
    successfully with a throw.
- **The outcome rules** (module `Outcomes`):
  - `Roll._UpdateClass_` decides success or failure and the sum label of one
    block of dice.
  - `Sheet._CalcWin_` combines the blocks' outcomes.

JavaScript numbers are modelled this way:

- A generator word is an `int` in `0..2^32-1`. Every int32 operation
  (`|0`, `Math.imul`, `<<`, `>>`, `>>>`, `^`, `|`) is written out modulo 2^32.
- A threshold is `Number`: `NaN`, an infinity or a real number.
- A chance is an exact fraction `Ratio(hits, total)`, or `NotANumber` for
  JavaScript's `NaN`.
- A hole in a JavaScript array reads as `undefined`. Every use in `Setup` and
  `Check` treats that like 0, so the model stores it as 0.

## Model

| member | source | states |
|---|---|---|
| Int32.SarIsFloorDivision | script.js:25-36 | `x >> n` on an int32 is the signed value divided by 2^n, rounded down |
| Int32.SarVersusShr | script.js:25-36 | for the shift distances the code uses, `>>` agrees with `>>>` on non-negative words and also sets the top `n` bits on negative ones |
| Int32.JsRotlVersusRotl | script.js:25-27 | `(k<<r)\|(k>>(32-r))` is a left rotation for non-negative words, but not for negative ones (sign bit alone: `0xFFFFC000` instead of `0x4000`) |
| Rng.Hash | script.js:21-40 | the first lane is the avalanche of (the hash loop over every code unit, xor the length mod 2^32); each later lane is the avalanche of the one before |
| Rng.Generator.constructor | script.js:48-51 | a new generator holds the hash of its seed and has drawn nothing |
| Rng.Generator.Val32 | script.js:57-65 | returns `a+b+d` mod 2^32 of the old state, advances the state by the sfc32-style step, and appends the draw to the stream of the starting state |
| Rng.SameSeedSameStream | script.js:48-65 | two generators with the same seed that drew equally often have drawn the same values and are in the same state |
| Stream.OutputAt | script.js:57-65 | draw `k` is the output of the state reached after `k` steps |
| Stream.OutputsThenOutputs | script.js:57-65 | `m` draws followed by `n` more are the first `m+n` draws of the stream |
| Operations.Trichotomy | script.js:75-81 | for a non-`NaN` value, `GE` is exactly not `LT`, and `LE` is exactly not `GT`; `EQ` is `GE` and `LE`; `NaN` satisfies no comparison |
| Operations.MonotoneInSum | script.js:75-81 | raising the sum can only turn `LE`/`LT` on and `GE`/`GT` off |
| Dice.SpecialCasesAreGeneric | script.js:165-178 | each special case for C..D20 and D100 gives the face the generic formula gives for that type, on every draw |
| Dice.SidesRange | script.js:165-176 | a number `N >= 1` rolls in `1..N`; `0` rolls `1`; a negative `N` rolls in `N+2..1` |
| Dice.SteppedRange | script.js:174-180 | an accepted object rolls `j*step` for some `j` in `1..faces` |
| Dice.Draw | script.js:165-182 | an accepted type costs exactly one draw and yields that draw's face; any other object throws before drawing and leaves the generator unchanged |
| Combinations.FaceLoopBound | script.js:309 | the loop `face = step, 2*step, ..` stays within `max` for exactly `FaceCount` iterations |
| Combinations.ExtendCount | script.js:308-312 | the number of extended throws summing to `s` is the sum, over the faces, of the throws before the new die that sum to `s - face` |
| Combinations.TuplesLength | script.js:296-317 | the number of throws is the product of the face counts |
| Combinations.TupleSumBounds | script.js:301 | every throw sums to between the sum of the smallest faces and `diceMax` |
| Combinations.TupleCountOutside | script.js:301-312 | no throw reaches a sum below the smallest, above `diceMax`, or below 0 |
| Probability.Table.constructor | script.js:287-291 | a new table has two empty rows, index 0 and total 0 |
| Probability.Table.Setup | script.js:296-317 | after `Setup(dice)`, row `\|dice\| mod 2` holds at each sum the number of throws of `dice` with that sum, and has no index above `diceMax`; the other row is empty; the total is the product of the face counts; for no dice the row is empty and the total 0 |
| Probability.Table.Check | script.js:325-328 | the result is `NaN` exactly for a `NaN` value or an empty table; otherwise it is a fraction of the table's total with at most that many hits |
| Probability.CheckMeaning | script.js:296-328 | after `Setup(dice)`, `Check(value, op)` is the number of throws whose sum `s` satisfies `op(value, s)`, out of `Product(dice)`; it is `NaN` for a `NaN` value, for no dice, and for dice without faces |
| Probability.CheckComplements | script.js:325-328 | the `GE` and `LT` hits at one value add up to the total, and so do `LE` and `GT` |
| Probability.CheckMonotone | script.js:325-328 | the `GE` hits never decrease as the value grows; the `LE` hits never increase |
| Probability.CheckBounds | script.js:301-328 | a `GE` value below the smallest sum has chance `0/T`; one at or above `diceMax` has chance `T/T` |
| Outcomes.UpdateClass | script.js:372-383 | the block has no class without dice, while a die has no number, or for an invalid value; otherwise `op(value, total)` decides success; the label is blank for at most one die, `--` until all dice have numbers, and then the total |
| Outcomes.CalcWin | script.js:574-583 | the sheet has no class without blocks or if any block has none (even after a failure); otherwise it fails if any block failed, and succeeds otherwise |
| Outcomes.BlockIgnoresOrder | script.js:372-383 | a block's outcome and label do not depend on the order in which its set yields the dice |
| Outcomes.SheetIgnoresOrder | script.js:574-583 | the sheet's outcome does not depend on the order of its blocks |
| Outcomes.ThrowOutcome | script.js:372-383 | once the dice show a throw, the block succeeds exactly when `op(value, sum)` holds for that throw, the same test `Check` counts |
| Outcomes.SheetDecided | script.js:574-583 | the sheet is decided exactly when every block is, and it succeeds exactly when every block did |

## Left out

- Everything on the page: DOM elements, animations, events, the hover cycle,
  timers, CSS classes as strings, and `Roll.FormatPercent`.
- The setup-text codec, URL parameters and the clipboard.
- `GetKeyOfDiceType`, the `MAX_DICE`/`MAX_ROLLS` limits, and the product of
  chances in `Sheet._CalcChance_`. These sit outside the computational core.
- The default seed `Date.now().toString(16)` is a clock reading. The seed is a
  parameter of `Rng.Generator.constructor` instead. The `TypeError` for a
  non-string seed is not modelled, because a Dafny seed is always a string.
- How the JavaScript `Dice.Roll` moves `num` from `null` to `NaN` to the face. That is part of
  the animation. `Outcomes.DieNum` has all three states.
- Floating point:
  - `Check` divides with a float. The model keeps the exact fraction.
  - `v * n` in `Dice.RNG` is exact in the model. The double product can round
    once it exceeds 2^53, for a number type beyond 2^21.
  - The counts in `Setup` are exact integers. Past 2^53 the JavaScript doubles
    round: thirteen D20 already give 20^13 throws. The face `step*k` of
    `Dice.RNG` is also exact.
- Non-integer die numbers and die fields are not modelled: die types are
  integers.
- Dice.Draw: a number die with a fraction, or an object field that is not a
  number, has no counterpart in the model. `D100` is matched by value rather
  than by identity. `Dice.SpecialCasesAreGeneric` shows this makes no
  difference to the face.
- Probability.Table.Setup requires that every die's face loop ends: a positive
  `step`, or `max < step`. For a non-positive `step` with `max >= step` the
  JavaScript loop never terminates. Beyond that, `Setup` requires only the
  two-row shape that every table has.
- Probability.Table.Check treats an infinite value like any other non-`NaN`
  number, as the JavaScript does: it checks only `Number.isNaN`.
- JavaScript `Set`s (the dice of a block, the blocks of a sheet) are taken in
  iteration order as sequences. `Outcomes.BlockIgnoresOrder` and
  `Outcomes.SheetIgnoresOrder` show the order does not matter.
- The int32 results of the generator are unsigned words. The `>>>0` at the end
  of `_hash_` and `val32` is therefore the identity on them.
