/**
 * The outcome rules of `script.js`, without the CSS classes that carry
 * them: whether one roll (a block of dice with a threshold and a
 * comparison) succeeded (`Roll._UpdateClass_`), and whether the whole sheet
 * did (`Sheet._CalcWin_`).
 */
module Outcomes {
  import opened Operations
  import Combinations

  /** `Dice.num`: `null` before the first roll, `NaN` while rolling, then the face. */
  datatype DieNum = Unrolled | Rolling | Rolled(face: int)

  /** The class a block or the sheet carries: none, `success` or `failure`. */
  datatype Outcome = NoResult | Success | Failure

  /** The `data-sum` label of a block: empty (`null`), `--` (`NaN`) or the total. */
  datatype SumLabel = Blank | Pending | Shown(total: int)

  predicate AllRolled(nums: seq<DieNum>) {
    forall n :: n in nums ==> n.Rolled?
  }

  /** The sum of the faces rolled so far. */
  function RolledSum(nums: seq<DieNum>): int
    decreases |nums|
  {
    if nums == [] then 0
    else RolledSum(nums[..|nums| - 1]) + (if nums[|nums| - 1].Rolled? then nums[|nums| - 1].face else 0)
  }

  /**
   * The rule for one block: no result without dice, while a die has no
   * number, or for an invalid threshold; otherwise `op(value, total)`
   * decides.
   */
  function BlockOutcome(nums: seq<DieNum>, value: Number, op: Op): Outcome {
    if |nums| == 0 || !AllRolled(nums) || value == NaN then NoResult
    else if Holds(op, value, RolledSum(nums)) then Success
    else Failure
  }

  /** The label: shown only for more than one die, `--` until all have numbers. */
  function BlockLabel(nums: seq<DieNum>): SumLabel {
    if |nums| <= 1 then Blank
    else if AllRolled(nums) then Shown(RolledSum(nums))
    else Pending
  }

  /** The rule for the sheet: no result if any block has none, else failure if any failed. */
  function SheetOutcome(rolls: seq<Outcome>): Outcome {
    if |rolls| == 0 || NoResult in rolls then NoResult
    else if Failure in rolls then Failure
    else Success
  }

  /**
   * `Roll._UpdateClass_` for the dice numbers `nums` (in the order of the
   * block's set), the threshold `value` (`NaN` when the input is invalid)
   * and the comparison `op`.
   */
  method UpdateClass(nums: seq<DieNum>, value: Number, op: Op) returns (cls: Outcome, sumLabel: SumLabel)
    ensures cls == BlockOutcome(nums, value, op)
    ensures sumLabel == BlockLabel(nums)
  {
    cls := NoResult;
    sumLabel := if |nums| > 1 then Pending else Blank;
    if |nums| == 0 {
      return;
    }
    // `total` is the JavaScript sum as long as `nan` is false; once a die
    // without a number was added the sum is `NaN`.
    var total := 0;
    var nan := false;
    var k := 0;
    while k < |nums|
      invariant 0 <= k <= |nums|
      invariant total == RolledSum(nums[..k])
      invariant nan <==> !AllRolled(nums[..k])
    {
      assert nums[..k + 1][..k] == nums[..k];
      assert nums[..k + 1] == nums[..k] + [nums[k]];
      match nums[k] {
        case Rolled(n) => total := total + n;
        case _ => nan := true;
      }
      k := k + 1;
    }
    assert nums[..k] == nums;
    if nan {
      return;
    }
    sumLabel := if |nums| > 1 then Shown(total) else Blank;
    if value == NaN {
      return;
    }
    cls := if Holds(op, value, total) then Success else Failure;
  }

  /**
   * `Sheet._CalcWin_` over the blocks' outcomes (in the order of the sheet's
   * set): it stops at the first block without a result, even after a
   * failure.
   */
  method CalcWin(rolls: seq<Outcome>) returns (win: Outcome)
    ensures win == SheetOutcome(rolls)
  {
    if |rolls| == 0 {
      return NoResult;
    }
    var f := false;
    var k := 0;
    while k < |rolls|
      invariant 0 <= k <= |rolls|
      invariant NoResult !in rolls[..k]
      invariant f <==> Failure in rolls[..k]
    {
      assert rolls[..k + 1] == rolls[..k] + [rolls[k]];
      if rolls[k] == Failure {
        f := true;
      } else if rolls[k] != Success {
        assert rolls[k] in rolls;
        return NoResult;
      }
      k := k + 1;
    }
    assert rolls[..k] == rolls;
    win := if f then Failure else Success;
  }

  // ----- properties -----

  lemma {:induction false} RolledSumConcat(x: seq<DieNum>, y: seq<DieNum>)
    ensures RolledSum(x + y) == RolledSum(x) + RolledSum(y)
    decreases |y|
  {
    if y == [] {
      assert x + y == x;
    } else {
      assert (x + y)[..|x + y| - 1] == x + y[..|y| - 1];
      RolledSumConcat(x, y[..|y| - 1]);
    }
  }

  /** The total does not depend on the order in which the set yields its dice. */
  lemma {:induction false} RolledSumPermutation(a: seq<DieNum>, b: seq<DieNum>)
    requires multiset(a) == multiset(b)
    ensures RolledSum(a) == RolledSum(b)
    decreases |a|
  {
    if a != [] {
      var x := a[|a| - 1];
      assert x in multiset(b);
      var k :| 0 <= k < |b| && b[k] == x;
      var rest := b[..k] + b[k + 1..];
      assert b == b[..k] + [x] + b[k + 1..];
      assert a == a[..|a| - 1] + [x];
      assert multiset(a) == multiset(a[..|a| - 1]) + multiset{x};
      assert multiset(b) == multiset(b[..k]) + multiset{x} + multiset(b[k + 1..]);
      assert multiset(rest) == multiset(b[..k]) + multiset(b[k + 1..]);
      assert multiset(a[..|a| - 1]) == multiset(a) - multiset{x};
      assert multiset(rest) == multiset(b) - multiset{x};
      RolledSumPermutation(a[..|a| - 1], rest);
      RolledSumConcat(b[..k] + [x], b[k + 1..]);
      RolledSumConcat(b[..k], [x]);
      RolledSumConcat(b[..k], b[k + 1..]);
      assert RolledSum([x]) == (if x.Rolled? then x.face else 0) by {
        assert [x][..0] == [];
      }
    }
  }

  /** Neither a block's outcome nor its label depends on the order of its dice. */
  lemma BlockIgnoresOrder(a: seq<DieNum>, b: seq<DieNum>, value: Number, op: Op)
    requires multiset(a) == multiset(b)
    ensures BlockOutcome(a, value, op) == BlockOutcome(b, value, op)
    ensures BlockLabel(a) == BlockLabel(b)
  {
    RolledSumPermutation(a, b);
    assert |a| == |multiset(a)| == |multiset(b)| == |b|;
    assert forall n :: n in a <==> n in multiset(a);
    assert forall n :: n in b <==> n in multiset(b);
  }

  /** Nor does the sheet's outcome depend on the order of its blocks. */
  lemma SheetIgnoresOrder(a: seq<Outcome>, b: seq<Outcome>)
    requires multiset(a) == multiset(b)
    ensures SheetOutcome(a) == SheetOutcome(b)
  {
    assert |a| == |multiset(a)| == |multiset(b)| == |b|;
    assert NoResult in a <==> NoResult in multiset(a);
    assert Failure in a <==> Failure in multiset(a);
    assert NoResult in b <==> NoResult in multiset(b);
    assert Failure in b <==> Failure in multiset(b);
  }

  /** The dice numbers after a throw `t` has been rolled. */
  function Landed(t: seq<int>): (nums: seq<DieNum>)
    ensures |nums| == |t| && forall k :: 0 <= k < |t| ==> nums[k] == Rolled(t[k])
    decreases |t|
  {
    if t == [] then [] else Landed(t[..|t| - 1]) + [Rolled(t[|t| - 1])]
  }

  /**
   * Once every die of a block shows the throw `t`, the block succeeds
   * exactly when the throw is one the chance counts: `op(value, Sum(t))`.
   */
  lemma {:induction false} ThrowOutcome(t: seq<int>, value: Number, op: Op)
    requires t != [] && value != NaN
    ensures BlockOutcome(Landed(t), value, op) == if Holds(op, value, Combinations.Sum(t)) then Success else Failure
  {
    LandedSum(t);
  }

  lemma {:induction false} LandedSum(t: seq<int>)
    ensures RolledSum(Landed(t)) == Combinations.Sum(t)
    decreases |t|
  {
    if t != [] {
      LandedSum(t[..|t| - 1]);
      var nums := Landed(t);
      assert nums[..|nums| - 1] == Landed(t[..|t| - 1]);
    }
  }

  /** A sheet is decided exactly when every block is, and it then succeeds only if all succeeded. */
  lemma SheetDecided(rolls: seq<Outcome>)
    ensures SheetOutcome(rolls) != NoResult <==> |rolls| > 0 && forall r :: r in rolls ==> r != NoResult
    ensures SheetOutcome(rolls) == Success <==> |rolls| > 0 && forall r :: r in rolls ==> r == Success
  {
  }
}
