/**
 * The comparison predicates of `script.js` (`OperationType`). Each is called
 * as `op(value, diceSum)`: `value` is the threshold a user typed (a
 * JavaScript number, so possibly `NaN` or infinite) and `diceSum` an integer
 * sum of dice faces.
 */
module Operations {

  /** A JavaScript number as far as the comparisons can tell them apart. */
  datatype Number = NaN | NegInfinity | Infinity | Finite(x: real)

  /** The five entries of `OperationType`. */
  datatype Op = GE | LE | GT | LT | EQ

  /** `value < d` as JavaScript evaluates it: false whenever `value` is `NaN`. */
  predicate Below(value: Number, d: int) {
    match value
    case NaN => false
    case NegInfinity => true
    case Infinity => false
    case Finite(x) => x < d as real
  }

  /** `value > d` as JavaScript evaluates it: false whenever `value` is `NaN`. */
  predicate Above(value: Number, d: int) {
    match value
    case NaN => false
    case NegInfinity => false
    case Infinity => true
    case Finite(x) => x > d as real
  }

  /** `value === d`: only a finite number can equal an integer. */
  predicate Equal(value: Number, d: int) {
    value.Finite? && value.x == d as real
  }

  /** `OperationType[op](value, d)`. */
  predicate Holds(op: Op, value: Number, d: int) {
    match op
    case GE => Above(value, d) || Equal(value, d)
    case LE => Below(value, d) || Equal(value, d)
    case GT => Above(value, d)
    case LT => Below(value, d)
    case EQ => Equal(value, d)
  }

  /**
   * For every number but `NaN` exactly one of `<`, `===` and `>` holds, so
   * `GE` is the negation of `LT` and `LE` that of `GT`; `NaN` satisfies no
   * comparison at all.
   */
  lemma Trichotomy(value: Number, d: int)
    ensures value != NaN ==> (Holds(GE, value, d) <==> !Holds(LT, value, d))
    ensures value != NaN ==> (Holds(LE, value, d) <==> !Holds(GT, value, d))
    ensures Holds(EQ, value, d) <==> Holds(GE, value, d) && Holds(LE, value, d)
    ensures value == NaN ==> forall op: Op :: !Holds(op, value, d)
  {
  }

  /**
   * Raising the threshold can only turn `GE` and `GT` on and `LE` and `LT`
   * off: for `d <= e`, `value >= e` implies `value >= d`, and so on.
   */
  lemma MonotoneInSum(value: Number, d: int, e: int)
    requires d <= e
    ensures Holds(GE, value, e) ==> Holds(GE, value, d)
    ensures Holds(GT, value, e) ==> Holds(GT, value, d)
    ensures Holds(LE, value, d) ==> Holds(LE, value, e)
    ensures Holds(LT, value, d) ==> Holds(LT, value, e)
  {
  }
}
