/**
 * The functional meaning of the probability table: the faces each die can
 * show (as the face loop of `Probability.Setup` enumerates them), the tuples
 * of one face per die, and how many of them reach each sum.
 */
module Combinations {
  import opened Dice
  import opened Int32

  /** The face loop's bound: the number itself, or the object's `max`. */
  function MaxOf(d: DiceType): int {
    match d
    case Sides(n) => n
    case Stepped(max, _, _) => max
  }

  /** The face loop's start and stride: `1` for a number, else the object's `step`. */
  function StepOf(d: DiceType): int {
    match d
    case Sides(_) => 1
    case Stepped(_, step, _) => step
  }

  /**
   * The loop `for(face=step; face<=max; face+=step)` ends: either the stride
   * is positive or the loop is never entered.
   */
  predicate Enumerable(d: DiceType) {
    StepOf(d) > 0 || MaxOf(d) < StepOf(d)
  }

  /** How many faces the loop visits: `max/step` rounded down, or none. */
  function FaceCount(d: DiceType): nat {
    if StepOf(d) > 0 && MaxOf(d) >= StepOf(d) then MaxOf(d) / StepOf(d) else 0
  }

  /** The faces in the order the loop visits them: `step, 2*step, .., FaceCount*step`. */
  function Faces(d: DiceType): seq<int> {
    seq(FaceCount(d), j => StepOf(d) * (j + 1))
  }

  /** `dice.reduce((o,v) => o + max of v, 0)`: the `diceMax` of `Setup`. */
  function MaxSum(ds: seq<DiceType>): int
    decreases |ds|
  {
    if ds == [] then 0 else MaxSum(ds[..|ds| - 1]) + MaxOf(ds[|ds| - 1])
  }

  /** The sum of every die's first face, the smallest sum a throw can have. */
  function MinSum(ds: seq<DiceType>): int
    decreases |ds|
  {
    if ds == [] then 0 else MinSum(ds[..|ds| - 1]) + StepOf(ds[|ds| - 1])
  }

  /** The product of the face counts. */
  function Product(ds: seq<DiceType>): nat
    decreases |ds|
  {
    if ds == [] then 1 else Product(ds[..|ds| - 1]) * FaceCount(ds[|ds| - 1])
  }

  function Sum(t: seq<int>): int
    decreases |t|
  {
    if t == [] then 0 else Sum(t[..|t| - 1]) + t[|t| - 1]
  }

  /** Tuple `t` extended by each face in turn. */
  function Appended(t: seq<int>, faces: seq<int>): seq<seq<int>>
    decreases |faces|
  {
    if faces == [] then [] else Appended(t, faces[..|faces| - 1]) + [t + [faces[|faces| - 1]]]
  }

  /** Every tuple of `ts` extended by every face. */
  function Extend(ts: seq<seq<int>>, faces: seq<int>): seq<seq<int>>
    decreases |ts|
  {
    if ts == [] then [] else Appended(ts[0], faces) + Extend(ts[1..], faces)
  }

  /** All tuples of one face per die, `t[k]` being a face of `ds[k]`. */
  function Tuples(ds: seq<DiceType>): seq<seq<int>>
    decreases |ds|
  {
    if ds == [] then [[]] else Extend(Tuples(ds[..|ds| - 1]), Faces(ds[|ds| - 1]))
  }

  /** How many tuples of `ts` sum to `s`. */
  function CountSum(ts: seq<seq<int>>, s: int): nat
    decreases |ts|
  {
    if ts == [] then 0 else (if Sum(ts[0]) == s then 1 else 0) + CountSum(ts[1..], s)
  }

  /** How many throws of `ds` sum to `s`: the entry the table should hold. */
  function TupleCount(ds: seq<DiceType>, s: int): nat {
    CountSum(Tuples(ds), s)
  }

  /** How many entries of `faces` equal `x`. */
  function CountIn(faces: seq<int>, x: int): nat
    decreases |faces|
  {
    if faces == [] then 0 else CountIn(faces[..|faces| - 1], x) + (if faces[|faces| - 1] == x then 1 else 0)
  }

  /** `Σ_f CountSum(ts, s - f)` over the faces: one step of the convolution. */
  function ConvF(ts: seq<seq<int>>, faces: seq<int>, s: int): nat
    decreases |faces|
  {
    if faces == [] then 0 else ConvF(ts, faces[..|faces| - 1], s) + CountSum(ts, s - faces[|faces| - 1])
  }

  /** How many tuples of `ts` have a sum that satisfies `P`. */
  function CountWhere(ts: seq<seq<int>>, P: int -> bool): nat
    decreases |ts|
  {
    if ts == [] then 0 else (if P(Sum(ts[0])) then 1 else 0) + CountWhere(ts[1..], P)
  }

  /** How many tuples of `ts` have a sum in `0..n-1` that satisfies `P`. */
  function CountWhereBelow(ts: seq<seq<int>>, P: int -> bool, n: int): nat
    decreases |ts|
  {
    if ts == [] then 0
    else (if P(Sum(ts[0])) && 0 <= Sum(ts[0]) < n then 1 else 0) + CountWhereBelow(ts[1..], P, n)
  }

  // ----- faces -----

  /**
   * The face loop runs exactly `FaceCount` times: its `j`-th face,
   * `step*(j+1)`, is within `max` exactly when `j < FaceCount`.
   */
  lemma FaceLoopBound(d: DiceType, j: nat)
    requires Enumerable(d) && j <= FaceCount(d)
    ensures StepOf(d) * (j + 1) <= MaxOf(d) <==> j < FaceCount(d)
  {
    var step, max := StepOf(d), MaxOf(d);
    if step > 0 && max >= step {
      var k := max / step;
      assert max == step * k + max % step && 0 <= max % step < step;
      if j < k {
        LessTimes(j + 1, k, step);
      } else {
        assert step * (j + 1) == step * k + step;
      }
    } else if step > 0 {
      assert j == 0;
    } else {
      assert j == 0;
    }
  }

  /** Every face lies between the die's first face `step` and its `max`. */
  lemma FaceBounds(d: DiceType, j: nat)
    requires j < FaceCount(d)
    ensures 1 <= StepOf(d) <= Faces(d)[j] <= MaxOf(d)
  {
    var step, max := StepOf(d), MaxOf(d);
    var k := max / step;
    assert max == step * k + max % step && 0 <= max % step < step;
    LessTimes(j + 1, k, step);
    LessTimes(1, j + 1, step);
  }

  // ----- counting -----

  lemma {:induction false} CountSumConcat(x: seq<seq<int>>, y: seq<seq<int>>, s: int)
    ensures CountSum(x + y, s) == CountSum(x, s) + CountSum(y, s)
  {
    if x == [] {
      assert x + y == y;
    } else {
      assert (x + y)[0] == x[0] && (x + y)[1..] == x[1..] + y;
      CountSumConcat(x[1..], y, s);
    }
  }

  lemma SumAppend(t: seq<int>, f: int)
    ensures Sum(t + [f]) == Sum(t) + f
  {
    assert (t + [f])[..|t|] == t;
  }

  /** Extending one tuple by the faces reaches `s` once per face equal to `s - Sum(t)`. */
  lemma {:induction false} AppendedCount(t: seq<int>, faces: seq<int>, s: int)
    ensures CountSum(Appended(t, faces), s) == CountIn(faces, s - Sum(t))
    decreases |faces|
  {
    if faces != [] {
      var f := faces[|faces| - 1];
      AppendedCount(t, faces[..|faces| - 1], s);
      CountSumConcat(Appended(t, faces[..|faces| - 1]), [t + [f]], s);
      SumAppend(t, f);
    }
  }

  lemma {:induction false} ConvFEmpty(faces: seq<int>, s: int)
    ensures ConvF([], faces, s) == 0
    decreases |faces|
  {
    if faces != [] {
      ConvFEmpty(faces[..|faces| - 1], s);
    }
  }

  /** The convolution splits off the first tuple. */
  lemma {:induction false} ConvFSplit(t: seq<int>, rest: seq<seq<int>>, faces: seq<int>, s: int)
    ensures ConvF([t] + rest, faces, s) == CountIn(faces, s - Sum(t)) + ConvF(rest, faces, s)
    decreases |faces|
  {
    if faces != [] {
      var f := faces[|faces| - 1];
      ConvFSplit(t, rest, faces[..|faces| - 1], s);
      assert ([t] + rest)[0] == t && ([t] + rest)[1..] == rest;
      assert CountSum([t] + rest, s - f) == (if Sum(t) == s - f then 1 else 0) + CountSum(rest, s - f);
    }
  }

  /**
   * Counting the extended tuples that reach `s` is the convolution: the
   * tuples of `ts` that reach `s - f`, summed over the faces `f`.
   */
  lemma {:induction false} ExtendCount(ts: seq<seq<int>>, faces: seq<int>, s: int)
    ensures CountSum(Extend(ts, faces), s) == ConvF(ts, faces, s)
    decreases |ts|
  {
    if ts == [] {
      ConvFEmpty(faces, s);
    } else {
      CountSumConcat(Appended(ts[0], faces), Extend(ts[1..], faces), s);
      AppendedCount(ts[0], faces, s);
      ExtendCount(ts[1..], faces, s);
      assert ts == [ts[0]] + ts[1..];
      ConvFSplit(ts[0], ts[1..], faces, s);
    }
  }

  /** Adding one die convolves the counts with its faces. */
  lemma TupleCountStep(ds: seq<DiceType>, d: DiceType, s: int)
    ensures TupleCount(ds + [d], s) == ConvF(Tuples(ds), Faces(d), s)
  {
    assert (ds + [d])[..|ds|] == ds;
    ExtendCount(Tuples(ds), Faces(d), s);
  }

  // ----- the shape of the tuples -----

  lemma {:induction false} AppendedMember(t: seq<int>, faces: seq<int>, u: seq<int>) returns (j: nat)
    requires u in Appended(t, faces)
    ensures j < |faces| && u == t + [faces[j]]
    decreases |faces|
  {
    var last := faces[|faces| - 1];
    if u == t + [last] {
      j := |faces| - 1;
    } else {
      j := AppendedMember(t, faces[..|faces| - 1], u);
    }
  }

  lemma {:induction false} ExtendMember(ts: seq<seq<int>>, faces: seq<int>, u: seq<int>) returns (t: seq<int>, j: nat)
    requires u in Extend(ts, faces)
    ensures t in ts && j < |faces| && u == t + [faces[j]]
    decreases |ts|
  {
    if u in Appended(ts[0], faces) {
      t := ts[0];
      j := AppendedMember(ts[0], faces, u);
    } else {
      t, j := ExtendMember(ts[1..], faces, u);
    }
  }

  /**
   * Every throw's sum lies between the smallest and the largest sum, and a
   * throw exists only if every die shows at least the face 1.
   */
  lemma {:induction false} TupleSumBounds(ds: seq<DiceType>, u: seq<int>)
    requires u in Tuples(ds)
    ensures |u| == |ds| && |ds| <= MinSum(ds) <= Sum(u) <= MaxSum(ds)
    decreases |ds|
  {
    if ds != [] {
      var init, d := ds[..|ds| - 1], ds[|ds| - 1];
      var t, j := ExtendMember(Tuples(init), Faces(d), u);
      TupleSumBounds(init, t);
      FaceBounds(d, j);
      SumAppend(t, Faces(d)[j]);
    }
  }

  lemma {:induction false} CountSumAbsent(ts: seq<seq<int>>, s: int)
    requires forall t :: t in ts ==> Sum(t) != s
    ensures CountSum(ts, s) == 0
    decreases |ts|
  {
    if ts != [] {
      assert ts[0] in ts;
      CountSumAbsent(ts[1..], s);
    }
  }

  lemma {:induction false} CountSumPresent(ts: seq<seq<int>>, t: seq<int>)
    requires t in ts
    ensures CountSum(ts, Sum(t)) >= 1
    decreases |ts|
  {
    if ts[0] != t {
      CountSumPresent(ts[1..], t);
    }
  }

  /** No throw sums below `MinSum` or above `MaxSum`, and in particular none below 0. */
  lemma TupleCountOutside(ds: seq<DiceType>, s: int)
    requires s < MinSum(ds) || s > MaxSum(ds) || s < 0
    ensures TupleCount(ds, s) == 0
  {
    forall t | t in Tuples(ds)
      ensures Sum(t) != s
    {
      TupleSumBounds(ds, t);
    }
    CountSumAbsent(Tuples(ds), s);
  }

  /** There are as many throws as the product of the face counts. */
  lemma {:induction false} TuplesLength(ds: seq<DiceType>)
    ensures |Tuples(ds)| == Product(ds)
    decreases |ds|
  {
    if ds != [] {
      var init, d := ds[..|ds| - 1], ds[|ds| - 1];
      TuplesLength(init);
      ExtendLength(Tuples(init), Faces(d));
    }
  }

  lemma {:induction false} ExtendLength(ts: seq<seq<int>>, faces: seq<int>)
    ensures |Extend(ts, faces)| == |ts| * |faces|
    decreases |ts|
  {
    if ts != [] {
      AppendedLength(ts[0], faces);
      ExtendLength(ts[1..], faces);
      assert |ts| * |faces| == |faces| + (|ts| - 1) * |faces|;
    }
  }

  lemma {:induction false} AppendedLength(t: seq<int>, faces: seq<int>)
    ensures |Appended(t, faces)| == |faces|
    decreases |faces|
  {
    if faces != [] {
      AppendedLength(t, faces[..|faces| - 1]);
    }
  }

  // ----- counting by a predicate on the sum -----

  /** Counting the sums in `0..n` adds the tuples that sum to `n`. */
  lemma {:induction false} CountWhereBelowStep(ts: seq<seq<int>>, P: int -> bool, n: nat)
    ensures CountWhereBelow(ts, P, n + 1) == CountWhereBelow(ts, P, n) + (if P(n) then CountSum(ts, n) else 0)
    decreases |ts|
  {
    if ts != [] {
      CountWhereBelowStep(ts[1..], P, n);
    }
  }

  /** Once every sum is in `0..n-1`, the bound no longer excludes anything. */
  lemma {:induction false} CountWhereBelowAll(ts: seq<seq<int>>, P: int -> bool, n: int)
    requires forall t :: t in ts ==> 0 <= Sum(t) < n
    ensures CountWhereBelow(ts, P, n) == CountWhere(ts, P)
    decreases |ts|
  {
    if ts != [] {
      assert ts[0] in ts;
      CountWhereBelowAll(ts[1..], P, n);
    }
  }

  /** A predicate every sum of `ts` satisfies counts every tuple. */
  lemma {:induction false} CountWhereSatisfied(ts: seq<seq<int>>, P: int -> bool)
    requires forall t :: t in ts ==> P(Sum(t))
    ensures CountWhere(ts, P) == |ts|
    decreases |ts|
  {
    if ts != [] {
      assert ts[0] in ts;
      CountWhereSatisfied(ts[1..], P);
    }
  }

  /** A predicate no sum of `ts` satisfies counts nothing. */
  lemma {:induction false} CountWhereNothing(ts: seq<seq<int>>, P: int -> bool)
    requires forall t :: t in ts ==> !P(Sum(t))
    ensures CountWhere(ts, P) == 0
    decreases |ts|
  {
    if ts != [] {
      assert ts[0] in ts;
      CountWhereNothing(ts[1..], P);
    }
  }
}
