/**
 * `Probability` of `script.js`: a table of how many throws of a set of dice
 * reach each sum, filled by a convolution that ping-pongs between two rows,
 * and the chance that a threshold compares successfully with a throw.
 *
 * A row is a JavaScript array of counts. A hole in it (an index never
 * written) reads as `undefined`, which `faceSum > 0`, `?? 0` and `reduce`
 * all treat like a count of 0; here a hole is stored as 0.
 */
module Probability {
  import opened Dice
  import opened Combinations
  import opened Operations

  // ----- rows -----

  /** `row[i]` with a missing index read as 0 (`undefined` in the JavaScript). */
  function Get(row: seq<nat>, i: int): nat {
    if 0 <= i < |row| then row[i] else 0
  }

  /** `row[i] = v`: a JavaScript array grows to take an index past its end. */
  function SetAt(row: seq<nat>, i: nat, v: nat): (r: seq<nat>)
    ensures |r| == if i < |row| then |row| else i + 1
    ensures Get(r, i) == v && forall j :: j != i ==> Get(r, j) == Get(row, j)
  {
    if i < |row| then row[i := v] else row + seq(i - |row|, _ => 0) + [v]
  }

  /** `row.length = n`: the array is cut off, or grows by holes. */
  function Resize(row: seq<nat>, n: nat): (r: seq<nat>)
    ensures |r| == n && forall j :: 0 <= j < n ==> Get(r, j) == if j < |row| then row[j] else 0
  {
    if n <= |row| then row[..n] else row + seq(n - |row|, _ => 0)
  }

  /** `row.reduce((o,v) => o + v, 0)`. */
  function RowSum(row: seq<nat>): nat
    decreases |row|
  {
    if row == [] then 0 else RowSum(row[..|row| - 1]) + row[|row| - 1]
  }

  /** `row.reduce((o,v,i) => P(i) ? o + v : o, 0)`: the counts of the indices `P` accepts. */
  function RowHits(row: seq<nat>, P: int -> bool): nat
    decreases |row|
  {
    if row == [] then 0 else RowHits(row[..|row| - 1], P) + (if P(|row| - 1) then row[|row| - 1] else 0)
  }

  /** `Σ_k row[s - faces[k]]`: what the face loop adds up for the sum `s`. */
  function RowConv(row: seq<nat>, faces: seq<int>, s: int): nat
    decreases |faces|
  {
    if faces == [] then 0 else RowConv(row, faces[..|faces| - 1], s) + Get(row, s - faces[|faces| - 1])
  }

  /** The row holds the throw counts of `ds`; for no dice, it is empty. */
  ghost predicate Tabulates(row: seq<nat>, ds: seq<DiceType>) {
    (|ds| == 0 ==> row == []) && (|ds| > 0 ==> forall s :: Get(row, s) == TupleCount(ds, s))
  }

  /** The row holds the throw counts of `ds` at every sum up to `max`. */
  ghost predicate CountsUpTo(row: seq<nat>, ds: seq<DiceType>, max: int) {
    forall x :: x <= max ==> Get(row, x) == TupleCount(ds, x)
  }

  /** The outcome of `Check`: `NaN`, or the exact fraction `hits / total`. */
  datatype Chance = NotANumber | Ratio(hits: nat, total: nat)

  /** The JavaScript `hits / total` for counts with `hits <= total`: `0/0` is `NaN`. */
  function Quotient(hits: nat, total: nat): (r: Chance)
    requires hits <= total
    ensures r == NotANumber <==> total == 0
    ensures r.Ratio? ==> r.hits == hits && r.total == total
  {
    if total == 0 then NotANumber else Ratio(hits, total)
  }

  /** The comparison `op(value, i)` as a predicate on sums. */
  function Compare(op: Op, value: Number): int -> bool {
    i => Holds(op, value, i)
  }

  // ----- the table -----

  class Table {
    /** `_diceSums_`: the two rows the convolution alternates between. */
    var diceSums: seq<seq<nat>>
    /** `_diceSumIndex_`: which row holds the result. */
    var diceSumIndex: nat
    /** `_diceSumMax_`: the sum of that row, the number of throws. */
    var diceSumMax: nat
    /** The dice of the last `Setup`; none before the first. */
    ghost var dice: seq<DiceType>

    ghost predicate Valid()
      reads this
    {
      |diceSums| == 2 && diceSumIndex < 2 && diceSumMax == RowSum(diceSums[diceSumIndex])
      && Tabulates(diceSums[diceSumIndex], dice)
    }

    /**
     * The state `Setup(dice)` leaves: the result row is row `|dice| mod 2`
     * and tabulates `dice`, the other row is empty, the total is the product
     * of the face counts (0 for no dice) and no index lies above `diceMax`.
     */
    ghost predicate SetUp(dice: seq<DiceType>)
      reads this
    {
      |diceSums| == 2 && diceSumIndex < 2 && this.dice == dice
      && diceSumIndex == |dice| % 2 && diceSums[1 - diceSumIndex] == []
      && Tabulates(Row(), dice)
      && (|dice| == 0 ==> Row() == [] && diceSumMax == 0)
      && (|dice| > 0 ==> diceSumMax == Product(dice))
      && (Row() == [] || |Row()| <= MaxSum(dice) + 1)
    }

    /** The row `Check` reads. */
    function Row(): seq<nat>
      reads this
      requires |diceSums| == 2 && diceSumIndex < 2
    {
      diceSums[diceSumIndex]
    }

    /** A new table: two empty rows, nothing tabulated. */
    constructor ()
      ensures Valid() && dice == [] && diceSums == [[], []] && diceSumIndex == 0 && diceSumMax == 0
    {
      diceSums := [[], []];
      diceSumIndex := 0;
      diceSumMax := 0;
      dice := [];
    }

    /**
     * `Setup(dice)`: after it, row `|dice| mod 2` holds at each index `s` the
     * number of throws of `dice` that sum to `s` (empty for no dice), has no
     * index above `diceMax`, the other row is empty, and the total is the
     * product of the face counts.
     */
    method Setup(dice: seq<DiceType>)
      requires |diceSums| == 2
      requires forall d :: d in dice ==> Enumerable(d)
      modifies this
      ensures Valid() && SetUp(dice)
    {
      Start(|dice| > 0);
      var diceMax := MaxSum(dice);
      if |dice| > 0 {
        NoDiceCounts(dice[..0], diceMax);
      }
      var i := 0;
      while i < |dice|
        invariant 0 <= i <= |dice| && |diceSums| == 2
        invariant |dice| == 0 ==> diceSums[0] == []
        invariant |dice| > 0 ==> CountsUpTo(diceSums[i % 2], dice[..i], diceMax)
        invariant i > 0 ==> diceSums[i % 2] == [] || |diceSums[i % 2]| <= diceMax + 1
      {
        Parity(i);
        var a, b := i % 2, (i + 1) % 2;
        diceSums := diceSums[b := Resize(diceSums[b], 0)];
        var d := dice[i];
        ghost var cur := diceSums[a];
        FoldDie(a, b, d, diceMax);
        AddDie(cur, diceSums[b], dice[..i], d, diceMax);
        PrefixStep(dice, i);
        i := i + 1;
      }
      assert dice[..i] == dice;
      Finish(dice);
    }

    /** The start of `Setup`: row 0 becomes `[1]` when there are dice, else empty. */
    method Start(some: bool)
      requires |diceSums| == 2
      modifies this
      ensures |diceSums| == 2 && diceSums[0] == (if some then [1] else []) && diceSums[1] == old(diceSums[1])
    {
      if some {
        diceSums := diceSums[0 := SetAt(diceSums[0], 0, 1)];
        diceSums := diceSums[0 := Resize(diceSums[0], 1)];
        assert diceSums[0] == [1];
      } else {
        diceSums := diceSums[0 := Resize(diceSums[0], 0)];
      }
    }

    /**
     * The end of `Setup`: the unused row is emptied, and the index and the
     * total of the result row are recorded.
     */
    method Finish(dice: seq<DiceType>)
      requires |diceSums| == 2
      requires |dice| == 0 ==> diceSums[0] == []
      requires |dice| > 0 ==> CountsUpTo(diceSums[|dice| % 2], dice, MaxSum(dice))
      requires |dice| > 0 ==> diceSums[|dice| % 2] == [] || |diceSums[|dice| % 2]| <= MaxSum(dice) + 1
      modifies this
      ensures Valid() && SetUp(dice)
    {
      Parity(|dice|);
      var index, other := |dice| % 2, (|dice| + 1) % 2;
      ghost var row := diceSums[index];
      if |dice| > 0 {
        Tabulated(row, dice);
      }
      diceSums := diceSums[other := Resize(diceSums[other], 0)];
      assert diceSums[index] == row && diceSums[other] == [];
      diceSumIndex := index;
      diceSumMax := RowSum(diceSums[diceSumIndex]);
      this.dice := dice;
    }

    /**
     * The loop over `sum` of `Setup` for one die `d`: row `b`, emptied
     * before, receives at each sum up to `diceMax` the convolution of row
     * `a` with the die's faces.
     */
    method FoldDie(a: nat, b: nat, d: DiceType, diceMax: int)
      requires |diceSums| == 2 && a < 2 && b < 2 && a != b && diceSums[b] == [] && Enumerable(d)
      modifies this
      ensures |diceSums| == 2 && diceSums[a] == old(diceSums[a])
      ensures forall x :: 0 <= x <= diceMax ==> Get(diceSums[b], x) == RowConv(diceSums[a], Faces(d), x)
      ensures forall x :: x < 0 || x > diceMax ==> Get(diceSums[b], x) == 0
      ensures diceSums[b] == [] || |diceSums[b]| <= diceMax + 1
    {
      var sum := 0;
      while sum <= diceMax
        invariant 0 <= sum && (sum == 0 || sum <= diceMax + 1)
        invariant |diceSums| == 2 && diceSums[a] == old(diceSums[a])
        invariant forall x :: 0 <= x < sum ==> Get(diceSums[b], x) == RowConv(diceSums[a], Faces(d), x)
        invariant forall x :: x < 0 || x >= sum ==> Get(diceSums[b], x) == 0
        invariant |diceSums[b]| <= sum
      {
        AddFaces(a, b, d, sum);
        sum := sum + 1;
      }
    }

    /**
     * The loop over `face` of `Setup` at one `sum`: entry `sum` of row `b`
     * gains `row_a[sum - face]` for every face of `d` where that is positive.
     */
    method AddFaces(a: nat, b: nat, d: DiceType, sum: nat)
      requires |diceSums| == 2 && a < 2 && b < 2 && a != b && Enumerable(d) && Get(diceSums[b], sum) == 0
      modifies this
      ensures |diceSums| == 2 && diceSums[a] == old(diceSums[a])
      ensures Get(diceSums[b], sum) == RowConv(diceSums[a], Faces(d), sum)
      ensures forall x :: x != sum ==> Get(diceSums[b], x) == Get(old(diceSums[b]), x)
      ensures |diceSums[b]| <= if |old(diceSums[b])| <= sum then sum + 1 else |old(diceSums[b])|
    {
      var diceFaceMax, diceFaceSteps := MaxOf(d), StepOf(d);
      var face := diceFaceSteps;
      ghost var j := 0;
      while face <= diceFaceMax
        invariant 0 <= j <= FaceCount(d) && face == diceFaceSteps * (j + 1)
        invariant |diceSums| == 2 && diceSums[a] == old(diceSums[a])
        invariant Get(diceSums[b], sum) == RowConv(diceSums[a], Faces(d)[..j], sum)
        invariant forall x :: x != sum ==> Get(diceSums[b], x) == Get(old(diceSums[b]), x)
        invariant |diceSums[b]| <= if |old(diceSums[b])| <= sum then sum + 1 else |old(diceSums[b])|
        decreases FaceCount(d) - j
      {
        FaceLoopBound(d, j);
        assert Faces(d)[..j + 1][..j] == Faces(d)[..j];
        var faceSum := Get(diceSums[a], sum - face);
        if faceSum > 0 {
          diceSums := diceSums[b := SetAt(diceSums[b], sum, Get(diceSums[b], sum) + faceSum)];
        }
        assert diceFaceSteps * (j + 2) == diceFaceSteps * (j + 1) + diceFaceSteps;
        face := face + diceFaceSteps;
        j := j + 1;
      }
      FaceLoopBound(d, j);
      assert Faces(d)[..j] == Faces(d);
    }

    /**
     * `Check(value, comparison)`: `NaN` for a `NaN` value and for an empty
     * table (0/0); otherwise the counts whose sum `i` satisfies
     * `op(value, i)` over all counts.
     */
    function Check(value: Number, op: Op): (r: Chance)
      reads this
      requires Valid()
      ensures r == NotANumber <==> value == NaN || diceSumMax == 0
      ensures r.Ratio? ==> r.total == diceSumMax && r.hits <= r.total
    {
      if value == NaN then NotANumber
      else
        RowHitsAtMostSum(Row(), Compare(op, value));
        Quotient(RowHits(Row(), Compare(op, value)), diceSumMax)
    }
  }

  // ----- the convolution step -----

  /** The row `[1]` of `Setup` before the first die: the one empty throw sums to 0. */
  lemma NoDiceCounts(ds: seq<DiceType>, max: int)
    requires ds == []
    ensures CountsUpTo([1], ds, max)
  {
    forall x
      ensures Get([1], x) == TupleCount(ds, x)
    {
      assert CountSum([[]], x) == if x == 0 then 1 else 0;
    }
  }

  /** `(n+1)&1` is the other row than `n&1`. */
  lemma Parity(n: nat)
    ensures n % 2 < 2 && (n + 1) % 2 == 1 - n % 2
  {
  }

  lemma PrefixStep<T>(s: seq<T>, i: nat)
    requires i < |s|
    ensures s[..i + 1] == s[..i] + [s[i]]
  {
  }

  /**
   * One pass of the `sum` loop turns the counts of `ds` (valid up to `max`)
   * into the counts of `ds + [d]`: the face loop's sum is the convolution.
   */
  lemma AddDie(cur: seq<nat>, next: seq<nat>, ds: seq<DiceType>, d: DiceType, max: int)
    requires CountsUpTo(cur, ds, max)
    requires forall x :: 0 <= x <= max ==> Get(next, x) == RowConv(cur, Faces(d), x)
    requires forall x :: x < 0 ==> Get(next, x) == 0
    ensures CountsUpTo(next, ds + [d], max)
  {
    forall x | x <= max
      ensures Get(next, x) == TupleCount(ds + [d], x)
    {
      if x < 0 {
        TupleCountOutside(ds + [d], x);
      } else {
        RowConvCounts(cur, Tuples(ds), Faces(d), x, max);
        TupleCountStep(ds, d, x);
      }
    }
  }

  /** Where the row agrees with the counts, so does its convolution with positive faces. */
  lemma {:induction false} RowConvCounts(row: seq<nat>, ts: seq<seq<int>>, faces: seq<int>, s: int, max: int)
    requires forall y :: y <= max ==> Get(row, y) == CountSum(ts, y)
    requires forall k :: 0 <= k < |faces| ==> faces[k] >= 1
    requires s <= max
    ensures RowConv(row, faces, s) == ConvF(ts, faces, s)
    decreases |faces|
  {
    if faces != [] {
      RowConvCounts(row, ts, faces[..|faces| - 1], s, max);
    }
  }

  /** The faces the table convolves with are positive. */
  lemma FacesPositive(d: DiceType)
    ensures forall k :: 0 <= k < |Faces(d)| ==> Faces(d)[k] >= 1
  {
    forall k | 0 <= k < |Faces(d)|
      ensures Faces(d)[k] >= 1
    {
      FaceBounds(d, k);
    }
  }

  /**
   * Past `diceMax` both the row and the counts are 0, so a row that is
   * right up to `diceMax` holds every count, and adds up to the product of
   * the face counts.
   */
  lemma Tabulated(row: seq<nat>, ds: seq<DiceType>)
    requires |ds| > 0
    requires CountsUpTo(row, ds, MaxSum(ds))
    requires row == [] || |row| <= MaxSum(ds) + 1
    ensures Tabulates(row, ds) && RowSum(row) == Product(ds)
  {
    forall s | s > MaxSum(ds)
      ensures Get(row, s) == TupleCount(ds, s)
    {
      TupleCountOutside(ds, s);
    }
    RowSumCounts(row, Tuples(ds));
    TuplesLength(ds);
  }

  // ----- sums over a row -----

  lemma {:induction false} RowHitsAtMostSum(row: seq<nat>, P: int -> bool)
    ensures RowHits(row, P) <= RowSum(row)
    decreases |row|
  {
    if row != [] {
      RowHitsAtMostSum(row[..|row| - 1], P);
    }
  }

  /** The indices `P` accepts and those it rejects share out the whole row. */
  lemma {:induction false} RowHitsComplement(row: seq<nat>, P: int -> bool, Q: int -> bool)
    requires forall i :: 0 <= i < |row| ==> (Q(i) <==> !P(i))
    ensures RowHits(row, P) + RowHits(row, Q) == RowSum(row)
    decreases |row|
  {
    if row != [] {
      RowHitsComplement(row[..|row| - 1], P, Q);
    }
  }

  /** Accepting more indices never counts fewer throws. */
  lemma {:induction false} RowHitsMonotone(row: seq<nat>, P: int -> bool, Q: int -> bool)
    requires forall i :: 0 <= i < |row| ==> P(i) ==> Q(i)
    ensures RowHits(row, P) <= RowHits(row, Q)
    decreases |row|
  {
    if row != [] {
      RowHitsMonotone(row[..|row| - 1], P, Q);
    }
  }

  /** Summing the first `n` counts of a row that holds the counts of `ts`. */
  lemma {:induction false} RowHitsPrefix(row: seq<nat>, ts: seq<seq<int>>, P: int -> bool, n: nat)
    requires n <= |row|
    requires forall s :: Get(row, s) == CountSum(ts, s)
    ensures RowHits(row[..n], P) == CountWhereBelow(ts, P, n)
  {
    if n == 0 {
      CountWhereBelowEmpty(ts, P);
    } else {
      assert row[..n][..n - 1] == row[..n - 1];
      RowHitsPrefix(row, ts, P, n - 1);
      CountWhereBelowStep(ts, P, n - 1);
      assert Get(row, n - 1) == CountSum(ts, n - 1);
    }
  }

  lemma {:induction false} CountWhereBelowEmpty(ts: seq<seq<int>>, P: int -> bool)
    ensures CountWhereBelow(ts, P, 0) == 0
    decreases |ts|
  {
    if ts != [] {
      CountWhereBelowEmpty(ts[1..], P);
    }
  }

  /**
   * A row that holds the counts of `ts` gives, for any predicate on the sum,
   * the number of tuples whose sum satisfies it.
   */
  lemma RowHitsCounts(row: seq<nat>, ts: seq<seq<int>>, P: int -> bool)
    requires forall s :: Get(row, s) == CountSum(ts, s)
    ensures RowHits(row, P) == CountWhere(ts, P)
  {
    RowHitsPrefix(row, ts, P, |row|);
    assert row[..|row|] == row;
    forall t | t in ts
      ensures 0 <= Sum(t) < |row|
    {
      CountSumPresent(ts, t);
    }
    CountWhereBelowAll(ts, P, |row|);
  }

  /** Such a row adds up to the number of tuples. */
  lemma RowSumCounts(row: seq<nat>, ts: seq<seq<int>>)
    requires forall s :: Get(row, s) == CountSum(ts, s)
    ensures RowSum(row) == |ts|
  {
    var everything: int -> bool := _ => true;
    RowHitsCounts(row, ts, everything);
    RowHitsComplement(row, everything, _ => false);
    RowHitsNone(row, _ => false);
    CountWhereSatisfied(ts, everything);
  }

  lemma {:induction false} RowHitsNone(row: seq<nat>, P: int -> bool)
    requires forall i :: !P(i)
    ensures RowHits(row, P) == 0
    decreases |row|
  {
    if row != [] {
      RowHitsNone(row[..|row| - 1], P);
    }
  }

  // ----- what `Check` means -----

  /**
   * After `Setup(dice)`, `Check(value, op)` is the fraction of the throws of
   * `dice` whose sum `s` satisfies `op(value, s)`, out of all
   * `Product(dice)` throws; it is `NaN` for a `NaN` value, for no dice and
   * for dice without faces.
   */
  lemma CheckMeaning(t: Table, value: Number, op: Op)
    requires t.Valid()
    ensures value == NaN || |t.dice| == 0 || Product(t.dice) == 0 ==> t.Check(value, op) == NotANumber
    ensures value != NaN && |t.dice| > 0 && Product(t.dice) > 0 ==>
      t.Check(value, op) == Ratio(CountWhere(Tuples(t.dice), Compare(op, value)), Product(t.dice))
  {
    if |t.dice| > 0 {
      RowHitsCounts(t.Row(), Tuples(t.dice), Compare(op, value));
      RowSumCounts(t.Row(), Tuples(t.dice));
      TuplesLength(t.dice);
    }
  }

  /**
   * For a value that is not `NaN`, the `GE` and `LT` counts (and the `LE`
   * and `GT` counts) at the same value add up to the total.
   */
  lemma CheckComplements(t: Table, value: Number)
    requires t.Valid() && value != NaN && t.diceSumMax > 0
    ensures t.Check(value, GE).hits + t.Check(value, LT).hits == t.diceSumMax
    ensures t.Check(value, LE).hits + t.Check(value, GT).hits == t.diceSumMax
  {
    forall i | 0 <= i < |t.Row()|
      ensures Compare(LT, value)(i) <==> !Compare(GE, value)(i)
      ensures Compare(GT, value)(i) <==> !Compare(LE, value)(i)
    {
      Trichotomy(value, i);
    }
    RowHitsComplement(t.Row(), Compare(GE, value), Compare(LT, value));
    RowHitsComplement(t.Row(), Compare(LE, value), Compare(GT, value));
  }

  /**
   * The `GE` chance, `value >= s`, grows with the value: more sums lie at or
   * below a larger threshold.
   */
  lemma CheckMonotone(t: Table, x: real, y: real)
    requires t.Valid() && t.diceSumMax > 0 && x <= y
    ensures t.Check(Finite(x), GE).hits <= t.Check(Finite(y), GE).hits
    ensures t.Check(Finite(y), LE).hits <= t.Check(Finite(x), LE).hits
  {
    RowHitsMonotone(t.Row(), Compare(GE, Finite(x)), Compare(GE, Finite(y)));
    RowHitsMonotone(t.Row(), Compare(LE, Finite(y)), Compare(LE, Finite(x)));
  }

  /**
   * The boundaries of the `GE` chance after `Setup(dice)`: a value below the
   * smallest sum meets no throw, a value at or above `diceMax` meets all.
   */
  lemma CheckBounds(t: Table, x: real)
    requires t.Valid() && |t.dice| > 0 && t.diceSumMax > 0
    ensures x < MinSum(t.dice) as real ==> t.Check(Finite(x), GE) == Ratio(0, t.diceSumMax)
    ensures x >= MaxSum(t.dice) as real ==> t.Check(Finite(x), GE) == Ratio(t.diceSumMax, t.diceSumMax)
  {
    var ts := Tuples(t.dice);
    var P := Compare(GE, Finite(x));
    CheckMeaning(t, Finite(x), GE);
    RowSumCounts(t.Row(), ts);
    TuplesLength(t.dice);
    if x < MinSum(t.dice) as real {
      forall u | u in ts
        ensures !P(Sum(u))
      {
        TupleSumBounds(t.dice, u);
      }
      CountWhereNothing(ts, P);
    }
    if x >= MaxSum(t.dice) as real {
      forall u | u in ts
        ensures P(Sum(u))
      {
        TupleSumBounds(t.dice, u);
      }
      CountWhereSatisfied(ts, P);
    }
  }
}
