/** Block copies between multi-dimensional arrays: MultiDimArray_CalculateCopyIndicesIterImpl, an
  * odometer over the coordinates of a block, and RRMultiDimArray::RetrieveSubArray. */
module CopyIndices {
  import opened Numbers
  import opened Results

  type Coordinates = seq<nat>

  // ---------------------------------------------------------------- column-major positions

  function Size(dims: Coordinates): nat
  {
    if dims == [] then 1 else dims[0] * Size(dims[1..])
  }

  /** The position of x in column-major order; also the number with digits x in radices dims. */
  function Flat(x: Coordinates, dims: Coordinates): nat
    requires |x| <= |dims|
  {
    if x == [] then 0 else x[0] + dims[0] * Flat(x[1..], dims[1..])
  }

  predicate Within(x: Coordinates, dims: Coordinates)
  {
    |x| == |dims| && forall i | 0 <= i < |x| :: x[i] < dims[i]
  }

  lemma Mul(a: nat, b: nat, c: nat)
    requires b <= c
    ensures a * b <= a * c
  {
  }

  lemma {:induction false} FlatBound(x: Coordinates, dims: Coordinates)
    requires Within(x, dims)
    ensures Flat(x, dims) < Size(dims)
  {
    if x != [] {
      FlatBound(x[1..], dims[1..]);
      Mul(dims[0], Flat(x[1..], dims[1..]) + 1, Size(dims[1..]));
    }
  }

  lemma Digit(a: nat, b: nat, c: nat, d: nat, r: nat)
    requires a < r && c < r && a + r * b == c + r * d
    ensures a == c && b == d
  {
    if b < d {
      Mul(r, b + 1, d);
    } else if d < b {
      Mul(r, d + 1, b);
    }
  }

  /** Different coordinates have different positions. */
  lemma {:induction false} FlatInjective(x: Coordinates, y: Coordinates, dims: Coordinates)
    requires Within(x, dims) && Within(y, dims) && Flat(x, dims) == Flat(y, dims)
    ensures x == y
  {
    if x != [] {
      Digit(x[0], Flat(x[1..], dims[1..]), y[0], Flat(y[1..], dims[1..]), dims[0]);
      FlatInjective(x[1..], y[1..], dims[1..]);
      assert x == [x[0]] + x[1..] && y == [y[0]] + y[1..];
    }
  }

  predicate Positive(dims: Coordinates) { forall i | 0 <= i < |dims| :: dims[i] > 0 }

  function Quotient(k: nat, d: nat): (q: nat)
    requires d > 0
    ensures d * q <= k < d * (q + 1)
  {
    k / d
  }

  function Digits(k: nat, dims: Coordinates): (x: Coordinates)
    requires Positive(dims)
    ensures |x| == |dims|
    decreases dims
  {
    if dims == [] then [] else [k - dims[0] * Quotient(k, dims[0])] + Digits(Quotient(k, dims[0]), dims[1..])
  }

  /** Every number below the size is the position of coordinates within. */
  lemma {:induction false} FlatOnto(k: nat, dims: Coordinates)
    requires Positive(dims) && k < Size(dims)
    ensures Within(Digits(k, dims), dims) && Flat(Digits(k, dims), dims) == k
    decreases dims
  {
    if dims != [] {
      var q := Quotient(k, dims[0]);
      if q >= Size(dims[1..]) {
        Mul(dims[0], Size(dims[1..]), q);
        assert false;
      }
      FlatOnto(q, dims[1..]);
      assert Digits(k, dims)[1..] == Digits(q, dims[1..]);
    }
  }

  function Times(a: nat, b: nat): nat { a * b }

  lemma FlatUnfolds(x: Coordinates, dims: Coordinates)
    requires 0 < |x| <= |dims|
    ensures Flat(x, dims) == x[0] + Times(dims[0], Flat(x[1..], dims[1..]))
  {}

  lemma SizeUnfolds(dims: Coordinates, n: nat)
    requires 0 < n <= |dims|
    ensures Size(dims[..n]) == Times(dims[0], Size(dims[1..][..n - 1]))
  {
    assert dims[..n][1..] == dims[1..][..n - 1];
  }

  lemma TimesDistributes(d: nat, f: nat, y: nat, s: nat)
    ensures Times(d, f + Times(y, s)) == Times(d, f) + Times(y, Times(d, s))
  {
    assert d * (f + y * s) == d * f + d * (y * s) && d * (y * s) == y * (d * s);
  }

  lemma {:induction false} FlatAppend(x: Coordinates, y: nat, dims: Coordinates)
    requires |x| < |dims|
    ensures Flat(x + [y], dims) == Flat(x, dims) + Times(y, Size(dims[..|x|]))
  {
    if x == [] {
      assert [y][1..] == [] && x + [y] == [y];
    } else {
      hide Flat, Size, Times;
      FlatAppend(x[1..], y, dims[1..]);
      assert (x + [y])[1..] == x[1..] + [y];
      FlatUnfolds(x + [y], dims);
      FlatUnfolds(x, dims);
      SizeUnfolds(dims, |x|);
      TimesDistributes(dims[0], Flat(x[1..], dims[1..]), y, Size(dims[1..][..|x| - 1]));
    }
  }

  lemma {:induction false} SizeAppend(dims: Coordinates, d: nat)
    ensures Size(dims + [d]) == Size(dims) * d
  {
    if dims == [] {
      assert [d][1..] == [];
    } else {
      SizeAppend(dims[1..], d);
      assert (dims + [d])[1..] == dims[1..] + [d];
    }
  }

  /** A carry from digit j to digit j + 1 leaves the number as it is. */
  lemma {:induction false} Carry(x: Coordinates, dims: Coordinates, j: nat)
    requires |x| == |dims| && j + 1 < |x| && x[j] >= dims[j]
    ensures Flat(x[j := x[j] - dims[j]][j + 1 := x[j + 1] + 1], dims) == Flat(x, dims)
  {
    var y := x[j := x[j] - dims[j]][j + 1 := x[j + 1] + 1];
    if j == 0 {
      assert y[1..] == x[1..][0 := x[1] + 1];
      assert y[1..][1..] == x[1..][1..];
    } else {
      Carry(x[1..], dims[1..], j - 1);
      assert y[1..] == x[1..][j - 1 := x[j] - dims[j]][j := x[j + 1] + 1];
    }
  }

  lemma {:induction false} FlatStep(x: Coordinates, dims: Coordinates)
    requires 0 < |x| <= |dims|
    ensures Flat(x[0 := x[0] + 1], dims) == Flat(x, dims) + 1
  {
    assert x[0 := x[0] + 1][1..] == x[1..];
  }

  // ---------------------------------------------------------------- blocks inside arrays

  function Shift(p: Coordinates, pos: Coordinates): (x: Coordinates)
    requires |p| <= |pos|
    ensures |x| == |p| && forall i | 0 <= i < |p| :: x[i] == p[i] + pos[i]
  {
    if p == [] then [] else [p[0] + pos[0]] + Shift(p[1..], pos[1..])
  }

  /** The block fits the first dimensions of the array, and the array's positions fit 32 bits. */
  predicate Fits(dims: Coordinates, pos: Coordinates, count: Coordinates)
  {
    && 0 < |count| <= |dims| && |count| <= |pos|
    && (forall i | 0 <= i < |count| :: pos[i] + count[i] <= dims[i])
    && Size(dims[..|count|]) <= UINT32_MAX
  }

  /** Coordinates of the first element of a run: dimension 0 at the start of the block. */
  predicate Starts(p: Coordinates, count: Coordinates)
  {
    |p| == |count| > 0 && p[0] == 0 && Within(p[1..], count[1..])
  }

  lemma {:induction false} FlatPrefix(x: Coordinates, dims: Coordinates)
    requires |x| <= |dims|
    ensures Flat(x, dims) == Flat(x, dims[..|x|])
  {
    if x != [] {
      FlatPrefix(x[1..], dims[1..]);
      assert dims[..|x|][1..] == dims[1..][..|x| - 1];
    }
  }

  lemma {:induction false} SizePrefix(dims: Coordinates, j: nat)
    requires Positive(dims) && j <= |dims|
    ensures 1 <= Size(dims[..j]) <= Size(dims)
  {
    if j == 0 {
      if dims != [] { SizePrefix(dims[1..], 0); Mul(1, 1, dims[0]); Mul(dims[0], 1, Size(dims[1..])); }
    } else {
      SizePrefix(dims[1..], j - 1);
      assert dims[..j][1..] == dims[1..][..j - 1];
      Mul(dims[0], Size(dims[1..][..j - 1]), Size(dims[1..]));
      Mul(dims[0], 1, Size(dims[1..][..j - 1]));
    }
  }

  lemma RunInBounds(x: Coordinates, d: Coordinates, len: nat)
    requires |x| == |d| > 0 && Within(x[1..], d[1..]) && x[0] + len <= d[0]
    ensures Flat(x, d) + len <= Size(d)
  {
    FlatBound(x[1..], d[1..]);
    Mul(d[0], Flat(x[1..], d[1..]) + 1, Size(d[1..]));
    assert d[0] * (Flat(x[1..], d[1..]) + 1) == d[0] * Flat(x[1..], d[1..]) + d[0];
  }

  lemma PartialInBounds(x: Coordinates, d: Coordinates, j: nat)
    requires |x| == |d| > 0 && Within(x[1..], d[1..]) && x[0] <= d[0] && 0 < j <= |x|
    ensures Flat(x[..j], d) <= Size(d) && Size(d[..j]) <= Size(d)
  {
    var y, e := x[..j], d[..j];
    assert y[1..] == x[1..][..j - 1] && e[1..] == d[1..][..j - 1];
    RunInBounds(y, e, 0);
    FlatPrefix(y, d);
    assert forall i | 0 <= i < |d[1..]| :: d[1..][i] > 0;
    SizePrefix(d[1..], j - 1);
    Mul(d[0], Size(e[1..]), Size(d[1..]));
  }

  /** A run of the block stays inside the array, and so does every partial sum of its position. */
  lemma RunFits(p: Coordinates, dims: Coordinates, pos: Coordinates, count: Coordinates, j: nat)
    requires Fits(dims, pos, count) && Starts(p, count) && j <= |p|
    ensures var x := Shift(p, pos);
      && Flat(x[..j], dims) <= UINT32_MAX
      && Flat(x, dims) + count[0] <= Size(dims[..|count|])
      && (0 < j ==> Size(dims[..j]) <= UINT32_MAX)
  {
    hide Size, Flat;
    var x, d := Shift(p, pos), dims[..|count|];
    assert forall i | 1 <= i < |x| :: p[i] == p[1..][i - 1] && count[i] == count[1..][i - 1];
    assert Within(x[1..], d[1..]);
    FlatPrefix(x, dims);
    RunInBounds(x, d, count[0]);
    if j > 0 {
      PartialInBounds(x, d, j);
      FlatPrefix(x[..j], dims);
      FlatPrefix(x[..j], d);
      assert d[..j] == dims[..j];
    } else {
      NoDigits(dims);
    }
  }

  lemma NoDigits(dims: Coordinates)
    ensures Flat([], dims) == 0
  {
  }

  // ---------------------------------------------------------------- the iterator

  class CopyIndicesIter {
    const memaDims: seq<uint32>
    const membDims: seq<uint32>
    const memaPos: seq<uint32>
    const membPos: seq<uint32>
    const count: seq<uint32>
    const strideA: seq<uint32>
    const strideB: seq<uint32>
    var currentCount: seq<uint32>
    var done: bool
    ghost var steps: nat   // how many calls of Next have returned true

    /** The number of runs: one for every coordinate in dimensions 1 and up. */
    ghost function Runs(): nat
    {
      if count == [] then 0 else Size(count[1..])
    }

    ghost predicate Strides(dims: seq<uint32>, stride: seq<uint32>)
    {
      |stride| == |count| <= |dims| && forall j | 0 <= j < |count| :: stride[j] == Wrap(Size(dims[..j]))
    }

    ghost predicate Valid()
      reads this
    {
      && 0 < |count| == |currentCount| && |count| <= |memaPos| && |count| <= |membPos|
      && Strides(memaDims, strideA) && Strides(membDims, strideB)
      && currentCount[0] == 0
      && (forall j | 1 <= j < |count| && count[j] > 0 :: currentCount[j] < count[j])
      && (Positive(count[1..]) ==>
            if done then steps == Runs()
            else steps < Runs() && Flat(currentCount[1..], count[1..]) == steps)
      && (!Positive(count[1..]) ==> !done)
    }

    constructor (memaDims: seq<uint32>, memaPos: seq<uint32>, membDims: seq<uint32>, membPos: seq<uint32>,
                 count: seq<uint32>,
                 strideA: seq<uint32>, strideB: seq<uint32>)
      requires 0 < |count| && |count| <= |memaPos| && |count| <= |membPos|
      requires |strideA| == |count| <= |memaDims|
                && forall j | 0 <= j < |count| :: strideA[j] == Wrap(Size(memaDims[..j]))
      requires |strideB| == |count| <= |membDims|
                && forall j | 0 <= j < |count| :: strideB[j] == Wrap(Size(membDims[..j]))
      ensures Valid() && steps == 0 && this.count == count && !done
      ensures this.memaDims == memaDims && this.memaPos == memaPos && this.membDims == membDims
                && this.membPos == membPos
    {
      this.memaDims, this.memaPos, this.membDims, this.membPos, this.count := memaDims, memaPos, membDims, membPos,
          count;
      this.strideA, this.strideB := strideA, strideB;
      currentCount := Zeros32(|count|);
      done, steps := false, 0;
      new;
      ZeroStart(currentCount, count);
    }

    /** The start of the next run in one of the arrays: 32-bit sums of 32-bit products. */
    method Position(pos: seq<uint32>, stride: seq<uint32>, ghost dims: seq<uint32>) returns (index: uint32)
      requires |pos| >= |count| == |currentCount| && Strides(dims, stride)
      ensures Fits(dims, pos, count) && Starts(currentCount, count) ==> index == Flat(Shift(currentCount, pos), dims)
    {
      hide Size, Flat, Wrap, Fits, Starts, Shift;
      index := 0;
      ghost var fits := Fits(dims, pos, count) && Starts(currentCount, count);
      ghost var x := Shift(currentCount, pos);
      NoDigits(dims);
      for j := 0 to |count|
        invariant fits ==> index == Flat(x[..j], dims)
      {
        var term := Wrap(Wrap(currentCount[j] as int + pos[j]) * stride[j]);
        if fits {
          PartialSum(currentCount, dims, pos, count, j, stride[j]);
          WrapSmall(Times(x[j], stride[j]));
          WrapSmall(Flat(x[..j + 1], dims));
          assert term == Times(x[j], stride[j]);
        }
        index := Wrap(index as int + term);
      }
      assert x[..|count|] == x;
    }

    /** The coordinates at which the k-th run starts. */
    ghost function Start(k: nat): Coordinates
      requires 0 < |count| && Positive(count[1..])
    {
      [0] + Digits(k, count[1..])
    }

    method CarryOver(j: nat)
      requires 1 <= j < |currentCount| - 1 && |currentCount| == |count| && currentCount[j] >= count[j] > 0
      requires count[j + 1] > 0 ==> currentCount[j + 1] < count[j + 1]
      modifies `currentCount
      ensures currentCount == old(currentCount)[j := old(currentCount[j]) - count[j]][j
                                                                                      + 1 := Wrap(old(currentCount[j
                                                                                          + 1]) as int + 1)]
      ensures count[j + 1] > 0 ==> currentCount[j + 1] == old(currentCount[j + 1]) + 1
      ensures Positive(count[1..]) ==> Flat(currentCount[1..], count[1..]) == old(Flat(currentCount[1..], count[1..]))
    {
      hide Flat, Wrap;
      ghost var t, r := currentCount[1..], count[1..];
      assert t[j - 1] == currentCount[j] && r[j - 1] == count[j] && t[j] == currentCount[j + 1] && r[j] == count[j + 1];
      Carry(t, r, j - 1);
      if currentCount[j + 1] < UINT32_MAX { WrapSmall(currentCount[j + 1] as int + 1); }
      currentCount := currentCount[j := currentCount[j] - count[j]];
      currentCount := currentCount[j + 1 := Wrap(currentCount[j + 1] as int + 1)];
      if count[j + 1] > 0 {
        assert currentCount[1..] == t[j - 1 := t[j - 1] - r[j - 1]][j := t[j] + 1];
      }
    }

    method Increment()
      requires Valid() && !done && |count| > 1
      modifies `currentCount
      ensures |currentCount| == |count| && currentCount[0] == 0
      ensures forall j | 2 <= j < |count| && count[j] > 0 :: currentCount[j] < count[j]
      ensures count[1] > 0 ==> currentCount[1] <= count[1]
      ensures Positive(count[1..]) ==> Flat(currentCount[1..], count[1..]) == steps + 1
    {
      hide Size, Flat, Wrap;
      ghost var r := count[1..];
      if Positive(r) { FlatStep(currentCount[1..], r); assert r[0] == count[1]; }
      if currentCount[1] < UINT32_MAX { WrapSmall(currentCount[1] as int + 1); }
      currentCount := currentCount[1 := Wrap(currentCount[1] as int + 1)];
      assert currentCount[1..] == old(currentCount[1..])[0 := currentCount[1]];
    }

    /** One digit further, with its carries; `done` when the last digit overflows. */
    method Advance()
      requires Valid() && !done && |count| > 1
      modifies `currentCount, `done
      ensures |currentCount| == |count| && currentCount[0] == 0
      ensures forall j | 1 <= j < |count| && count[j] > 0 :: currentCount[j] < count[j]
      ensures Positive(count[1..]) ==>
                if done then steps + 1 == Runs()
                else steps + 1 < Runs() && Flat(currentCount[1..], count[1..]) == steps + 1
      ensures !Positive(count[1..]) ==> !done
    {
      hide Size, Flat, Wrap, Positive;
      Increment();
      var n := |count|;
      for j := 1 to n
        invariant |currentCount| == n && currentCount[0] == 0 && !done
        invariant forall i | 1 <= i < n && i != j && count[i] > 0 :: currentCount[i] < count[i]
        invariant j < n && count[j] > 0 ==> currentCount[j] <= count[j]
        invariant j < n && count[j] > 0 && (exists i | 1 <= i < j :: count[i] == 0) ==> currentCount[j] < count[j]
        invariant Positive(count[1..]) ==> Flat(currentCount[1..], count[1..]) == steps + 1
      {
        TopOrBelow(count[j]);
        if currentCount[j] > Wrap(count[j] as int - 1) {
          if j < n - 1 {
            CarryOver(j);
          } else {
            AllPositive();
            LastOverflows(currentCount[1..], count[1..]);
            currentCount := currentCount[j := currentCount[j] - count[j]];
            done := true;
            return;
          }
        }
      }
      if Positive(count[1..]) { DigitsBelow(); }
    }

    lemma AllPositive()
      requires |count| > 1 && forall i | 1 <= i < |count| :: count[i] > 0
      ensures Positive(count[1..])
    {}

    lemma DigitsBelow()
      requires |currentCount| == |count| > 1 && Positive(count[1..])
      requires forall j | 1 <= j < |count| && count[j] > 0 :: currentCount[j] < count[j]
      ensures Flat(currentCount[1..], count[1..]) < Runs()
    {
      ghost var t, r := currentCount[1..], count[1..];
      assert forall i | 0 <= i < |r| :: r[i] == count[i + 1] && t[i] == currentCount[i + 1];
      FlatBound(t, r);
    }

    /** Next: the starts and the length of the next run, or false after the last one. Where a
      * dimension above 0 is empty the iteration never ends. */
    method Next() returns (ok: bool, indexa: uint32, indexb: uint32, len: uint32)
      requires Valid()
      modifies this
      ensures Valid()
      ensures !Positive(count[1..]) ==> ok
      ensures Positive(count[1..]) ==> (ok <==> old(steps) < Runs()) && steps == old(steps) + if ok then 1 else 0
      ensures ok ==> len == count[0]
      ensures ok && Positive(count[1..]) ==>
                && Starts(Start(old(steps)), count)
                && (Fits(memaDims, memaPos, count) ==> indexa == Flat(Shift(Start(old(steps)), memaPos), memaDims))
                && (Fits(membDims, membPos, count) ==> indexb == Flat(Shift(Start(old(steps)), membPos), membDims))
    {
      hide Size, Flat, Fits, Shift;
      ok, indexa, indexb, len := false, 0, 0, 0;
      if done { return; }
      if Positive(count[1..]) { AtStart(); }
      indexa := Position(memaPos, strideA, memaDims);
      indexb := Position(membPos, strideB, membDims);
      ok, len := true, count[0];
      if |count| <= 1 {
        done := true;
        OneRun(count);
      } else {
        Advance();
      }
      steps := steps + 1;
    }

    lemma AtMostRuns()
      requires Valid()
      ensures Positive(count[1..]) ==> steps <= Runs()
    {
    }

    lemma AtStart()
      requires Valid() && !done && Positive(count[1..])
      ensures currentCount == Start(steps) && Starts(currentCount, count)
    {
      var t, r := currentCount[1..], count[1..];
      assert forall i | 0 <= i < |r| :: r[i] == count[i + 1] && t[i] == currentCount[i + 1];
      FlatOnto(steps, r);
      FlatInjective(t, Digits(steps, r), r);
      assert currentCount == [0] + t;
    }
  }

  lemma OneRun(count: Coordinates)
    requires |count| == 1
    ensures Size(count[1..]) == 1
  {
  }

  lemma TopOrBelow(c: uint32)
    ensures Wrap(c as int - 1) == if c == 0 then UINT32_MAX else c - 1
  {
  }

  /** A number whose last digit has reached its radix is past the end. */
  lemma LastOverflows(t: Coordinates, r: Coordinates)
    requires |t| == |r| > 0 && t[|t| - 1] >= r[|r| - 1]
    ensures Flat(t, r) >= Size(r)
  {
    var m := |r| - 1;
    FlatAppend(t[..m], t[m], r);
    assert t == t[..m] + [t[m]] && r == r[..m] + [r[m]];
    SizeAppend(r[..m], r[m]);
    Mul(Size(r[..m]), r[m], t[m]);
  }

  /** One more dimension: nothing wraps. */
  lemma PartialSum(p: Coordinates, dims: Coordinates, pos: Coordinates, count: Coordinates, j: nat, stride: uint32)
    requires Fits(dims, pos, count) && Starts(p, count) && j < |p| == |count| <= |pos| && j <= |dims|
              && stride == Wrap(Size(dims[..j]))
    requires forall i | 0 <= i < |dims| :: dims[i] <= UINT32_MAX
    ensures var x := Shift(p, pos);
      && Wrap(p[j] + pos[j]) == x[j] && Times(x[j], stride) <= UINT32_MAX
      && Flat(x[..j], dims) + Times(x[j], stride) == Flat(x[..j + 1], dims) <= UINT32_MAX
  {
    hide Size, Flat, Wrap, Times, Fits, Starts, Shift;
    var x := Shift(p, pos);
    StartsInside(p, dims, pos, count, j);
    WrapSmall(x[j]);
    RunFits(p, dims, pos, count, j);
    RunFits(p, dims, pos, count, j + 1);
    EmptySize(dims);
    WrapSmall(Size(dims[..j]));
    FlatNext(x, dims, j);
  }

  lemma FlatNext(x: Coordinates, dims: Coordinates, j: nat)
    requires j < |x| <= |dims|
    ensures Flat(x[..j + 1], dims) == Flat(x[..j], dims) + Times(x[j], Size(dims[..j]))
  {
    FlatAppend(x[..j], x[j], dims);
    assert x[..j] + [x[j]] == x[..j + 1];
  }

  lemma StartsInside(p: Coordinates, dims: Coordinates, pos: Coordinates, count: Coordinates, j: nat)
    requires Fits(dims, pos, count) && Starts(p, count) && j < |p|
    ensures |count| <= |dims| && p[j] + pos[j] <= dims[j]
  {
    if j > 0 { assert p[1..][j - 1] == p[j] && count[1..][j - 1] == count[j]; }
  }

  lemma EmptySize(dims: Coordinates)
    ensures Size(dims[..0]) == 1
  {
  }

  function Zeros32(n: nat): (z: seq<uint32>)
    ensures |z| == n && forall i | 0 <= i < n :: z[i] == 0
  {
    if n == 0 then [] else [0] + Zeros32(n - 1)
  }

  lemma ZeroStart(z: seq<uint32>, count: seq<uint32>)
    requires |z| == |count| > 0 && forall i | 0 <= i < |z| :: z[i] == 0
    ensures Flat(z[1..], count[1..]) == 0
    ensures Positive(count[1..]) ==> Size(count[1..]) > 0
  {
    AllZero(z[1..], count[1..]);
    if Positive(count[1..]) { SizePrefix(count[1..], |count| - 1); }
  }

  lemma {:induction false} AllZero(z: Coordinates, dims: Coordinates)
    requires |z| <= |dims| && forall i | 0 <= i < |z| :: z[i] == 0
    ensures Flat(z, dims) == 0
  {
    if z != [] {
      AllZero(z[1..], dims[1..]);
    }
  }

  // ---------------------------------------------------------------- the checks

  /** The constructor's check of one array: 32-bit sums. */
  predicate Accepts(dims: seq<uint32>, pos: seq<uint32>, count: seq<uint32>)
    requires |count| <= |dims| && |count| <= |pos|
  {
    forall i | 0 <= i < |count| :: pos[i] <= dims[i] && Wrap(pos[i] as int + count[i]) <= dims[i]
  }

  predicate NoWrap(pos: seq<uint32>, count: seq<uint32>)
    requires |count| <= |pos|
  {
    forall i | 0 <= i < |count| :: pos[i] as int + count[i] <= UINT32_MAX
  }

  /** The check is exact where the sums do not wrap. */
  lemma AcceptsExactly(dims: seq<uint32>, pos: seq<uint32>, count: seq<uint32>)
    requires |count| <= |dims| && |count| <= |pos|
    ensures (forall i | 0 <= i < |count| :: pos[i] as int + count[i] <= dims[i])
        <==> Accepts(dims, pos, count) && NoWrap(pos, count)
  {
    hide Wrap;
    forall i | 0 <= i < |count| && pos[i] as int + count[i] <= UINT32_MAX
      ensures Wrap(pos[i] as int + count[i]) == pos[i] as int + count[i] {
      WrapSmall(pos[i] as int + count[i]);
    }
  }

  /** Where they do, a block that starts inside and reaches far outside is accepted. */
  lemma AcceptsWrapped()
    ensures Accepts([10], [1], [UINT32_MAX]) && !NoWrap([1], [UINT32_MAX])
  {
    var pos: seq<uint32>, count: seq<uint32> := [1], [UINT32_MAX];
    assert pos[0] as int + count[0] == 0x1_0000_0000;
  }

  method ComputeStrides(dims: seq<uint32>, n: nat) returns (stride: seq<uint32>)
    requires 0 < n <= |dims|
    ensures |stride| == n && forall j | 0 <= j < n :: stride[j] == Wrap(Size(dims[..j]))
  {
    hide Size, Wrap;
    stride := [1];
    EmptySize(dims);
    WrapSmall(1);
    for i := 1 to n
      invariant |stride| == i && forall j | 0 <= j < i :: stride[j] == Wrap(Size(dims[..j]))
    {
      SizeAppend(dims[..i - 1], dims[i - 1]);
      assert dims[..i - 1] + [dims[i - 1]] == dims[..i];
      WrapProduct(Size(dims[..i - 1]), dims[i - 1]);
      stride := stride + [Wrap(stride[i - 1] as int * dims[i - 1])];
    }
  }

  lemma WrapProduct(a: nat, b: nat)
    ensures Wrap(Wrap(a) * b) == Wrap(a * b)
  {
    var m, q := 0x1_0000_0000, a / 0x1_0000_0000;
    assert a == m * q + Wrap(a);
    assert a * b == m * (q * b) + Wrap(a) * b by { Distribute(m, q, Wrap(a), b); }
    WrapMultiple(Wrap(a) * b, q * b);
  }

  lemma Distribute(m: nat, q: nat, r: nat, b: nat)
    ensures (m * q + r) * b == m * (q * b) + r * b
  {
  }

  lemma WrapMultiple(n: nat, k: nat)
    ensures Wrap(n + 0x1_0000_0000 * k) == Wrap(n)
  {
  }

  /** MultiDimArray_CalculateCopyIndicesBeginIter */
  method BeginIter(memaDims: seq<uint32>, memaPos: seq<uint32>, membDims: seq<uint32>, membPos: seq<uint32>,
                   count: seq<uint32>)
    returns (r: Result<CopyIndicesIter>)
    requires |count| <= |memaPos| && |count| <= |membPos|
    ensures r.Ok? <==>
              && 0 < |count| <= |memaDims| && |count| <= |membDims|
              && Accepts(memaDims, memaPos, count) && Accepts(membDims, membPos, count)
    ensures r.Ok? ==>
              var it := r.value;
              && fresh(it) && it.Valid() && it.steps == 0 && !it.done
              && it.count == count && it.memaDims == memaDims && it.membDims == membDims
              && it.memaPos == memaPos && it.membPos == membPos
  {
    hide Wrap, Size;
    r := Err(InvalidArgument);
    if |count| == 0 || |count| > |memaDims| || |count| > |membDims| { return; }
    for i := 0 to |count|
      invariant forall j | 0 <= j < i :: memaPos[j] <= memaDims[j] && Wrap(memaPos[j] as int + count[j]) <= memaDims[j]
    {
      if memaPos[i] > memaDims[i] || Wrap(memaPos[i] as int + count[i]) > memaDims[i] { return; }
    }
    for i := 0 to |count|
      invariant forall j | 0 <= j < i :: membPos[j] <= membDims[j] && Wrap(membPos[j] as int + count[j]) <= membDims[j]
    {
      if membPos[i] > membDims[i] || Wrap(membPos[i] as int + count[i]) > membDims[i] { return; }
    }
    var strideA := ComputeStrides(memaDims, |count|);
    var strideB := ComputeStrides(membDims, |count|);
    var it := new CopyIndicesIter(memaDims, memaPos, membDims, membPos, count, strideA, strideB);
    r := Ok(it);
  }

  /** Calls Next until it says that there are no more runs, but no more than so many times. */
  method CallNext(iter: CopyIndicesIter, calls: nat) returns (k: nat)
    requires iter.Valid() && iter.steps == 0 && iter.count != []
    modifies iter
    ensures if Positive(iter.count[1..]) then k == (if calls <= iter.Runs() then calls else iter.Runs()) else k == calls
  {
    hide Size, Positive, CopyIndicesIter.Valid;
    k := 0;
    iter.AtMostRuns();
    while k < calls
      invariant k <= calls && iter.Valid() && iter.count != []
      invariant Positive(iter.count[1..]) ==> k == iter.steps <= iter.Runs()
    {
      var ok, _, _, _ := iter.Next();
      if !ok { return; }
      if Positive(iter.count[1..]) { iter.AtMostRuns(); }
      k := k + 1;
    }
  }

  /** A block of 1 by 0 elements is accepted, and its iteration never comes to an end. */
  method NeverEnds(calls: nat) returns (k: nat)
    ensures k == calls
  {
    hide CopyIndicesIter.Valid, Size;
    var dims: seq<uint32>, pos: seq<uint32>, count: seq<uint32> := [10, 10], [0, 0], [1, 0];
    WrapSmall(1);
    WrapSmall(0);
    var begun := BeginIter(dims, pos, dims, pos, count);
    assert begun.Ok?;
    assert count[1..][0] == 0;
    k := CallNext(begun.value, calls);
  }

  // ---------------------------------------------------------------- copying a block

  /** The number of the run that p lies on. */
  function RunOf(p: Coordinates, count: Coordinates): nat
    requires 0 < |p| == |count|
  {
    Flat(p[1..], count[1..])
  }

  function Place(p: Coordinates, dims: Coordinates, pos: Coordinates): nat
    requires |p| <= |pos| && |p| <= |dims|
  {
    Flat(Shift(p, pos), dims)
  }

  /** Elements of a run lie one after the other. */
  lemma RunPlace(p: Coordinates, dims: Coordinates, pos: Coordinates, count: Coordinates)
    requires Fits(dims, pos, count) && Within(p, count)
    ensures Place(p, dims, pos) == Place([0] + p[1..], dims, pos) + p[0] < Size(dims[..|count|])
  {
    var s := [0] + p[1..];
    assert s[1..] == p[1..] && Shift(s, pos)[1..] == Shift(p, pos)[1..];
    RunFits(s, dims, pos, count, |s|);
  }

  /** Different elements of the block lie at different places. */
  lemma PlacesDiffer(p: Coordinates, q: Coordinates, dims: Coordinates, pos: Coordinates, count: Coordinates)
    requires Fits(dims, pos, count) && Within(p, count) && Within(q, count)
    requires Place(p, dims, pos) == Place(q, dims, pos)
    ensures p == q
  {
    hide Flat, Size;
    var x, y, d := Shift(p, pos), Shift(q, pos), dims[..|count|];
    FlatPrefix(x, dims);
    FlatPrefix(y, dims);
    FlatInjective(x, y, d);
    assert forall i | 0 <= i < |p| :: p[i] == x[i] - pos[i] && q[i] == y[i] - pos[i];
  }

  /** Every coordinate lies on exactly one run. */
  lemma OnRun(p: Coordinates, count: Coordinates, k: nat)
    requires 0 < |count| && Positive(count[1..]) && Within(p, count)
    ensures RunOf(p, count) < Size(count[1..])
    ensures RunOf(p, count) == k ==> p[1..] == Digits(k, count[1..])
  {
    var t, r := p[1..], count[1..];
    assert forall i | 0 <= i < |r| :: r[i] == count[i + 1] && t[i] == p[i + 1];
    FlatBound(t, r);
    if RunOf(p, count) == k {
      FlatOnto(k, r);
      FlatInjective(t, Digits(k, r), r);
    }
  }

  /** The t-th element of the k-th run. */
  function OfRun(k: nat, t: nat, count: Coordinates): Coordinates
    requires 0 < |count| && Positive(count[1..])
  {
    [t] + Digits(k, count[1..])
  }

  lemma OfRunWithin(k: nat, t: nat, count: Coordinates)
    requires 0 < |count| && Positive(count[1..]) && k < Size(count[1..]) && t < count[0]
    ensures Within(OfRun(k, t, count), count) && RunOf(OfRun(k, t, count), count) == k
  {
    FlatOnto(k, count[1..]);
    var p := OfRun(k, t, count);
    assert p[1..] == Digits(k, count[1..]);
    assert forall i | 1 <= i < |p| :: p[i] == p[1..][i - 1] && count[i] == count[1..][i - 1];
  }

  /** The places of the block in the two arrays. */
  datatype Plan = Plan(dimsA: Coordinates, posA: Coordinates, dimsB: Coordinates, posB: Coordinates,
                       count: Coordinates) {
    ghost predicate Inside(sizeA: nat, sizeB: nat)
    {
      && Fits(dimsA, posA, count) && Fits(dimsB, posB, count) && Positive(count[1..])
      && Size(dimsA[..|count|]) <= sizeA && Size(dimsB[..|count|]) <= sizeB
    }

    function A(p: Coordinates): nat
      requires |p| <= |posA| && |p| <= |dimsA|
    {
      Place(p, dimsA, posA)
    }

    function B(p: Coordinates): nat
      requires |p| <= |posB| && |p| <= |dimsB|
    {
      Place(p, dimsB, posB)
    }
  }

  /** The element at p has been copied. */
  ghost predicate Moved<T>(dst: seq<T>, src: seq<T>, plan: Plan, p: Coordinates)
  {
    && |p| <= |plan.posA| && |p| <= |plan.dimsA| && |p| <= |plan.posB| && |p| <= |plan.dimsB|
    && plan.A(p) < |src| && plan.B(p) < |dst| && dst[plan.B(p)] == src[plan.A(p)]
  }

  /** Place i of the destination belongs to p. */
  predicate Hits(plan: Plan, p: Coordinates, i: int)
  {
    |p| <= |plan.posB| && |p| <= |plan.dimsB| && plan.B(p) == i
  }

  /** The elements of the first k runs have been copied and nothing else has changed. */
  ghost predicate Copied<T>(dst: seq<T>, was: seq<T>, src: seq<T>, k: nat, plan: Plan)
    requires |was| == |dst| && 0 < |plan.count|
  {
    && (forall p: Coordinates | Within(p, plan.count) && RunOf(p, plan.count) < k :: Moved(dst, src, plan, p))
    && (forall i | 0 <= i < |dst| ::
          || dst[i] == was[i]
          || exists p: Coordinates :: Within(p, plan.count) && RunOf(p, plan.count) < k && Hits(plan, p, i))
  }

  /** What copying the k-th run does to the element at p, on that run or an earlier one. */
  lemma RunMoves<T>(dst: seq<T>, dst': seq<T>, src: seq<T>, k: nat, plan: Plan, a: nat, b: nat, p: Coordinates)
    requires |dst| == |dst'| && plan.Inside(|src|, |dst|) && k < Size(plan.count[1..])
    requires Within(p, plan.count) && RunOf(p, plan.count) <= k
    requires RunOf(p, plan.count) < k ==> Moved(dst, src, plan, p)
    requires a == plan.A(OfRun(k, 0, plan.count)) && b == plan.B(OfRun(k, 0, plan.count))
    requires a + plan.count[0] <= |src| && b + plan.count[0] <= |dst|
    requires dst' == dst[..b] + src[a..a + plan.count[0]] + dst[b + plan.count[0]..]
    ensures Moved(dst', src, plan, p)
  {
    hide Flat, Size, Place, Shift;
    var count := plan.count;
    OnRun(p, count, k);
    RunPlace(p, plan.dimsA, plan.posA, count);
    RunPlace(p, plan.dimsB, plan.posB, count);
    if RunOf(p, count) < k {
      if b <= plan.B(p) < b + count[0] {
        RunHits(plan, k, plan.B(p) - b, |src|, |dst|);
        PlacesDiffer(p, OfRun(k, plan.B(p) - b, count), plan.dimsB, plan.posB, count);
        assert false;
      }
    } else {
      assert [0] + p[1..] == OfRun(k, 0, count);
    }
  }

  /** Copying the k-th run. */
  lemma RunCopied<T>(dst: seq<T>, dst': seq<T>, was: seq<T>, src: seq<T>, k: nat, plan: Plan, a: nat, b: nat)
    requires |was| == |dst| == |dst'| && plan.Inside(|src|, |dst|) && k < Size(plan.count[1..])
    requires Copied(dst, was, src, k, plan)
    requires a == plan.A(OfRun(k, 0, plan.count)) && b == plan.B(OfRun(k, 0, plan.count))
    requires a + plan.count[0] <= |src| && b + plan.count[0] <= |dst|
    requires dst' == dst[..b] + src[a..a + plan.count[0]] + dst[b + plan.count[0]..]
    ensures Copied(dst', was, src, k + 1, plan)
  {
    hide Flat, Size, Place, Shift, Moved, RunOf, Hits;
    var count := plan.count;
    forall p: Coordinates | Within(p, count) && RunOf(p, count) < k + 1 ensures Moved(dst', src, plan, p) {
      RunMoves(dst, dst', src, k, plan, a, b, p);
    }
    forall i | 0 <= i < |dst'|
      ensures || dst'[i] == was[i]
              || exists p: Coordinates :: Within(p, count) && RunOf(p, count) < k + 1 && Hits(plan, p, i)
    {
      if b <= i < b + count[0] {
        RunHits(plan, k, i - b, |src|, |dst|);
      } else {
        assert dst'[i] == dst[i];
      }
    }
  }

  lemma RunHits(plan: Plan, k: nat, t: nat, sizeA: nat, sizeB: nat)
    requires plan.Inside(sizeA, sizeB) && k < Size(plan.count[1..]) && t < plan.count[0]
    ensures var q := OfRun(k, t, plan.count);
      && Within(q, plan.count) && RunOf(q, plan.count) == k
      && plan.B(q) == plan.B(OfRun(k, 0, plan.count)) + t && Hits(plan, q, plan.B(OfRun(k, 0, plan.count)) + t)
  {
    var q := OfRun(k, t, plan.count);
    OfRunWithin(k, t, plan.count);
    RunPlace(q, plan.dimsB, plan.posB, plan.count);
    assert [0] + q[1..] == OfRun(k, 0, plan.count);
  }

  ghost function PlanOf(iter: CopyIndicesIter): Plan
  {
    Plan(iter.memaDims, iter.memaPos, iter.membDims, iter.membPos, iter.count)
  }

  /** memcpy of len elements */
  method MemCopy<T>(dst: array<T>, b: nat, src: array<T>, a: nat, len: nat)
    requires dst != src && a + len <= src.Length && b + len <= dst.Length
    modifies dst
    ensures dst[..] == old(dst[..b]) + src[a..a + len] + old(dst[b + len..])
  {
    forall t | 0 <= t < len { dst[b + t] := src[a + t]; }
  }

  /** RetrieveSubArray: exactly the block is copied, element by element to the same coordinates of
    * the other block, or nothing when it does not lie in both arrays. */
  method RetrieveSubArray<T>(src: array<T>, srcDims: seq<uint32>, memoryPos: seq<uint32>,
                             dst: array<T>, dstDims: seq<uint32>, bufferPos: seq<uint32>, count: seq<uint32>)
    returns (r: Result<()>)
    requires dst != src && |count| <= |memoryPos| && |count| <= |bufferPos|
    requires NoWrap(memoryPos, count) && NoWrap(bufferPos, count)
    requires 0 < |count| ==> Positive(count[1..])
    requires |count| <= |srcDims| ==> Size(srcDims[..|count|]) <= src.Length <= UINT32_MAX
    requires |count| <= |dstDims| ==> Size(dstDims[..|count|]) <= dst.Length <= UINT32_MAX
    modifies dst
    ensures r.Ok? <==>
              && 0 < |count| <= |srcDims| && |count| <= |dstDims|
              && (forall i | 0 <= i < |count| :: memoryPos[i] as int + count[i] <= srcDims[i])
              && (forall i | 0 <= i < |count| :: bufferPos[i] as int + count[i] <= dstDims[i])
    ensures r.Err? ==> dst[..] == old(dst[..])
    ensures r.Ok? ==>
              var plan := Plan(srcDims, memoryPos, dstDims, bufferPos, count);
              && (forall p: Coordinates | Within(p, count) :: Moved(dst[..], src[..], plan, p))
              && (forall i | 0 <= i < dst.Length ::
                    dst[i] == old(dst[i]) || exists p: Coordinates :: Within(p, count) && Hits(plan, p, i))
  {
    hide Flat, Size, Shift, Moved, RunOf, Within, Hits, Positive, Copied;
    var begun := BeginIter(srcDims, memoryPos, dstDims, bufferPos, count);
    if |count| <= |srcDims| { AcceptsExactly(srcDims, memoryPos, count); }
    if |count| <= |dstDims| { AcceptsExactly(dstDims, bufferPos, count); }
    if begun.Err? { return Err(begun.error); }
    var iter := begun.value;
    ghost var plan := PlanOf(iter);
    ghost var was := dst[..];
    NothingCopied(was, src[..], plan);
    var more := true;
    while more
      invariant iter.Valid() && PlanOf(iter) == plan && plan.Inside(src.Length, dst.Length)
      invariant iter.steps <= iter.Runs() && (!more ==> iter.steps == iter.Runs())
      invariant Copied(dst[..], was, src[..], iter.steps, plan)
      decreases more, iter.Runs() - iter.steps
    {
      ghost var k, before := iter.steps, dst[..];
      var ok, a, b, len := iter.Next();
      if ok {
        RunFits(OfRun(k, 0, count), srcDims, memoryPos, count, 0);
        RunFits(OfRun(k, 0, count), dstDims, bufferPos, count, 0);
        MemCopy(dst, b, src, a, len);
        RunCopied(before, dst[..], was, src[..], k, plan, a, b);
      }
      more := ok;
    }
    AllRuns(plan, dst[..], was, src[..]);
    return Ok(());
  }

  lemma NothingCopied<T>(dst: seq<T>, src: seq<T>, plan: Plan)
    requires 0 < |plan.count|
    ensures Copied(dst, dst, src, 0, plan)
  {
  }

  lemma AllRuns<T>(plan: Plan, dst: seq<T>, was: seq<T>, src: seq<T>)
    requires |was| == |dst| && plan.Inside(|src|, |dst|) && Copied(dst, was, src, Size(plan.count[1..]), plan)
    ensures forall p: Coordinates | Within(p, plan.count) :: Moved(dst, src, plan, p)
    ensures forall i | 0 <= i < |dst| ::
              dst[i] == was[i] || exists p: Coordinates :: Within(p, plan.count) && Hits(plan, p, i)
  {
    hide Flat, Size, Place, Shift, Moved, Hits;
    forall p: Coordinates | Within(p, plan.count) ensures Moved(dst, src, plan, p) {
      OnRun(p, plan.count, 0);
    }
  }
}
