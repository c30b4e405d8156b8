/**
 * The set-up half of the nonlinear least-squares solver: the centroid of the anchors as the starting
 * point, the all-zero target, one weight per anchor chosen by an integer selector, and the problem
 * handed to the optimizer with both of its caps at MaxNumberOfIterations. The optimizer itself
 * (Levenberg-Marquardt in the library) and the square root are supplied from outside.
 */
module LeastSquaresSolver {
  import opened Trilateration

  /** The cap on the optimizer's iterations and, separately, on its evaluations. */
  const MaxNumberOfIterations: nat := 1000

  /** What the problem factory receives: model, target, start, diagonal weights and the two caps. */
  datatype LeastSquaresProblem = LeastSquaresProblem(
    model: TrilaterationFunction,
    target: seq<real>,
    start: seq<real>,
    weights: seq<real>,
    maxEvaluations: nat,
    maxIterations: nat)

  /** `sqrt` returns the non-negative square root of every non-negative real. */
  ghost predicate IsSquareRoot(sqrt: real -> real)
  {
    forall x: real :: x >= 0.0 ==> sqrt(x) >= 0.0 && sqrt(x) * sqrt(x) == x
  }

  /** A non-negative root of a positive real is positive. */
  lemma RootPositive(s: real, x: real)
    requires s >= 0.0 && s * s == x && x > 0.0
    ensures s > 0.0
  {
    if s == 0.0 {
      assert false;
    }
  }

  lemma ReciprocalSquared(s: real, x: real)
    requires s > 0.0 && s * s == x
    ensures (1.0 / s) * (1.0 / s) * x == 1.0
  {
  }

  lemma ProductPositive(a: real, b: real)
    requires a > 0.0 && b > 0.0
    ensures a * b > 0.0
  {
  }

  /** A value at least Epsilon has a square at least Epsilon^2. */
  lemma SqAtLeastEpsilon(x: real)
    requires x >= Epsilon
    ensures Sq(x) >= Epsilon * Epsilon
  {
  }

  /**
   * `stdDevWeight`: 1 / sqrt(sd^2 + sp^2). The weight is the unique positive w with
   * w^2 (sd^2 + sp^2) = 1.
   */
  function StdDevWeight(sqrt: real -> real, stdDevDistance: real, stdDevPosition: real): (w: real)
    requires IsSquareRoot(sqrt)
    requires Sq(stdDevDistance) + Sq(stdDevPosition) > 0.0
    ensures w > 0.0
    ensures w * w * (Sq(stdDevDistance) + Sq(stdDevPosition)) == 1.0
  {
    var variance := Sq(stdDevDistance) + Sq(stdDevPosition);
    var root := sqrt(variance);
    RootPositive(root, variance);
    ReciprocalSquared(root, variance);
    1.0 / root
  }

  /** `inverseSquareLaw`: 1 / d^2, the positive w with w d^2 = 1. */
  function InverseSquareLaw(distance: real): (w: real)
    requires Sq(distance) > 0.0
    ensures w > 0.0
    ensures w * Sq(distance) == 1.0
  {
    1.0 / Sq(distance)
  }

  /**
   * The weight of one anchor for a selector: 0 is the standard-deviation weight, 1 the inverse-square
   * weight, and every other value their product (not a fallback to the standard-deviation weight).
   */
  function Weight(weightsType: int, sqrt: real -> real,
                  distance: real, stdDevDistance: real, stdDevPosition: real): (w: real)
    requires IsSquareRoot(sqrt)
    requires weightsType != 1 ==> Sq(stdDevDistance) + Sq(stdDevPosition) > 0.0
    requires weightsType != 0 ==> Sq(distance) > 0.0
    ensures w > 0.0
  {
    if weightsType == 0 then
      StdDevWeight(sqrt, stdDevDistance, stdDevPosition)
    else if weightsType == 1 then
      InverseSquareLaw(distance)
    else
      var a := StdDevWeight(sqrt, stdDevDistance, stdDevPosition);
      var b := InverseSquareLaw(distance);
      ProductPositive(a, b);
      a * b
  }

  /** What each selector's weight satisfies, stated without the square root. */
  lemma WeightMeaning(weightsType: int, sqrt: real -> real,
                      distance: real, stdDevDistance: real, stdDevPosition: real)
    requires IsSquareRoot(sqrt)
    requires Sq(stdDevDistance) + Sq(stdDevPosition) > 0.0 && Sq(distance) > 0.0
    ensures var w := Weight(weightsType, sqrt, distance, stdDevDistance, stdDevPosition);
      && (weightsType == 0 ==> w * w * (Sq(stdDevDistance) + Sq(stdDevPosition)) == 1.0)
      && (weightsType == 1 ==> w * Sq(distance) == 1.0)
      && (weightsType != 0 && weightsType != 1 ==>
            w * w * (Sq(stdDevDistance) + Sq(stdDevPosition)) * Sq(distance) * Sq(distance) == 1.0)
  {
    if weightsType != 0 && weightsType != 1 {
      var a := StdDevWeight(sqrt, stdDevDistance, stdDevPosition);
      var b := InverseSquareLaw(distance);
      var v, d := Sq(stdDevDistance) + Sq(stdDevPosition), Sq(distance);
      calc {
        (a * b) * (a * b) * v * d * d;
        (a * a * v) * (b * d) * (b * d);
        1.0;
      }
    }
  }

  /**
   * A selector other than 0 and 1 does not give the standard-deviation weight: with distance 2 and
   * both standard deviations 1 it gives a quarter of it.
   */
  lemma OtherSelectorIsProduct(sqrt: real -> real)
    requires IsSquareRoot(sqrt)
    ensures Weight(2, sqrt, 2.0, 1.0, 1.0) == Weight(0, sqrt, 2.0, 1.0, 1.0) / 4.0
    ensures Weight(2, sqrt, 2.0, 1.0, 1.0) != Weight(0, sqrt, 2.0, 1.0, 1.0)
  {
    assert InverseSquareLaw(2.0) == 0.25;
  }

  /** Every weight of anchors whose values were raised to Epsilon is positive, whatever the selector. */
  lemma ClampedWeightPositive(weightsType: int, sqrt: real -> real,
                              distance: real, stdDevDistance: real, stdDevPosition: real)
    requires IsSquareRoot(sqrt)
    requires distance >= Epsilon && stdDevDistance >= Epsilon && stdDevPosition >= Epsilon
    ensures Sq(stdDevDistance) + Sq(stdDevPosition) > 0.0 && Sq(distance) > 0.0
    ensures Weight(weightsType, sqrt, distance, stdDevDistance, stdDevPosition) > 0.0
  {
    SqAtLeastEpsilon(distance);
    SqAtLeastEpsilon(stdDevDistance);
    SqAtLeastEpsilon(stdDevPosition);
  }

  /** Anchors `0 .. n-1` all have a coordinate `j`. */
  predicate HasCoordinate(positions: seq<seq<real>>, j: nat)
  {
    forall i :: 0 <= i < |positions| ==> j < |positions[i]|
  }

  /** The sum of coordinate `j` over the anchors. */
  function CoordinateSum(positions: seq<seq<real>>, j: nat): real
    requires HasCoordinate(positions, j)
    decreases |positions|
  {
    if |positions| == 0 then 0.0
    else CoordinateSum(positions[..|positions| - 1], j) + positions[|positions| - 1][j]
  }

  /** The coordinate-wise arithmetic mean of the anchors. */
  function Centroid(positions: seq<seq<real>>): (c: seq<real>)
    requires |positions| > 0 && SameDimension(positions)
    ensures |c| == |positions[0]|
  {
    seq(|positions[0]|, j requires 0 <= j < |positions[0]| =>
      CoordinateSum(positions, j) / (|positions| as real))
  }

  /** The index of an anchor whose coordinate `j` is smallest. */
  function LowestAnchor(positions: seq<seq<real>>, j: nat): (k: nat)
    requires |positions| > 0 && HasCoordinate(positions, j)
    ensures k < |positions|
    ensures forall i :: 0 <= i < |positions| ==> positions[k][j] <= positions[i][j]
    decreases |positions|
  {
    if |positions| == 1 then 0
    else
      var k := LowestAnchor(positions[..|positions| - 1], j);
      if positions[|positions| - 1][j] < positions[k][j] then |positions| - 1 else k
  }

  /** The index of an anchor whose coordinate `j` is largest. */
  function HighestAnchor(positions: seq<seq<real>>, j: nat): (k: nat)
    requires |positions| > 0 && HasCoordinate(positions, j)
    ensures k < |positions|
    ensures forall i :: 0 <= i < |positions| ==> positions[i][j] <= positions[k][j]
    decreases |positions|
  {
    if |positions| == 1 then 0
    else
      var k := HighestAnchor(positions[..|positions| - 1], j);
      if positions[k][j] < positions[|positions| - 1][j] then |positions| - 1 else k
  }

  /** A sum of n terms between `lo` and `hi` lies between n lo and n hi. */
  lemma {:induction false} CoordinateSumBounds(positions: seq<seq<real>>, j: nat, lo: real, hi: real)
    requires HasCoordinate(positions, j)
    requires forall i :: 0 <= i < |positions| ==> lo <= positions[i][j] <= hi
    ensures (|positions| as real) * lo <= CoordinateSum(positions, j) <= (|positions| as real) * hi
    decreases |positions|
  {
    if |positions| > 0 {
      var n := |positions| - 1;
      CoordinateSumBounds(positions[..n], j, lo, hi);
      assert (n as real) * lo + lo == (|positions| as real) * lo;
      assert (n as real) * hi + hi == (|positions| as real) * hi;
    }
  }

  lemma MeanBounds(sum: real, n: real, lo: real, hi: real)
    requires n > 0.0 && n * lo <= sum <= n * hi
    ensures lo <= sum / n <= hi
  {
  }

  /** Each centroid coordinate lies between the smallest and the largest anchor value there. */
  lemma CentroidWithinAnchors(positions: seq<seq<real>>, j: nat)
    requires |positions| > 0 && SameDimension(positions) && j < |positions[0]|
    ensures positions[LowestAnchor(positions, j)][j] <= Centroid(positions)[j]
    ensures Centroid(positions)[j] <= positions[HighestAnchor(positions, j)][j]
  {
    var lo := positions[LowestAnchor(positions, j)][j];
    var hi := positions[HighestAnchor(positions, j)][j];
    CoordinateSumBounds(positions, j, lo, hi);
    MeanBounds(CoordinateSum(positions, j), |positions| as real, lo, hi);
  }

  /** The vector of `n` zeros. */
  function Zeros(n: nat): (z: seq<real>)
    ensures |z| == n && forall i :: 0 <= i < n ==> z[i] == 0.0
  {
    seq(n, _ => 0.0)
  }

  /** Anchor `i`'s weight is computed from anchor `i`'s own distance and standard deviations alone. */
  function Weights(weightsType: int, sqrt: real -> real, distances: seq<real>,
                   sigmaDistances: seq<real>, sigmaPositions: seq<real>): (w: seq<real>)
    requires IsSquareRoot(sqrt)
    requires |sigmaDistances| >= |distances| && |sigmaPositions| >= |distances|
    requires forall i :: 0 <= i < |distances| ==>
      distances[i] >= Epsilon && sigmaDistances[i] >= Epsilon && sigmaPositions[i] >= Epsilon
    ensures |w| == |distances|
    ensures forall i :: 0 <= i < |w| ==> w[i] > 0.0
  {
    seq(|distances|, i requires 0 <= i < |distances| =>
      ClampedWeightPositive(weightsType, sqrt, distances[i], sigmaDistances[i], sigmaPositions[i]);
      Weight(weightsType, sqrt, distances[i], sigmaDistances[i], sigmaPositions[i]))
  }

  /**
   * The solver. `leastSquaresOptimizer` stands for the library optimizer: a function from the
   * problem to whatever optimum it reports.
   */
  class NonLinearLeastSquaresSolver<Optimum> {
    const trilateration: TrilaterationFunction
    const leastSquaresOptimizer: LeastSquaresProblem -> Optimum
    const weightsType: int

    /** The two-argument constructor: selector 0, the standard-deviation weight. */
    constructor (trilateration: TrilaterationFunction, leastSquaresOptimizer: LeastSquaresProblem -> Optimum)
      ensures this.trilateration == trilateration
      ensures this.leastSquaresOptimizer == leastSquaresOptimizer
      ensures weightsType == 0
    {
      this.trilateration := trilateration;
      this.leastSquaresOptimizer := leastSquaresOptimizer;
      this.weightsType := 0;
    }

    /** The three-argument constructor: the selector is kept as given. */
    constructor WithWeightsType(trilateration: TrilaterationFunction,
                                leastSquaresOptimizer: LeastSquaresProblem -> Optimum, weightsType: int)
      ensures this.trilateration == trilateration
      ensures this.leastSquaresOptimizer == leastSquaresOptimizer
      ensures this.weightsType == weightsType
    {
      this.trilateration := trilateration;
      this.leastSquaresOptimizer := leastSquaresOptimizer;
      this.weightsType := weightsType;
    }

    /**
     * `solve(target, weights, initialPoint, debugInfo)`: the optimizer receives the model with the
     * given target, start and weights, and 1000 as both the evaluation and the iteration cap. The
     * debug flag only prints, so the optimum does not depend on it.
     */
    method SolveProblem(target: seq<real>, weights: seq<real>, initialPoint: seq<real>, debugInfo: bool)
      returns (optimum: Optimum)
      ensures optimum == leastSquaresOptimizer(
        LeastSquaresProblem(trilateration, target, initialPoint, weights, 1000, 1000))
    {
      var problem := LeastSquaresProblem(trilateration, target, initialPoint, weights,
                                         MaxNumberOfIterations, MaxNumberOfIterations);
      optimum := leastSquaresOptimizer(problem);
    }

    /** `solve(target, weights, initialPoint)`: the four-argument form without debug output. */
    method SolveProblemQuietly(target: seq<real>, weights: seq<real>, initialPoint: seq<real>)
      returns (optimum: Optimum)
      ensures optimum == leastSquaresOptimizer(
        LeastSquaresProblem(trilateration, target, initialPoint, weights, 1000, 1000))
    {
      optimum := SolveProblem(target, weights, initialPoint, false);
    }

    /**
     * The starting point of `solve()`: the anchors' coordinates summed coordinate by coordinate in
     * place, then each sum divided by the number of anchors.
     */
    method InitialPoint() returns (initialPoint: seq<real>)
      requires trilateration.Valid()
      ensures initialPoint == Centroid(trilateration.positions)
    {
      var positions := trilateration.positions;
      var numberOfPositions := |positions|;
      var positionDimension := |positions[0]|;
      var point := new real[positionDimension](_ => 0.0);
      var i := 0;
      while i < numberOfPositions
        invariant 0 <= i <= numberOfPositions
        invariant forall m :: 0 <= m < positionDimension ==> point[m] == CoordinateSum(positions[..i], m)
      {
        var vertex := positions[i];
        assert positions[..i + 1][..i] == positions[..i];
        var j := 0;
        while j < |vertex|
          invariant 0 <= j <= |vertex| == positionDimension
          invariant forall m :: 0 <= m < j ==> point[m] == CoordinateSum(positions[..i + 1], m)
          invariant forall m :: j <= m < positionDimension ==> point[m] == CoordinateSum(positions[..i], m)
        {
          point[j] := point[j] + vertex[j];
          j := j + 1;
        }
        i := i + 1;
      }
      assert positions[..numberOfPositions] == positions;
      var j := 0;
      while j < positionDimension
        invariant 0 <= j <= positionDimension
        invariant forall m :: 0 <= m < j ==>
          point[m] == CoordinateSum(positions, m) / (numberOfPositions as real)
        invariant forall m :: j <= m < positionDimension ==> point[m] == CoordinateSum(positions, m)
      {
        point[j] := point[j] / (numberOfPositions as real);
        j := j + 1;
      }
      initialPoint := point[..];
    }

    /** The target (all zeros) and the per-anchor weights of `solve()`, filled in one loop. */
    method TargetAndWeights(sqrt: real -> real) returns (target: seq<real>, weights: seq<real>)
      requires trilateration.Valid() && IsSquareRoot(sqrt)
      ensures target == Zeros(|trilateration.positions|)
      ensures weights == Weights(weightsType, sqrt, trilateration.distances[..],
                                 trilateration.sigmaDistances[..], trilateration.sigmaPositions[..])
    {
      var numberOfPositions := |trilateration.positions|;
      var distances := trilateration.distances;
      var stdDevDistance := trilateration.sigmaDistances;
      var stdDevPosition := trilateration.sigmaPositions;
      var t := new real[numberOfPositions];
      var w := new real[numberOfPositions];
      ghost var spec := Weights(weightsType, sqrt, distances[..], stdDevDistance[..], stdDevPosition[..]);
      var i := 0;
      while i < numberOfPositions
        invariant 0 <= i <= numberOfPositions
        invariant forall k :: 0 <= k < i ==> t[k] == 0.0
        invariant forall k :: 0 <= k < i ==> w[k] == spec[k]
      {
        t[i] := 0.0;
        ClampedWeightPositive(weightsType, sqrt, distances[i], stdDevDistance[i], stdDevPosition[i]);
        w[i] := Weight(weightsType, sqrt, distances[i], stdDevDistance[i], stdDevPosition[i]);
        i := i + 1;
      }
      target := t[..];
      weights := w[..];
    }

    /**
     * `solve(debugInfo)`: the optimizer receives the centroid of the anchors as the starting point,
     * the all-zero target, one positive weight per anchor and both caps at 1000.
     */
    method Solve(debugInfo: bool, sqrt: real -> real) returns (optimum: Optimum)
      requires trilateration.Valid() && IsSquareRoot(sqrt)
      ensures optimum == leastSquaresOptimizer(LeastSquaresProblem(
        trilateration,
        Zeros(|trilateration.positions|),
        Centroid(trilateration.positions),
        Weights(weightsType, sqrt, trilateration.distances[..],
                trilateration.sigmaDistances[..], trilateration.sigmaPositions[..]),
        1000, 1000))
    {
      var initialPoint := InitialPoint();
      var target, weights := TargetAndWeights(sqrt);
      optimum := SolveProblem(target, weights, initialPoint, debugInfo);
    }

    /** `solve()`: the same problem as `solve(false)`. */
    method SolveDefault(sqrt: real -> real) returns (optimum: Optimum)
      requires trilateration.Valid() && IsSquareRoot(sqrt)
      ensures optimum == leastSquaresOptimizer(LeastSquaresProblem(
        trilateration,
        Zeros(|trilateration.positions|),
        Centroid(trilateration.positions),
        Weights(weightsType, sqrt, trilateration.distances[..],
                trilateration.sigmaDistances[..], trilateration.sigmaPositions[..]),
        1000, 1000))
    {
      optimum := Solve(false, sqrt);
    }
  }
}
