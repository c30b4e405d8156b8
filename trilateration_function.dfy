/**
 * The trilateration problem handed to a least-squares optimizer: a set of anchors (known positions),
 * the measured distance from the unknown point to each anchor and two standard deviations per anchor.
 * Construction validates the anchors and raises every distance and standard deviation to at least
 * Epsilon, in the caller's own arrays. The residual of anchor i at a candidate point p is the squared
 * Euclidean distance from p to the anchor minus the squared measured distance; the Jacobian is its
 * analytic derivative.
 */
module Trilateration {
  import opened Results

  /** The floor for distances and standard deviations (1E-7). */
  const Epsilon: real := 0.0000001

  /** The square of a real. */
  function Sq(x: real): (r: real)
    ensures r >= 0.0
  {
    x * x
  }

  /** `x.coerceAtLeast(Epsilon)`: the larger of `x` and Epsilon. */
  function AtLeastEpsilon(x: real): (r: real)
    ensures r >= Epsilon && r >= x
    ensures r == x || r == Epsilon
  {
    if x < Epsilon then Epsilon else x
  }

  /** Why construction of a TrilaterationFunction fails. */
  datatype InitError =
    | TooFewPositions          // fewer than two anchors
    | CountMismatch            // as many distances as positions is required
    | SigmaIndexOutOfBounds    // a supplied standard-deviation array is shorter than the distances
    | DimensionMismatch        // an anchor's dimension differs from the first anchor's

  /** Every anchor has the dimension of the first one. */
  predicate SameDimension(positions: seq<seq<real>>)
  {
    forall i :: 0 <= i < |positions| ==> |positions[i]| == |positions[0]|
  }

  /** The squared Euclidean distance from `p` to `anchor`, summed over the coordinates of `p`. */
  function SquaredDistance(p: seq<real>, anchor: seq<real>): (r: real)
    requires |p| <= |anchor|
    ensures r >= 0.0
    decreases |p|
  {
    if |p| == 0 then 0.0
    else SquaredDistance(p[..|p| - 1], anchor) + Sq(p[|p| - 1] - anchor[|p| - 1])
  }

  /** The residual of one anchor at `p`: squared distance to the anchor minus squared measurement. */
  function Residual(anchor: seq<real>, distance: real, p: seq<real>): real
    requires |p| <= |anchor|
  {
    SquaredDistance(p, anchor) - Sq(distance)
  }

  /** The Jacobian entry of an anchor's residual with respect to coordinate `j` of `p`. */
  function JacobianEntry(anchor: seq<real>, p: seq<real>, j: nat): real
    requires j < |p| && j < |anchor|
  {
    2.0 * p[j] - 2.0 * anchor[j]
  }

  /**
   * A residual vanishes exactly when the candidate point lies on the sphere around the anchor whose
   * radius is the measured distance.
   */
  lemma ResidualZeroOnSphere(anchor: seq<real>, distance: real, p: seq<real>)
    requires |p| <= |anchor|
    ensures Residual(anchor, distance, p) == 0.0 <==> SquaredDistance(p, anchor) == Sq(distance)
  {
  }

  /** Shifting the base of a square by `h`: (x + h - a)^2 = (x - a)^2 + h(2x - 2a) + h^2. */
  lemma SqShift(x: real, a: real, h: real)
    ensures Sq(x + h - a) == Sq(x - a) + h * (2.0 * x - 2.0 * a) + h * h
  {
  }

  /** Moving coordinate `j` of `p` by `h` changes the squared distance by h(2p_j - 2a_j) + h^2. */
  lemma {:induction false} SquaredDistanceStep(p: seq<real>, anchor: seq<real>, j: nat, h: real)
    requires |p| <= |anchor| && j < |p|
    ensures SquaredDistance(p[j := p[j] + h], anchor)
         == SquaredDistance(p, anchor) + h * JacobianEntry(anchor, p, j) + h * h
    decreases |p|
  {
    var n := |p| - 1;
    var q := p[j := p[j] + h];
    if j == n {
      assert q[..n] == p[..n];
      SqShift(p[n], anchor[n], h);
    } else {
      assert q[..n] == p[..n][j := p[j] + h];
      SquaredDistanceStep(p[..n], anchor, j, h);
    }
  }

  /**
   * The Jacobian is the exact partial derivative of the residual: a step of `h` along coordinate `j`
   * changes residual i by h * J_ij(p) + h^2, for every h.
   */
  lemma ResidualFiniteDifference(anchor: seq<real>, distance: real, p: seq<real>, j: nat, h: real)
    requires |p| <= |anchor| && j < |p|
    ensures Residual(anchor, distance, p[j := p[j] + h]) - Residual(anchor, distance, p)
         == h * JacobianEntry(anchor, p, j) + h * h
  {
    SquaredDistanceStep(p, anchor, j, h);
  }

  /** `now` is `was` with its first `k` entries raised to Epsilon and the rest untouched. */
  ghost predicate ClampedPrefix(now: seq<real>, was: seq<real>, k: int)
  {
    && |now| == |was|
    && (forall i :: 0 <= i < |now| && i < k ==> now[i] == AtLeastEpsilon(was[i]))
    && (forall i :: 0 <= i < |now| && k <= i ==> now[i] == was[i])
  }

  function Min(a: int, b: int): int { if a < b then a else b }

  /**
   * The residual model. `distances` is the caller's array and so are the standard-deviation arrays
   * when the caller supplied them; construction clamps them in place.
   */
  class TrilaterationFunction {
    /** Known positions of the anchors. */
    const positions: seq<seq<real>>
    /** Measured distance from each anchor to the unknown point. */
    const distances: array<real>
    /** Standard deviation of each anchor's position. */
    const sigmaPositions: array<real>
    /** Standard deviation of each distance measurement. */
    const sigmaDistances: array<real>

    /** What construction establishes. */
    ghost predicate Valid()
      reads distances, sigmaPositions, sigmaDistances
    {
      && |positions| >= 2
      && distances.Length == |positions|
      && sigmaPositions.Length >= |positions|
      && sigmaDistances.Length >= |positions|
      && SameDimension(positions)
      && (forall i :: 0 <= i < |positions| ==> distances[i] >= Epsilon)
      && (forall i :: 0 <= i < |positions| ==> sigmaPositions[i] >= Epsilon)
      && (forall i :: 0 <= i < |positions| ==> sigmaDistances[i] >= Epsilon)
    }

    /** The dimension of every anchor. */
    function Dimension(): nat
      requires |positions| > 0
    {
      |positions[0]|
    }

    /** Stores the validated, clamped inputs. */
    constructor Init(positions: seq<seq<real>>, distances: array<real>,
                     sigmaPositions: array<real>, sigmaDistances: array<real>)
      ensures this.positions == positions && this.distances == distances
      ensures this.sigmaPositions == sigmaPositions && this.sigmaDistances == sigmaDistances
    {
      this.positions := positions;
      this.distances := distances;
      this.sigmaPositions := sigmaPositions;
      this.sigmaDistances := sigmaDistances;
    }

    /**
     * The `init` block: checks the anchor count and the distance count, defaults a missing
     * standard-deviation array to zeros, raises every distance and standard deviation to at least
     * Epsilon in place, and only then checks that all anchors have one dimension. A supplied
     * standard-deviation array shorter than the distances stops the clamping loop with an index error
     * at index `stop`, after the entries before it (and `distances[stop]`, and `sigmaPositions[stop]`
     * when that exists) have been clamped.
     */
    static method Create(positions: seq<seq<real>>, distances: array<real>,
                         sigmaPositions: array?<real>, sigmaDistances: array?<real>)
      returns (r: Result<TrilaterationFunction, InitError>)
      requires sigmaPositions != distances && sigmaDistances != distances
      requires sigmaPositions != null && sigmaDistances != null ==> sigmaPositions != sigmaDistances
      modifies distances, sigmaPositions, sigmaDistances
      ensures |positions| < 2 ==>
        && r == Failure(TooFewPositions) && unchanged(distances)
        && (sigmaPositions != null ==> unchanged(sigmaPositions))
        && (sigmaDistances != null ==> unchanged(sigmaDistances))
      ensures |positions| >= 2 && |positions| != distances.Length ==>
        && r == Failure(CountMismatch) && unchanged(distances)
        && (sigmaPositions != null ==> unchanged(sigmaPositions))
        && (sigmaDistances != null ==> unchanged(sigmaDistances))
      ensures |positions| >= 2 && |positions| == distances.Length ==>
        var n := |positions|;
        var spLength := if sigmaPositions == null then n else sigmaPositions.Length;
        var sdLength := if sigmaDistances == null then n else sigmaDistances.Length;
        var stop := Min(n, Min(spLength, sdLength));
        if stop < n then
          && r == Failure(SigmaIndexOutOfBounds)
          && ClampedPrefix(distances[..], old(distances[..]), stop + 1)
          && (sigmaPositions != null ==>
                ClampedPrefix(sigmaPositions[..], old(sigmaPositions[..]), stop + 1))
          && (sigmaDistances != null ==>
                ClampedPrefix(sigmaDistances[..], old(sigmaDistances[..]), stop))
        else
          && ClampedPrefix(distances[..], old(distances[..]), n)
          && (sigmaPositions != null ==>
                ClampedPrefix(sigmaPositions[..], old(sigmaPositions[..]), n))
          && (sigmaDistances != null ==>
                ClampedPrefix(sigmaDistances[..], old(sigmaDistances[..]), n))
          && (!SameDimension(positions) ==> r == Failure(DimensionMismatch))
          && (SameDimension(positions) ==>
                && r.Success? && fresh(r.value) && r.value.Valid()
                && r.value.positions == positions && r.value.distances == distances
                && (sigmaPositions != null ==> r.value.sigmaPositions == sigmaPositions)
                && (sigmaPositions == null ==>
                      fresh(r.value.sigmaPositions) && r.value.sigmaPositions[..] == seq(n, _ => Epsilon))
                && (sigmaDistances != null ==> r.value.sigmaDistances == sigmaDistances)
                && (sigmaDistances == null ==>
                      fresh(r.value.sigmaDistances) && r.value.sigmaDistances[..] == seq(n, _ => Epsilon)))
    {
      if |positions| < 2 {
        return Failure(TooFewPositions);
      }
      if |positions| != distances.Length {
        return Failure(CountMismatch);
      }
      var n := |positions|;
      var sp: array<real>;
      if sigmaPositions == null {
        sp := new real[n](_ => 0.0);
      } else {
        sp := sigmaPositions;
      }
      var sd: array<real>;
      if sigmaDistances == null {
        sd := new real[n](_ => 0.0);
      } else {
        sd := sigmaDistances;
      }
      var stop := ClampAll(distances, sp, sd);
      if stop < n {
        return Failure(SigmaIndexOutOfBounds);
      }
      var same := HaveSameDimension(positions);
      if !same {
        return Failure(DimensionMismatch);
      }
      var f := new TrilaterationFunction.Init(positions, distances, sp, sd);
      r := Success(f);
    }

    /**
     * The clamping loop of `init`: raises `distances[i]`, then `sp[i]`, then `sd[i]` to at least
     * Epsilon for each index of `distances`, and stops with an index error at the first index
     * `stop` that one of the standard-deviation arrays does not have.
     */
    static method ClampAll(distances: array<real>, sp: array<real>, sd: array<real>) returns (stop: nat)
      requires sp != distances && sd != distances && sp != sd
      modifies distances, sp, sd
      ensures stop == Min(distances.Length, Min(sp.Length, sd.Length))
      ensures stop < distances.Length ==>
        && ClampedPrefix(distances[..], old(distances[..]), stop + 1)
        && ClampedPrefix(sp[..], old(sp[..]), stop + 1)
        && ClampedPrefix(sd[..], old(sd[..]), stop)
      ensures stop == distances.Length ==>
        && ClampedPrefix(distances[..], old(distances[..]), stop)
        && ClampedPrefix(sp[..], old(sp[..]), stop)
        && ClampedPrefix(sd[..], old(sd[..]), stop)
    {
      ghost var d0, sp0, sd0 := distances[..], sp[..], sd[..];
      var i := 0;
      while i < distances.Length
        invariant 0 <= i <= distances.Length && i <= sp.Length && i <= sd.Length
        invariant ClampedPrefix(distances[..], d0, i)
        invariant ClampedPrefix(sp[..], sp0, i)
        invariant ClampedPrefix(sd[..], sd0, i)
      {
        distances[i] := AtLeastEpsilon(distances[i]);
        if i >= sp.Length {
          return i;
        }
        sp[i] := AtLeastEpsilon(sp[i]);
        if i >= sd.Length {
          return i;
        }
        sd[i] := AtLeastEpsilon(sd[i]);
        i := i + 1;
      }
      return i;
    }

    /** The dimension check of `init`: every anchor has the dimension of the first. */
    static method HaveSameDimension(positions: seq<seq<real>>) returns (same: bool)
      requires |positions| > 0
      ensures same == SameDimension(positions)
    {
      var dimension := |positions[0]|;
      var k := 1;
      while k < |positions|
        invariant 1 <= k <= |positions|
        invariant forall m :: 0 <= m < k ==> |positions[m]| == dimension
      {
        if |positions[k]| != dimension {
          return false;
        }
        k := k + 1;
      }
      return true;
    }

    /**
     * The Jacobian at `point`: one row per anchor, one column per coordinate of `point`, entry (i, j)
     * being 2 point[j] - 2 positions[i][j].
     */
    method Jacobian(point: seq<real>) returns (jacobian: seq<seq<real>>)
      requires Valid()
      requires |point| <= Dimension()
      ensures |jacobian| == |positions|
      ensures forall i :: 0 <= i < |positions| ==> |jacobian[i]| == |point|
      ensures forall i, j :: 0 <= i < |positions| && 0 <= j < |point| ==>
        jacobian[i][j] == JacobianEntry(positions[i], point, j)
    {
      var rows := new seq<real>[distances.Length];
      var i := 0;
      while i < rows.Length
        invariant 0 <= i <= rows.Length
        invariant forall k :: 0 <= k < i ==> |rows[k]| == |point|
        invariant forall k, j :: 0 <= k < i && 0 <= j < |point| ==>
          rows[k][j] == JacobianEntry(positions[k], point, j)
      {
        var row := new real[|point|];
        var j := 0;
        while j < |point|
          modifies row
          invariant 0 <= j <= |point|
          invariant forall m :: 0 <= m < j ==> row[m] == JacobianEntry(positions[i], point, m)
        {
          row[j] := 2.0 * point[j] - 2.0 * positions[i][j];
          j := j + 1;
        }
        rows[i] := row[..];
        i := i + 1;
      }
      jacobian := rows[..];
    }

    /** The inner loop of `value`: sums the squared coordinate differences into `result[i]`. */
    static method AccumulateSquares(result: array<real>, i: nat, point: seq<real>, anchor: seq<real>)
      requires i < result.Length && |point| <= |anchor|
      modifies result
      ensures result[i] == SquaredDistance(point, anchor)
      ensures forall k :: 0 <= k < result.Length && k != i ==> result[k] == old(result[k])
    {
      result[i] := 0.0;
      var j := 0;
      while j < |point|
        invariant 0 <= j <= |point|
        invariant result[i] == SquaredDistance(point[..j], anchor)
        invariant forall k :: 0 <= k < result.Length && k != i ==> result[k] == old(result[k])
      {
        assert point[..j + 1][..j] == point[..j];
        result[i] := result[i] + (point[j] - anchor[j]) * (point[j] - anchor[j]);
        j := j + 1;
      }
      assert point[..j] == point;
    }

    /**
     * The residual vector and the Jacobian at `point`: residual i is the squared distance from
     * `point` to anchor i minus the square of distance i.
     */
    method Value(point: seq<real>) returns (residuals: seq<real>, jacobian: seq<seq<real>>)
      requires Valid()
      requires |point| <= Dimension()
      ensures |residuals| == |positions|
      ensures forall i :: 0 <= i < |positions| ==>
        residuals[i] == Residual(positions[i], distances[i], point)
      ensures |jacobian| == |positions|
      ensures forall i :: 0 <= i < |positions| ==> |jacobian[i]| == |point|
      ensures forall i, j :: 0 <= i < |positions| && 0 <= j < |point| ==>
        jacobian[i][j] == JacobianEntry(positions[i], point, j)
    {
      var result := new real[distances.Length];
      var i := 0;
      while i < result.Length
        invariant 0 <= i <= result.Length
        invariant forall k :: 0 <= k < i ==> result[k] == Residual(positions[k], distances[k], point)
      {
        AccumulateSquares(result, i, point, positions[i]);
        result[i] := result[i] - distances[i] * distances[i];
        i := i + 1;
      }
      residuals := result[..];
      jacobian := Jacobian(point);
    }
  }
}
