/** Point validity and the discretised straight-line check (rrt.py, `pointValid`
    and the sampling rule of `validateLinePath`).

    The obstacle field is seen only through the distance from a point to the
    nearest obstacle point (the answer of the KD-tree query), and the bounds
    volume only through its containment test; both are inputs of the model. */
module Validity {
  import opened Geometry

  /** What the planner is given about the world. */
  datatype World = World(
    norm: Coord -> real,        // the Euclidean norm
    inBounds: Coord -> bool,    // the bounds volume's containment test
    clearance: Coord -> real,   // distance to the nearest obstacle point
    safetyDistance: real)

  /** Extra clearance added to the configured safety distance. */
  const SafetyMargin: real := 0.1

  /** Default step of the line check. */
  const Discretization: real := 0.1

  /** A point is valid when it is inside the bounds (checked only on request)
      and strictly farther than the safety distance plus the margin from every
      obstacle point. */
  predicate PointValid(w: World, p: Coord, checkBounds: bool): (r: bool)
    ensures r <==> (!checkBounds || w.inBounds(p)) && w.safetyDistance + SafetyMargin < w.clearance(p)
  {
    if checkBounds && !w.inBounds(p) then false
    else w.clearance(p) > w.safetyDistance + SafetyMargin
  }

  /** The k-th point the line check examines: `from + (k * disc) * (to - from)`.
      The direction `to - from` is NOT normalised, so the samples are `disc`
      times the segment's length apart, not `disc` apart. */
  function SampleAt(from: Coord, to: Coord, disc: real, k: nat): Coord {
    Add(from, Scale(k as real * disc, Sub(to, from)))
  }

  /** Length of the segment, the bound of the sampling parameter. */
  function SegmentLength(w: World, from: Coord, to: Coord): real {
    w.norm(Sub(to, from))
  }

  /** An upper bound on the number of samples, used to prove that the sampling terminates. */
  function SampleCount(len: real, disc: real): int
    requires 0.0 < disc
  {
    (len / disc).Floor + 1
  }

  lemma SampleIndexBounded(k: nat, len: real, disc: real)
    requires 0.0 < disc && k as real * disc < len
    ensures k < SampleCount(len, disc)
  {
    assert (k as real * disc) / disc == k as real;
    assert k as real < len / disc;
  }

  lemma ParameterMonotone(k: nat, j: nat, disc: real)
    requires 0.0 < disc && k <= j
    ensures k as real * disc <= j as real * disc
  {
    assert j as real * disc - k as real * disc == (j - k) as real * disc;
  }

  lemma ParameterStep(k: nat, disc: real)
    ensures (k + 1) as real * disc == k as real * disc + disc
  {
  }

  /** The samples from the k-th on are all valid. */
  function SamplesValidFrom(w: World, from: Coord, to: Coord, disc: real, checkBounds: bool, k: nat): bool
    requires 0.0 < disc
    decreases SampleCount(SegmentLength(w, from, to), disc) - k
  {
    if k as real * disc < SegmentLength(w, from, to) then
      SampleIndexBounded(k, SegmentLength(w, from, to), disc);
      PointValid(w, SampleAt(from, to, disc, k), checkBounds)
      && SamplesValidFrom(w, from, to, disc, checkBounds, k + 1)
    else
      true
  }

  /** The recursion above checks exactly the samples whose parameter is below the segment length. */
  lemma {:induction false} SamplesValidFromMeans(w: World, from: Coord, to: Coord, disc: real, checkBounds: bool, k: nat)
    requires 0.0 < disc
    ensures SamplesValidFrom(w, from, to, disc, checkBounds, k) <==>
            forall j: nat :: k <= j && j as real * disc < SegmentLength(w, from, to) ==>
                             PointValid(w, SampleAt(from, to, disc, j), checkBounds)
    decreases SampleCount(SegmentLength(w, from, to), disc) - k
  {
    var len := SegmentLength(w, from, to);
    if k as real * disc < len {
      SampleIndexBounded(k, len, disc);
      SamplesValidFromMeans(w, from, to, disc, checkBounds, k + 1);
    } else {
      forall j: nat | k <= j
        ensures j as real * disc < len ==> PointValid(w, SampleAt(from, to, disc, j), checkBounds)
      {
        ParameterMonotone(k, j, disc);
      }
    }
  }

  /** The result of `validateLinePath`. */
  function LineValid(w: World, from: Coord, to: Coord, disc: real, checkBounds: bool): bool
    requires 0.0 < disc
  {
    SamplesValidFrom(w, from, to, disc, checkBounds, 0) && PointValid(w, to, true)
  }

  /** The line check passes exactly when every sample whose parameter is below
      the segment's length passes the point check (bounds only when
      `checkBounds`), and the end point passes it WITH the bounds check,
      whatever `checkBounds` says. */
  lemma LineValidMeans(w: World, from: Coord, to: Coord, disc: real, checkBounds: bool)
    requires 0.0 < disc
    ensures LineValid(w, from, to, disc, checkBounds) <==>
            && (forall j: nat :: j as real * disc < SegmentLength(w, from, to) ==>
                                 PointValid(w, SampleAt(from, to, disc, j), checkBounds))
            && PointValid(w, to, true)
  {
    SamplesValidFromMeans(w, from, to, disc, checkBounds, 0);
  }
}
