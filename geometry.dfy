/** Points and vectors of 3-D space, the Euclidean distance and branch-length steering.

    The planner measures distances with the Euclidean norm (numpy's `linalg.norm`
    and the helper `distEuclidean`). Dafny's reals have no square root, so the
    norm is passed in as a function and `IsNorm` states the axioms of a norm,
    which the Euclidean norm satisfies: it is non-negative, vanishes only on the
    zero vector, scales with the absolute value of a factor and obeys the
    triangle inequality. Nothing else about it is used. */
module Geometry {

  /** A coordinate triple; it is also the identity of a tree node. */
  datatype Coord = Coord(x: real, y: real, z: real)

  const Origin: Coord := Coord(0.0, 0.0, 0.0)

  function Add(a: Coord, b: Coord): Coord { Coord(a.x + b.x, a.y + b.y, a.z + b.z) }

  function Sub(a: Coord, b: Coord): Coord { Coord(a.x - b.x, a.y - b.y, a.z - b.z) }

  function Scale(s: real, v: Coord): Coord { Coord(s * v.x, s * v.y, s * v.z) }

  function Abs(s: real): real { if s < 0.0 then -s else s }

  /** `norm` is a norm on 3-D vectors, as the Euclidean norm is. */
  ghost predicate IsNorm(norm: Coord -> real) {
    && (forall v :: 0.0 <= norm(v))
    && (forall v :: norm(v) == 0.0 <==> v == Origin)
    && (forall s, v :: norm(Scale(s, v)) == Abs(s) * norm(v))
    && (forall u, v :: norm(Add(u, v)) <= norm(u) + norm(v))
  }

  /** Euclidean distance from `a` to `b`. */
  function Dist(norm: Coord -> real, a: Coord, b: Coord): real {
    norm(Sub(b, a))
  }

  /** Distance is symmetric. */
  lemma DistSymmetric(norm: Coord -> real, a: Coord, b: Coord)
    requires IsNorm(norm)
    ensures Dist(norm, a, b) == Dist(norm, b, a)
  {
    assert Sub(a, b) == Scale(-1.0, Sub(b, a));
    assert norm(Scale(-1.0, Sub(b, a))) == Abs(-1.0) * norm(Sub(b, a));
  }

  /** A point is at distance 0 from itself and at a positive distance from every other point. */
  lemma DistZero(norm: Coord -> real, a: Coord, b: Coord)
    requires IsNorm(norm)
    ensures 0.0 <= Dist(norm, a, b)
    ensures Dist(norm, a, b) == 0.0 <==> a == b
  {
    assert Sub(b, a) == Origin <==> a == b;
  }

  /** Going through `b` is never shorter than going straight from `a` to `c`. */
  lemma DistTriangle(norm: Coord -> real, a: Coord, b: Coord, c: Coord)
    requires IsNorm(norm)
    ensures Dist(norm, a, c) <= Dist(norm, a, b) + Dist(norm, b, c)
  {
    assert Sub(c, a) == Add(Sub(b, a), Sub(c, b));
  }

  lemma QuotientAtMostOne(a: real, b: real)
    requires 0.0 < a <= b
    ensures 0.0 < a / b <= 1.0 && (a / b) * b == a
  {
    assert a / b * b == a;
  }

  /** Branch-length steering: `to` itself when it is closer to `from` than
      `length`, otherwise the point `length` away from `from` towards `to`.
      The comparison is strict, so a point exactly `length` away is rebuilt
      by scaling (and lands on `to` again). */
  function SetDistance(norm: Coord -> real, from: Coord, to: Coord, length: real): (r: Coord)
    requires 0.0 < length
    ensures norm(Sub(to, from)) < length ==> r == to
  {
    var vec := Sub(to, from);
    var vecNorm := norm(vec);
    if vecNorm < length then to
    else Add(from, Scale(length / vecNorm, vec))
  }

  /** What steering guarantees: the result is `to` when `to` is near, and
      otherwise lies on the segment from `from` to `to`, exactly `length`
      away from `from`, in the direction of `to`. */
  lemma SetDistanceSteers(norm: Coord -> real, from: Coord, to: Coord, length: real)
    requires IsNorm(norm) && 0.0 < length
    ensures var r := SetDistance(norm, from, to, length);
            var n := Dist(norm, from, to);
            && (n < length ==> r == to)
            && (length <= n ==>
                  && Dist(norm, from, r) == length
                  && Sub(r, from) == Scale(length / n, Sub(to, from))
                  && Dist(norm, r, to) == n - length)
  {
    var r := SetDistance(norm, from, to, length);
    var vec := Sub(to, from);
    var n := norm(vec);
    if length <= n {
      var s := length / n;
      assert 0.0 < n;
      QuotientAtMostOne(length, n);
      assert Sub(r, from) == Scale(s, vec);
      assert norm(Scale(s, vec)) == s * n;
      assert s * n == length;
      assert Sub(to, r) == Scale(1.0 - s, vec);
      assert norm(Scale(1.0 - s, vec)) == (1.0 - s) * n;
      assert (1.0 - s) * n == n - length;
    }
  }
}
