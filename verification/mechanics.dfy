/**
 * The dynamics of src/mechanics.rs: the pairwise gravitational force law and
 * the right-hand side of the equations of motion, which accumulates each
 * pair's force once, with equal and opposite contributions, into per-body
 * net forces and divides each by its body's mass.
 *
 * Arithmetic is over the reals. The Euclidean length is not computable over
 * the reals, so the force law takes the length as a caller-supplied function
 * `norm` with the two properties the model relies on (see IsNorm).
 */
module Mechanics {
  import opened Vectors
  import opened Results
  import opened Utils

  /** `G_AU3_KG_DAY2`, the gravitational constant in AU^3 / (kg day^2). */
  const G: real := 0.000000000000000000000000000000000148780389

  /**
   * What the model needs of the vector length: it is positive on every
   * nonzero vector and the same for a vector and its negation. The Euclidean
   * norm that nalgebra's `norm()` computes has both properties.
   */
  ghost predicate IsNorm(norm: Vec3 -> real)
  {
    && (forall d :: d != Zero ==> norm(d) > 0.0)
    && (forall d {:trigger norm(Neg(d))} :: norm(Neg(d)) == norm(d))
  }

  /** `G * m1 * m2` divided by the cube of the distance (`powf(3.0)`). */
  function ForceCoefficient(m1: real, m2: real, dist: real): real
    requires dist > 0.0
  {
    CubePositive(dist);
    G * m1 * m2 / (dist * dist * dist)
  }

  /**
   * `f` is a multiple of the separation r2 - r1, and a positive one (a pull
   * from r1 towards r2) when `attracting` holds.
   */
  ghost predicate AlongSeparation(f: Vec3, r1: Vec3, r2: Vec3, attracting: bool) {
    exists c :: f == Scale(c, Sub(r2, r1)) && (attracting ==> c > 0.0)
  }

  /**
   * `calculate_force_vec`: the gravitational force on a body of mass m1 at r1
   * due to a body of mass m2 at r2, directed along r2 - r1. Coincident
   * positions divide by zero in the source; here they are excluded.
   */
  function ForceVec(r1: Vec3, r2: Vec3, m1: real, m2: real, norm: Vec3 -> real): (f: Vec3)
    requires IsNorm(norm) && r1 != r2
    ensures AlongSeparation(f, r1, r2, m1 > 0.0 && m2 > 0.0)
  {
    assert Sub(r1, r2) != Zero;
    var c := ForceCoefficient(m1, m2, norm(Sub(r1, r2)));
    assert m1 > 0.0 && m2 > 0.0 ==> c > 0.0 by {
      if m1 > 0.0 && m2 > 0.0 {
        CoefficientPositive(m1, m2, norm(Sub(r1, r2)));
      }
    }
    Scale(c, Sub(r2, r1))
  }

  lemma CubePositive(r: real)
    requires r > 0.0
    ensures r * r * r > 0.0
  {
  }

  lemma CoefficientSymmetric(m1: real, m2: real, dist: real)
    requires dist > 0.0
    ensures ForceCoefficient(m2, m1, dist) == ForceCoefficient(m1, m2, dist)
  {
    assert G * m2 * m1 == G * m1 * m2;
  }

  lemma CoefficientPositive(m1: real, m2: real, dist: real)
    requires m1 > 0.0 && m2 > 0.0 && dist > 0.0
    ensures ForceCoefficient(m1, m2, dist) > 0.0
  {
    CubePositive(dist);
    assert G * m1 * m2 > 0.0;
  }

  lemma ScaleNeg(c: real, d: Vec3)
    ensures Scale(c, Neg(d)) == Neg(Scale(c, d))
  {
  }

  /** Newton's third law: swapping the two bodies negates the force. */
  lemma ForceAntisymmetric(r1: Vec3, r2: Vec3, m1: real, m2: real, norm: Vec3 -> real)
    requires IsNorm(norm) && r1 != r2
    ensures ForceVec(r2, r1, m2, m1, norm) == Neg(ForceVec(r1, r2, m1, m2, norm))
  {
    var d := Sub(r1, r2);
    assert Sub(r2, r1) == Neg(d);
    assert d != Zero;
    var dist := norm(d);
    assert norm(Neg(d)) == dist;
    var c := ForceCoefficient(m1, m2, dist);
    CoefficientSymmetric(m1, m2, dist);
    assert ForceVec(r2, r1, m2, m1, norm) == Scale(c, d);
    assert ForceVec(r1, r2, m1, m2, norm) == Scale(c, Neg(d));
    ScaleNeg(c, d);
  }

  /** The sign of c * t is the sign of t when c is positive. */
  lemma PositiveScaleSign(c: real, t: real)
    requires c > 0.0
    ensures c * t > 0.0 <==> t > 0.0
    ensures c * t == 0.0 <==> t == 0.0
  {
    if t > 0.0 {
      assert c * t > 0.0;
    } else if t < 0.0 {
      assert c * (-t) > 0.0;
    }
  }

  /**
   * For positive masses the force is attractive: along every axis it points
   * from r1 towards r2, and it has no component along an axis on which the
   * two positions agree.
   */
  lemma ForceAttractive(r1: Vec3, r2: Vec3, m1: real, m2: real, norm: Vec3 -> real)
    requires IsNorm(norm) && r1 != r2 && m1 > 0.0 && m2 > 0.0
    ensures var f := ForceVec(r1, r2, m1, m2, norm);
      && (f.x > 0.0 <==> r2.x > r1.x) && (f.x == 0.0 <==> r2.x == r1.x)
      && (f.y > 0.0 <==> r2.y > r1.y) && (f.y == 0.0 <==> r2.y == r1.y)
      && (f.z > 0.0 <==> r2.z > r1.z) && (f.z == 0.0 <==> r2.z == r1.z)
  {
    var d := Sub(r1, r2);
    assert d != Zero;
    var c := ForceCoefficient(m1, m2, norm(d));
    CoefficientPositive(m1, m2, norm(d));
    PositiveScaleSign(c, r2.x - r1.x);
    PositiveScaleSign(c, r2.y - r1.y);
    PositiveScaleSign(c, r2.z - r1.z);
  }

  /** The force is parallel to the separation r2 - r1. */
  lemma ForceAlongSeparation(r1: Vec3, r2: Vec3, m1: real, m2: real, norm: Vec3 -> real)
    requires IsNorm(norm) && r1 != r2
    ensures Cross(ForceVec(r1, r2, m1, m2, norm), Sub(r2, r1)) == Zero
  {
    var d := Sub(r1, r2);
    assert d != Zero;
    var c := ForceCoefficient(m1, m2, norm(d));
    var e := Sub(r2, r1);
    assert c * e.y * e.z - c * e.z * e.y == 0.0;
    assert c * e.z * e.x - c * e.x * e.z == 0.0;
    assert c * e.x * e.y - c * e.y * e.x == 0.0;
  }

  // ---------------------------------------------------------------------
  // The loop structure: which pairs are visited, and in what order.

  /** The pairs (i, 0), ..., (i, j - 1): the first j passes of the inner loop for body i. */
  function Row(i: nat, j: nat): (row: seq<(nat, nat)>)
    ensures |row| == j && forall k :: 0 <= k < j ==> row[k] == (i, k)
  {
    seq(j, k requires 0 <= k < j => (i, k))
  }

  lemma RowExtend(i: nat, j: nat)
    ensures Row(i, j + 1) == Row(i, j) + [(i, j)]
  {
    assert Row(i, j + 1)[..j] == Row(i, j);
  }

  /** One more pass of the inner loop appends pair (i, j) to the visited pairs. */
  lemma VisitNext(i: nat, j: nat)
    ensures Pairs(i) + Row(i, j + 1) == (Pairs(i) + Row(i, j)) + [(i, j)]
  {
    RowExtend(i, j);
  }

  /**
   * The pairs (i, j), j < i < n, in the order the two loops of
   * `get_derivatives` visit them: i ascending, and for each i, j ascending
   * below i (`take(i)`).
   */
  function Pairs(n: nat): seq<(nat, nat)>
  {
    if n == 0 then [] else Pairs(n - 1) + Row(n - 1, n - 1)
  }

  ghost predicate PairsBelow(ps: seq<(nat, nat)>, n: nat)
  {
    forall k :: 0 <= k < |ps| ==> ps[k].1 < ps[k].0 < n
  }

  ghost predicate LexLess(p: (nat, nat), q: (nat, nat))
  {
    p.0 < q.0 || (p.0 == q.0 && p.1 < q.1)
  }

  /**
   * The visit order covers the strict lower triangle: n(n-1)/2 pairs, each
   * with j < i < n, in strictly increasing order, hence no pair twice.
   */
  lemma {:induction false} PairsEnumerateLowerTriangle(n: nat)
    ensures 2 * |Pairs(n)| == n * (n - 1)
    ensures PairsBelow(Pairs(n), n)
    ensures forall k, l :: 0 <= k < l < |Pairs(n)| ==> LexLess(Pairs(n)[k], Pairs(n)[l])
  {
    if n > 0 {
      PairsEnumerateLowerTriangle(n - 1);
      var p, row := Pairs(n - 1), Row(n - 1, n - 1);
      assert Pairs(n) == p + row;
      assert (n - 1) * (n - 2) + 2 * (n - 1) == n * (n - 1);
      forall k, l | 0 <= k < l < |p + row|
        ensures LexLess((p + row)[k], (p + row)[l])
      {
        if l < |p| {
          assert (p + row)[k] == p[k] && (p + row)[l] == p[l];
        } else if k < |p| {
          assert (p + row)[k] == p[k] && (p + row)[l] == row[l - |p|];
        } else {
          assert (p + row)[k] == row[k - |p|] && (p + row)[l] == row[l - |p|];
        }
      }
    }
  }

  lemma {:induction false} PairsPrefix(a: nat, n: nat)
    requires a <= n
    ensures |Pairs(a)| <= |Pairs(n)| && Pairs(n)[..|Pairs(a)|] == Pairs(a)
  {
    if a < n {
      PairsPrefix(a, n - 1);
      assert Pairs(n) == Pairs(n - 1) + Row(n - 1, n - 1);
    }
  }

  /** Every pair b < a < n is visited, at position |Pairs(a)| + b. */
  lemma PairVisited(n: nat, a: nat, b: nat)
    requires b < a < n
    ensures |Pairs(a)| + b < |Pairs(n)| && Pairs(n)[|Pairs(a)| + b] == (a, b)
  {
    PairsPrefix(a + 1, n);
    assert Pairs(a + 1) == Pairs(a) + Row(a, a);
  }

  // ---------------------------------------------------------------------
  // Accumulating the pair forces into per-body net forces.

  /**
   * A system of bodies: positions, one mass per body, a length function, and
   * no two bodies at the same position (the force law divides by their
   * distance).
   */
  ghost predicate Configuration(r: seq<Vec3>, m: seq<real>, norm: Vec3 -> real)
  {
    |m| == |r| && IsNorm(norm) && forall i, j :: 0 <= i < j < |r| ==> r[i] != r[j]
  }

  /** The force on body i due to body j. */
  function PairForce(r: seq<Vec3>, m: seq<real>, norm: Vec3 -> real, i: nat, j: nat): Vec3
    requires Configuration(r, m, norm) && i < |r| && j < |r| && i != j
  {
    assert r[i] != r[j] by {
      if i < j { assert r[i] != r[j]; } else { assert r[j] != r[i]; }
    }
    ForceVec(r[i], r[j], m[i], m[j], norm)
  }

  lemma PairForceAntisymmetric(r: seq<Vec3>, m: seq<real>, norm: Vec3 -> real, i: nat, j: nat)
    requires Configuration(r, m, norm) && i < |r| && j < |r| && i != j
    ensures PairForce(r, m, norm, j, i) == Neg(PairForce(r, m, norm, i, j))
  {
    assert r[i] != r[j] by {
      if i < j { assert r[i] != r[j]; } else { assert r[j] != r[i]; }
    }
    ForceAntisymmetric(r[i], r[j], m[i], m[j], norm);
  }

  /** One pass of the inner loop for pair (i, j): `+fij` to body i, `-fij` to body j. */
  function AddPair(acc: seq<Vec3>, r: seq<Vec3>, m: seq<real>, norm: Vec3 -> real, p: (nat, nat)): seq<Vec3>
    requires Configuration(r, m, norm) && |acc| == |r| && p.1 < p.0 < |r|
  {
    var f := PairForce(r, m, norm, p.0, p.1);
    acc[p.0 := Add(acc[p.0], f)][p.1 := Add(acc[p.1], Neg(f))]
  }

  /** The accumulator after visiting the pairs `ps` in order. */
  function Accumulate(acc: seq<Vec3>, r: seq<Vec3>, m: seq<real>, norm: Vec3 -> real,
                      ps: seq<(nat, nat)>): (res: seq<Vec3>)
    requires Configuration(r, m, norm) && |acc| == |r| && PairsBelow(ps, |r|)
    ensures |res| == |acc|
  {
    if ps == [] then acc
    else AddPair(Accumulate(acc, r, m, norm, ps[..|ps| - 1]), r, m, norm, ps[|ps| - 1])
  }

  lemma AccumulateStep(acc: seq<Vec3>, r: seq<Vec3>, m: seq<real>, norm: Vec3 -> real,
                       ps: seq<(nat, nat)>, p: (nat, nat))
    requires Configuration(r, m, norm) && |acc| == |r| && PairsBelow(ps + [p], |r|)
    ensures PairsBelow(ps, |r|) && p.1 < p.0 < |r|
    ensures Accumulate(acc, r, m, norm, ps + [p])
            == AddPair(Accumulate(acc, r, m, norm, ps), r, m, norm, p)
  {
    assert (ps + [p])[..|ps|] == ps;
    assert (ps + [p])[|ps|] == p;
    assert forall k :: 0 <= k < |ps| ==> ps[k] == (ps + [p])[k];
  }

  /** `net_forces` after the outer loop has reached body i and the inner loop body j. */
  function Accumulated(r: seq<Vec3>, m: seq<real>, norm: Vec3 -> real, i: nat, j: nat): (acc: seq<Vec3>)
    requires Configuration(r, m, norm) && j <= i <= |r| && (i == |r| ==> j == 0)
    ensures |acc| == |r|
  {
    PrefixBelow(i, j, |r|);
    Accumulate(Zeros(|r|), r, m, norm, Pairs(i) + Row(i, j))
  }

  /**
   * One pass of the inner loop, as the method performs it: adding `fij` to
   * body i and then `-fij` to body j moves on from pair (i, j).
   */
  lemma PassStep(r: seq<Vec3>, m: seq<real>, norm: Vec3 -> real, i: nat, j: nat,
                 before: seq<Vec3>, after: seq<Vec3>)
    requires Configuration(r, m, norm) && j < i < |r| && r[j] != r[i]
    requires before == Accumulated(r, m, norm, i, j)
    requires after == before[i := Add(before[i], ForceVec(r[i], r[j], m[i], m[j], norm))]
                            [j := Add(before[j], Neg(ForceVec(r[i], r[j], m[i], m[j], norm)))]
    ensures after == Accumulated(r, m, norm, i, j + 1)
  {
    PrefixBelow(i, j + 1, |r|);
    VisitNext(i, j);
    AccumulateStep(Zeros(|r|), r, m, norm, Pairs(i) + Row(i, j), (i, j));
  }

  /** The end of the inner loop for body i is the start of the one for body i + 1. */
  lemma RowDone(r: seq<Vec3>, m: seq<real>, norm: Vec3 -> real, i: nat)
    requires Configuration(r, m, norm) && i < |r|
    ensures Pairs(i) + Row(i, i) == Pairs(i + 1) + Row(i + 1, 0)
    ensures Accumulated(r, m, norm, i, i) == Accumulated(r, m, norm, i + 1, 0)
  {
    assert Pairs(i + 1) + Row(i + 1, 0) == Pairs(i + 1);
  }

  lemma AccumulatedAll(r: seq<Vec3>, m: seq<real>, norm: Vec3 -> real)
    requires Configuration(r, m, norm)
    ensures Accumulated(r, m, norm, |r|, 0) == NetForces(r, m, norm)
  {
    assert Pairs(|r|) + Row(|r|, 0) == Pairs(|r|);
  }

  /**
   * `net_forces` once both loops have finished. The force on each body k is
   * the reference sum over every other body, and (Newton's third law for the
   * whole system) the net forces sum to the zero vector.
   */
  function NetForces(r: seq<Vec3>, m: seq<real>, norm: Vec3 -> real): (f: seq<Vec3>)
    requires Configuration(r, m, norm)
    ensures |f| == |r|
    ensures forall k :: 0 <= k < |r| ==> f[k] == DirectSum(r, m, norm, k, |r|)
    ensures Sum(f) == Zero
  {
    PairsEnumerateLowerTriangle(|r|);
    AccumulateKeepsSum(Zeros(|r|), r, m, norm, Pairs(|r|));
    SumZeros(|r|);
    AccumulateRows(r, m, norm, |r|, 0);
    assert Pairs(|r|) + Row(|r|, 0) == Pairs(|r|);
    Accumulate(Zeros(|r|), r, m, norm, Pairs(|r|))
  }

  /**
   * The reference definition: the net force on body k is the sum, over every
   * other body j < u, of the force on k due to j.
   */
  function DirectSum(r: seq<Vec3>, m: seq<real>, norm: Vec3 -> real, k: nat, u: nat): Vec3
    requires Configuration(r, m, norm) && k < |r| && u <= |r|
  {
    if u == 0 then Zero
    else if u - 1 == k then DirectSum(r, m, norm, k, u - 1)
    else Add(DirectSum(r, m, norm, k, u - 1), PairForce(r, m, norm, k, u - 1))
  }

  /** Each pass adds f to one body and -f to another, so the total is unchanged. */
  lemma AddPairKeepsSum(acc: seq<Vec3>, r: seq<Vec3>, m: seq<real>, norm: Vec3 -> real, p: (nat, nat))
    requires Configuration(r, m, norm) && |acc| == |r| && p.1 < p.0 < |r|
    ensures Sum(AddPair(acc, r, m, norm, p)) == Sum(acc)
  {
    SumTransfer(acc, p.0, p.1, PairForce(r, m, norm, p.0, p.1));
  }

  lemma {:induction false} AccumulateKeepsSum(acc: seq<Vec3>, r: seq<Vec3>, m: seq<real>, norm: Vec3 -> real,
                                               ps: seq<(nat, nat)>)
    requires Configuration(r, m, norm) && |acc| == |r| && PairsBelow(ps, |r|)
    ensures Sum(Accumulate(acc, r, m, norm, ps)) == Sum(acc)
  {
    if ps != [] {
      var prefix := ps[..|ps| - 1];
      AccumulateKeepsSum(acc, r, m, norm, prefix);
      AddPairKeepsSum(Accumulate(acc, r, m, norm, prefix), r, m, norm, ps[|ps| - 1]);
    }
  }

  lemma PrefixBelow(i: nat, j: nat, n: nat)
    requires j <= i <= n && (i == n ==> j == 0)
    ensures PairsBelow(Pairs(i) + Row(i, j), n)
  {
    PairsEnumerateLowerTriangle(i);
    var ps := Pairs(i) + Row(i, j);
    forall k | 0 <= k < |ps|
      ensures ps[k].1 < ps[k].0 < n
    {
      if k < |Pairs(i)| {
        assert ps[k] == Pairs(i)[k];
      } else {
        assert ps[k] == Row(i, j)[k - |Pairs(i)|];
      }
    }
  }

  /**
   * Body k's accumulator after the pairs Pairs(i) + Row(i, j): bodies below j
   * have met every body up to i, the others below i every body below i,
   * body i the bodies below j, and later bodies nothing yet.
   */
  function Partial(r: seq<Vec3>, m: seq<real>, norm: Vec3 -> real, i: nat, j: nat, k: nat): Vec3
    requires Configuration(r, m, norm) && j <= i <= |r| && (i == |r| ==> j == 0) && k < |r|
  {
    if k < j then DirectSum(r, m, norm, k, i + 1)
    else if k < i then DirectSum(r, m, norm, k, i)
    else if k == i then DirectSum(r, m, norm, i, j)
    else Zero
  }

  /** Visiting pair (i, j - 1) moves the accumulator from Partial(i, j - 1) to Partial(i, j). */
  lemma AddPairAdvances(acc: seq<Vec3>, r: seq<Vec3>, m: seq<real>, norm: Vec3 -> real, i: nat, j: nat)
    requires Configuration(r, m, norm) && 0 < j <= i < |r| && |acc| == |r|
    requires forall k :: 0 <= k < |r| ==> acc[k] == Partial(r, m, norm, i, j - 1, k)
    ensures forall k :: 0 <= k < |r| ==> AddPair(acc, r, m, norm, (i, j - 1))[k] == Partial(r, m, norm, i, j, k)
  {
    var f := PairForce(r, m, norm, i, j - 1);
    var next := AddPair(acc, r, m, norm, (i, j - 1));
    assert next == acc[i := Add(acc[i], f)][j - 1 := Add(acc[j - 1], Neg(f))];
    forall k | 0 <= k < |r|
      ensures next[k] == Partial(r, m, norm, i, j, k)
    {
      if k == i {
        assert next[k] == Add(acc[i], f);
        AdvanceAtI(r, m, norm, i, j);
      } else if k == j - 1 {
        assert next[k] == Add(acc[k], Neg(f));
        AdvanceAtJ(r, m, norm, i, j);
      } else {
        assert next[k] == acc[k];
        AdvanceElsewhere(r, m, norm, i, j, k);
      }
    }
  }

  lemma AdvanceAtI(r: seq<Vec3>, m: seq<real>, norm: Vec3 -> real, i: nat, j: nat)
    requires Configuration(r, m, norm) && 0 < j <= i < |r|
    ensures Add(Partial(r, m, norm, i, j - 1, i), PairForce(r, m, norm, i, j - 1)) == Partial(r, m, norm, i, j, i)
  {
    assert Partial(r, m, norm, i, j - 1, i) == DirectSum(r, m, norm, i, j - 1);
    assert Partial(r, m, norm, i, j, i) == DirectSum(r, m, norm, i, j);
  }

  lemma AdvanceAtJ(r: seq<Vec3>, m: seq<real>, norm: Vec3 -> real, i: nat, j: nat)
    requires Configuration(r, m, norm) && 0 < j <= i < |r|
    ensures Add(Partial(r, m, norm, i, j - 1, j - 1), Neg(PairForce(r, m, norm, i, j - 1)))
         == Partial(r, m, norm, i, j, j - 1)
  {
    PairForceAntisymmetric(r, m, norm, i, j - 1);
    assert Partial(r, m, norm, i, j - 1, j - 1) == DirectSum(r, m, norm, j - 1, i);
    assert Partial(r, m, norm, i, j, j - 1) == DirectSum(r, m, norm, j - 1, i + 1);
  }

  lemma AdvanceElsewhere(r: seq<Vec3>, m: seq<real>, norm: Vec3 -> real, i: nat, j: nat, k: nat)
    requires Configuration(r, m, norm) && 0 < j <= i < |r| && k < |r| && k != i && k != j - 1
    ensures Partial(r, m, norm, i, j - 1, k) == Partial(r, m, norm, i, j, k)
  {
  }

  /** Finishing the inner loop for body i - 1 is starting it for body i. */
  lemma PartialNextRow(r: seq<Vec3>, m: seq<real>, norm: Vec3 -> real, i: nat, k: nat)
    requires Configuration(r, m, norm) && 0 < i <= |r| && k < |r|
    ensures Partial(r, m, norm, i - 1, i - 1, k) == Partial(r, m, norm, i, 0, k)
  {
  }

  /** The loop invariant of `get_derivatives`, stated on the specification. */
  lemma {:induction false} AccumulateRows(r: seq<Vec3>, m: seq<real>, norm: Vec3 -> real, i: nat, j: nat)
    requires Configuration(r, m, norm) && j <= i <= |r| && (i == |r| ==> j == 0)
    ensures PairsBelow(Pairs(i) + Row(i, j), |r|)
    ensures forall k :: 0 <= k < |r| ==>
              Accumulate(Zeros(|r|), r, m, norm, Pairs(i) + Row(i, j))[k] == Partial(r, m, norm, i, j, k)
    decreases i, j
  {
    PrefixBelow(i, j, |r|);
    var n := |r|;
    var ps := Pairs(i) + Row(i, j);
    if j == 0 && i == 0 {
      assert ps == [];
    } else if j == 0 {
      AccumulateRows(r, m, norm, i - 1, i - 1);
      assert ps == Pairs(i - 1) + Row(i - 1, i - 1);
      forall k | 0 <= k < n
        ensures Accumulate(Zeros(n), r, m, norm, ps)[k] == Partial(r, m, norm, i, j, k)
      {
        PartialNextRow(r, m, norm, i, k);
      }
    } else {
      var prev := Pairs(i) + Row(i, j - 1);
      AccumulateRows(r, m, norm, i, j - 1);
      assert ps == prev + [(i, j - 1)];
      assert ps[..|ps| - 1] == prev;
      AddPairAdvances(Accumulate(Zeros(n), r, m, norm, prev), r, m, norm, i, j);
    }
  }

  // ---------------------------------------------------------------------
  // `get_derivatives`: the right-hand side of the equations of motion.

  /** The triple of values of state `y` that belongs to slot i. */
  function Triple(y: seq<real>, i: nat): Vec3
    requires 3 * i + 2 < |y|
  {
    Vec3(y[3 * i], y[3 * i + 1], y[3 * i + 2])
  }

  /**
   * The inputs `get_derivatives` is called with: a state of exactly 2n
   * triples and a mass for each body (extra masses are ignored by `zip`),
   * as the program always passes them; no zero mass (each net force is
   * divided by it); and no two bodies at the same position (their distance
   * is divided by).
   */
  ghost predicate DerivativeInputs(y: seq<real>, masses: seq<real>, n: nat, norm: Vec3 -> real)
  {
    && |y| / 3 == 2 * n
    && |masses| >= n
    && (forall k :: 0 <= k < n ==> masses[k] != 0.0)
    && IsNorm(norm)
    && (forall i, j :: 0 <= i < j < n ==> Triple(y, i) != Triple(y, j))
  }

  /**
   * Each net force divided by its own body's mass (`f / *m`): one
   * acceleration per force, and mass times acceleration is the force.
   */
  function Accelerations(forces: seq<Vec3>, masses: seq<real>): (a: seq<Vec3>)
    requires |masses| >= |forces| && forall k :: 0 <= k < |forces| ==> masses[k] != 0.0
    ensures |a| == |forces|
    ensures forall k :: 0 <= k < |forces| ==> Scale(masses[k], a[k]) == forces[k]
  {
    var a := seq(|forces|, k requires 0 <= k < |forces| => DivScalar(forces[k], masses[k]));
    assert forall k :: 0 <= k < |forces| ==> Scale(masses[k], a[k]) == forces[k] by {
      forall k | 0 <= k < |forces|
        ensures Scale(masses[k], a[k]) == forces[k]
      {
        ScaleDiv(masses[k], forces[k]);
      }
    }
    a
  }

  lemma DecodedConfiguration(y: seq<real>, masses: seq<real>, n: nat, norm: Vec3 -> real)
    requires DerivativeInputs(y, masses, n, norm)
    ensures YToVecs(y, n).Ok?
    ensures |YToVecs(y, n).value.1| == n
    ensures Configuration(YToVecs(y, n).value.0, masses[..n], norm)
  {
    var r := YToVecs(y, n).value.0;
    forall i, j | 0 <= i < j < n
      ensures r[i] != r[j]
    {
      assert r[i] == Triple(y, i) && r[j] == Triple(y, j);
    }
  }

  /**
   * The derivative of state `y`: the velocities, followed by each body's net
   * force divided by its mass. It has 6n values, and its position half is the
   * velocity half of the state, unchanged.
   */
  function Derivatives(y: seq<real>, masses: seq<real>, n: nat, norm: Vec3 -> real): (dy: seq<real>)
    requires DerivativeInputs(y, masses, n, norm)
    ensures |dy| == 6 * n
    ensures dy[..3 * n] == y[3 * n..6 * n]
  {
    DecodedConfiguration(y, masses, n, norm);
    var r := YToVecs(y, n).value.0;
    var v := YToVecs(y, n).value.1;
    var a := Accelerations(NetForces(r, masses[..n], norm), masses);
    VelocityHalf(y, n, a);
    VecsToY(v, a, n).value
  }

  /** Encoding the decoded velocities first puts them back where they were. */
  lemma VelocityHalf(y: seq<real>, n: nat, a: seq<Vec3>)
    requires |y| / 3 == 2 * n && |a| == n
    ensures YToVecs(y, n).Ok?
    ensures VecsToY(YToVecs(y, n).value.1, a, n).Ok?
    ensures VecsToY(YToVecs(y, n).value.1, a, n).value[..3 * n] == y[3 * n..6 * n]
  {
    var r := YToVecs(y, n).value.0;
    var v := YToVecs(y, n).value.1;
    assert Batch3(y) == r + v;
    FlattenAppend(r, v);
    FlattenBatch(y);
    assert |y| / 3 * 3 == 6 * n;
    assert Flatten(r) + Flatten(v) == y[..6 * n];
    assert Flatten(v) == y[3 * n..6 * n];
  }

  /**
   * The acceleration of body k (slot n + k of the derivative) is the sum,
   * over every other body, of the force on k due to it, divided by the mass
   * of k.
   */
  lemma DerivativesAccelerations(y: seq<real>, masses: seq<real>, n: nat, norm: Vec3 -> real, k: nat)
    requires DerivativeInputs(y, masses, n, norm) && k < n
    ensures YToVecs(y, n).Ok? && Configuration(YToVecs(y, n).value.0, masses[..n], norm)
    ensures |Derivatives(y, masses, n, norm)| == 6 * n
    ensures Triple(Derivatives(y, masses, n, norm), n + k)
            == DivScalar(DirectSum(YToVecs(y, n).value.0, masses[..n], norm, k, n), masses[k])
  {
    DecodedConfiguration(y, masses, n, norm);
    var r := YToVecs(y, n).value.0;
    var v := YToVecs(y, n).value.1;
    var f := NetForces(r, masses[..n], norm);
    var a := Accelerations(f, masses);
    var dy := Derivatives(y, masses, n, norm);
    assert dy == Flatten(v) + Flatten(a);
    FlattenAppend(v, a);
    BatchFlatten(v + a);
    assert Batch3(dy)[n + k] == (v + a)[n + k] == a[k];
  }

  /** Slot n + k of the derivative is the accumulated net force on body k divided by its mass. */
  lemma DerivativesNetForces(y: seq<real>, masses: seq<real>, n: nat, norm: Vec3 -> real, k: nat)
    requires DerivativeInputs(y, masses, n, norm) && k < n
    ensures YToVecs(y, n).Ok? && Configuration(YToVecs(y, n).value.0, masses[..n], norm)
    ensures |Derivatives(y, masses, n, norm)| == 6 * n
    ensures Triple(Derivatives(y, masses, n, norm), n + k)
            == DivScalar(NetForces(YToVecs(y, n).value.0, masses[..n], norm)[k], masses[k])
  {
    DecodedConfiguration(y, masses, n, norm);
    var r := YToVecs(y, n).value.0;
    var v := YToVecs(y, n).value.1;
    var a := Accelerations(NetForces(r, masses[..n], norm), masses);
    var dy := Derivatives(y, masses, n, norm);
    assert dy == Flatten(v) + Flatten(a);
    FlattenAppend(v, a);
    BatchFlatten(v + a);
    assert Batch3(dy)[n + k] == (v + a)[n + k] == a[k];
  }

  lemma ScaleDiv(m: real, f: Vec3)
    requires m != 0.0
    ensures Scale(m, DivScalar(f, m)) == f
  {
    assert m * (f.x / m) == f.x;
    assert m * (f.y / m) == f.y;
    assert m * (f.z / m) == f.z;
  }

  /** Each body's mass times its acceleration, read from slots n.. of a derivative. */
  function Momenta(dy: seq<real>, masses: seq<real>, n: nat): (w: seq<Vec3>)
    requires |dy| == 6 * n && |masses| >= n
    ensures |w| == n && forall k :: 0 <= k < n ==> w[k] == Scale(masses[k], Triple(dy, n + k))
  {
    seq(n, k requires 0 <= k < n => Scale(masses[k], Triple(dy, n + k)))
  }

  /** Body k's mass times its acceleration gives back its net force. */
  lemma WeightedAcceleration(y: seq<real>, masses: seq<real>, n: nat, norm: Vec3 -> real, k: nat)
    requires DerivativeInputs(y, masses, n, norm) && k < n
    ensures YToVecs(y, n).Ok? && Configuration(YToVecs(y, n).value.0, masses[..n], norm)
    ensures |Derivatives(y, masses, n, norm)| == 6 * n
    ensures Momenta(Derivatives(y, masses, n, norm), masses, n)[k]
            == NetForces(YToVecs(y, n).value.0, masses[..n], norm)[k]
  {
    DerivativesNetForces(y, masses, n, norm, k);
    ScaleDiv(masses[k], NetForces(YToVecs(y, n).value.0, masses[..n], norm)[k]);
  }

  /**
   * Conservation of momentum: the mass-weighted accelerations of all bodies
   * sum to the zero vector.
   */
  lemma MomentumBalance(y: seq<real>, masses: seq<real>, n: nat, norm: Vec3 -> real)
    requires DerivativeInputs(y, masses, n, norm)
    ensures |Derivatives(y, masses, n, norm)| == 6 * n
    ensures Sum(Momenta(Derivatives(y, masses, n, norm), masses, n)) == Zero
  {
    MomentaAreNetForces(y, masses, n, norm);
  }

  lemma MomentaAreNetForces(y: seq<real>, masses: seq<real>, n: nat, norm: Vec3 -> real)
    requires DerivativeInputs(y, masses, n, norm)
    ensures YToVecs(y, n).Ok? && Configuration(YToVecs(y, n).value.0, masses[..n], norm)
    ensures |Derivatives(y, masses, n, norm)| == 6 * n
    ensures Momenta(Derivatives(y, masses, n, norm), masses, n) == NetForces(YToVecs(y, n).value.0, masses[..n], norm)
  {
    DecodedConfiguration(y, masses, n, norm);
    var f := NetForces(YToVecs(y, n).value.0, masses[..n], norm);
    var dy := Derivatives(y, masses, n, norm);
    var weighted := Momenta(dy, masses, n);
    forall k | 0 <= k < n
      ensures weighted[k] == f[k]
    {
      WeightedAcceleration(y, masses, n, norm, k);
    }
    assert |weighted| == n == |f|;
  }

  /** With no bodies the derivative is empty. */
  lemma NoBodies(y: seq<real>, masses: seq<real>, norm: Vec3 -> real)
    requires DerivativeInputs(y, masses, 0, norm)
    ensures Derivatives(y, masses, 0, norm) == []
  {
  }

  /** A single body feels no force: its acceleration is zero. */
  lemma SingleBodyUnaccelerated(y: seq<real>, masses: seq<real>, norm: Vec3 -> real)
    requires DerivativeInputs(y, masses, 1, norm)
    ensures |Derivatives(y, masses, 1, norm)| == 6
    ensures Triple(Derivatives(y, masses, 1, norm), 1) == Zero
  {
    DerivativesAccelerations(y, masses, 1, norm, 0);
    LoneBody(YToVecs(y, 1).value.0, masses[..1], norm);
    ZeroDiv(masses[0]);
  }

  lemma LoneBody(r: seq<Vec3>, m: seq<real>, norm: Vec3 -> real)
    requires Configuration(r, m, norm) && |r| == 1
    ensures DirectSum(r, m, norm, 0, 1) == Zero
  {
    assert DirectSum(r, m, norm, 0, 0) == Zero;
  }

  lemma ZeroDiv(m: real)
    requires m != 0.0
    ensures DivScalar(Zero, m) == Zero
  {
    assert 0.0 / m == 0.0;
  }

  /**
   * Two bodies: body 0 is accelerated by the force due to body 1, and body 1
   * by its negation, each divided by the body's own mass.
   */
  lemma TwoBodies(y: seq<real>, masses: seq<real>, norm: Vec3 -> real)
    requires DerivativeInputs(y, masses, 2, norm)
    ensures Triple(y, 0) != Triple(y, 1)
    ensures |Derivatives(y, masses, 2, norm)| == 12
    ensures Triple(Derivatives(y, masses, 2, norm), 2)
            == DivScalar(ForceVec(Triple(y, 0), Triple(y, 1), masses[0], masses[1], norm), masses[0])
    ensures Triple(Derivatives(y, masses, 2, norm), 3)
            == DivScalar(Neg(ForceVec(Triple(y, 0), Triple(y, 1), masses[0], masses[1], norm)), masses[1])
  {
    var r := YToVecs(y, 2).value.0;
    var m := masses[..2];
    DerivativesAccelerations(y, masses, 2, norm, 0);
    DerivativesAccelerations(y, masses, 2, norm, 1);
    assert r[0] == Triple(y, 0) && r[1] == Triple(y, 1);
    TwoBodyDirectSums(r, m, norm);
  }

  lemma TwoBodyDirectSums(r: seq<Vec3>, m: seq<real>, norm: Vec3 -> real)
    requires Configuration(r, m, norm) && |r| == 2
    ensures DirectSum(r, m, norm, 0, 2) == ForceVec(r[0], r[1], m[0], m[1], norm)
    ensures DirectSum(r, m, norm, 1, 2) == Neg(ForceVec(r[0], r[1], m[0], m[1], norm))
  {
    assert DirectSum(r, m, norm, 0, 1) == Zero;
    assert DirectSum(r, m, norm, 1, 1) == Add(Zero, PairForce(r, m, norm, 1, 0));
    PairForceAntisymmetric(r, m, norm, 0, 1);
  }

  /**
   * The two-body case of the source's tests: bodies at (1, 1, 1) and
   * (1, 2, 3) moving with velocities (2, 0, 0) and (1, 0, 0), of masses
   * 10e20 and 20e20. The velocities are copied; the first body is pulled
   * towards the second (no x component, z twice y), the second the opposite
   * way at half the acceleration.
   */
  lemma TwoBodyExample(norm: Vec3 -> real)
    requires IsNorm(norm)
    ensures var y := [1.0, 1.0, 1.0, 1.0, 2.0, 3.0, 2.0, 0.0, 0.0, 1.0, 0.0, 0.0];
            var masses := [1000000000000000000000.0, 2000000000000000000000.0];
            && DerivativeInputs(y, masses, 2, norm)
            && var dy := Derivatives(y, masses, 2, norm);
            && |dy| == 12
            && dy[..6] == [2.0, 0.0, 0.0, 1.0, 0.0, 0.0]
            && dy[6] == 0.0 && dy[7] > 0.0 && dy[8] == 2.0 * dy[7]
            && dy[9] == 0.0 && dy[10] == -dy[7] / 2.0 && dy[11] == 2.0 * dy[10]
  {
    var y := [1.0, 1.0, 1.0, 1.0, 2.0, 3.0, 2.0, 0.0, 0.0, 1.0, 0.0, 0.0];
    var masses := [1000000000000000000000.0, 2000000000000000000000.0];
    assert Triple(y, 0) != Triple(y, 1);
    assert DerivativeInputs(y, masses, 2, norm);
    TwoBodies(y, masses, norm);
    var dy := Derivatives(y, masses, 2, norm);
    var r0, r1 := Vec3(1.0, 1.0, 1.0), Vec3(1.0, 2.0, 3.0);
    assert Triple(y, 0) == r0 && Triple(y, 1) == r1;
    var d := norm(Sub(r0, r1));
    assert Sub(r0, r1) != Zero;
    CoefficientPositive(masses[0], masses[1], d);
    var c := ForceCoefficient(masses[0], masses[1], d);
    assert ForceVec(r0, r1, masses[0], masses[1], norm) == Vec3(0.0, c, 2.0 * c);
    assert y[3 * 2..6 * 2] == [2.0, 0.0, 0.0, 1.0, 0.0, 0.0];
    assert Triple(dy, 2) == Vec3(0.0 / masses[0], c / masses[0], 2.0 * c / masses[0]);
    assert Triple(dy, 3) == Vec3(-0.0 / masses[1], -c / masses[1], -(2.0 * c) / masses[1]);
  }

  /**
   * The force of the source's test for `calculate_force_vec`: bodies at
   * (1, 1, 1) and (1, 2, 3); the force on the first has no x component, a
   * positive y component and a z component twice that.
   */
  lemma ForceExample(norm: Vec3 -> real)
    requires IsNorm(norm)
    ensures var f := ForceVec(Vec3(1.0, 1.0, 1.0), Vec3(1.0, 2.0, 3.0),
                              1000000000000000000000.0, 2000000000000000000000.0, norm);
            f.x == 0.0 && f.y > 0.0 && f.z == 2.0 * f.y
  {
    var r0, r1 := Vec3(1.0, 1.0, 1.0), Vec3(1.0, 2.0, 3.0);
    assert Sub(r0, r1) != Zero;
    CoefficientPositive(1000000000000000000000.0, 2000000000000000000000.0, norm(Sub(r0, r1)));
  }

  /**
   * The inner loop of `get_derivatives` for body i: for each body j below i
   * (`take(i)`), `fij` is added to body i and `-fij` to body j. Each pass
   * appends its pair to `visited`.
   */
  method AddRow(netForces: array<Vec3>, r: seq<Vec3>, masses: seq<real>, norm: Vec3 -> real,
                i: nat, ghost visitedBefore: seq<(nat, nat)>)
    returns (ghost visited: seq<(nat, nat)>)
    requires |masses| >= |r| && Configuration(r, masses[..|r|], norm) && i < |r| == netForces.Length
    requires visitedBefore == Pairs(i)
    requires netForces[..] == Accumulated(r, masses[..|r|], norm, i, 0)
    modifies netForces
    ensures visited == Pairs(i + 1)
    ensures netForces[..] == Accumulated(r, masses[..|r|], norm, i + 1, 0)
  {
    ghost var m := masses[..|r|];
    visited := visitedBefore;
    var j := 0;
    while j < i
      invariant j <= i
      invariant visited == Pairs(i) + Row(i, j)
      invariant netForces[..] == Accumulated(r, m, norm, i, j)
    {
      assert r[j] != r[i];
      var fij := ForceVec(r[i], r[j], masses[i], masses[j], norm);
      ghost var before := netForces[..];
      netForces[i] := Add(netForces[i], fij);
      netForces[j] := Add(netForces[j], Neg(fij));
      PassStep(r, m, norm, i, j, before, netForces[..]);
      VisitNext(i, j);
      visited := visited + [(i, j)];
      j := j + 1;
    }
    RowDone(r, m, norm, i);
  }

  /**
   * The outer loop of `get_derivatives` over the array `netForces`, which
   * starts at zero: every body i in turn runs the inner loop. `visited`
   * records the pairs in the order the loops meet them.
   */
  method AccumulateNetForces(r: seq<Vec3>, masses: seq<real>, norm: Vec3 -> real)
    returns (forces: seq<Vec3>, ghost visited: seq<(nat, nat)>)
    requires |masses| >= |r| && Configuration(r, masses[..|r|], norm)
    ensures visited == Pairs(|r|)
    ensures forces == NetForces(r, masses[..|r|], norm)
  {
    var n := |r|;
    var netForces := new Vec3[n](_ => Zero);
    assert netForces[..] == Zeros(n) == Accumulated(r, masses[..n], norm, 0, 0);
    visited := [];
    var i := 0;
    while i < n
      invariant i <= n && netForces.Length == n
      invariant visited == Pairs(i)
      invariant netForces[..] == Accumulated(r, masses[..n], norm, i, 0)
    {
      visited := AddRow(netForces, r, masses, norm, i, visited);
      i := i + 1;
    }
    AccumulatedAll(r, masses[..n], norm);
    forces := netForces[..];
  }

  /**
   * `get_derivatives`: decodes the state, accumulates the net forces,
   * divides each by its body's mass and encodes velocities and
   * accelerations as the new state.
   */
  method GetDerivatives(y: seq<real>, masses: seq<real>, n: nat, norm: Vec3 -> real)
    returns (dy: seq<real>, ghost visited: seq<(nat, nat)>)
    requires DerivativeInputs(y, masses, n, norm)
    ensures visited == Pairs(n)
    ensures dy == Derivatives(y, masses, n, norm)
  {
    DecodedConfiguration(y, masses, n, norm);
    var decoded := YToVecs(y, n).value;
    var r, v := decoded.0, decoded.1;
    var netForces;
    netForces, visited := AccumulateNetForces(r, masses, norm);
    var accelerations := Accelerations(netForces, masses);
    dy := VecsToY(v, accelerations, n).value;
  }
}
