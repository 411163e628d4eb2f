/**
 * Three-component vectors over the reals, standing for nalgebra's
 * `Vector3<f64>`: the component-wise operations the core uses and the
 * sum of a sequence of vectors.
 */
module Vectors {

  datatype Vec3 = Vec3(x: real, y: real, z: real)
  {
    /** Component `k` (0 = x, 1 = y, 2 = z). */
    function Comp(k: nat): real
      requires k < 3
    {
      if k == 0 then x else if k == 1 then y else z
    }
  }

  const Zero: Vec3 := Vec3(0.0, 0.0, 0.0)

  function Add(a: Vec3, b: Vec3): Vec3
  {
    Vec3(a.x + b.x, a.y + b.y, a.z + b.z)
  }

  function Sub(a: Vec3, b: Vec3): Vec3
  {
    Vec3(a.x - b.x, a.y - b.y, a.z - b.z)
  }

  function Neg(a: Vec3): Vec3
  {
    Vec3(-a.x, -a.y, -a.z)
  }

  /** Scalar times vector. */
  function Scale(c: real, a: Vec3): Vec3
  {
    Vec3(c * a.x, c * a.y, c * a.z)
  }

  /** Vector divided by a scalar, component by component. */
  function DivScalar(a: Vec3, c: real): Vec3
    requires c != 0.0
  {
    Vec3(a.x / c, a.y / c, a.z / c)
  }

  function Cross(a: Vec3, b: Vec3): Vec3
  {
    Vec3(a.y * b.z - a.z * b.y, a.z * b.x - a.x * b.z, a.x * b.y - a.y * b.x)
  }

  /** `n` zero vectors. */
  function Zeros(n: nat): (zs: seq<Vec3>)
    ensures |zs| == n && forall k :: 0 <= k < n ==> zs[k] == Zero
  {
    seq(n, _ => Zero)
  }

  /** The sum of a sequence of vectors, first to last. */
  function Sum(vs: seq<Vec3>): Vec3
  {
    if vs == [] then Zero else Add(vs[0], Sum(vs[1..]))
  }

  lemma {:induction false} SumZeros(n: nat)
    ensures Sum(Zeros(n)) == Zero
  {
    if n > 0 {
      assert Zeros(n)[1..] == Zeros(n - 1);
      SumZeros(n - 1);
    }
  }

  /** Replacing one element changes the sum by exactly the difference. */
  lemma {:induction false} SumUpdate(vs: seq<Vec3>, k: nat, v: Vec3)
    requires k < |vs|
    ensures Add(Sum(vs[k := v]), vs[k]) == Add(Sum(vs), v)
  {
    if k > 0 {
      assert vs[k := v][1..] == vs[1..][k - 1 := v];
      SumUpdate(vs[1..], k - 1, v);
    } else {
      assert vs[k := v][1..] == vs[1..];
    }
  }

  /** Adding v to one element and -v to another leaves the sum unchanged. */
  lemma SumTransfer(vs: seq<Vec3>, i: nat, j: nat, v: Vec3)
    requires i < |vs| && j < |vs| && i != j
    ensures Sum(vs[i := Add(vs[i], v)][j := Add(vs[j], Neg(v))]) == Sum(vs)
  {
    var a1 := vs[i := Add(vs[i], v)];
    var a2 := a1[j := Add(vs[j], Neg(v))];
    SumUpdate(vs, i, Add(vs[i], v));
    SumUpdate(a1, j, Add(vs[j], Neg(v)));
    assert a1[j] == vs[j];
    var s0, s1, s2 := Sum(vs), Sum(a1), Sum(a2);
    assert Add(s1, vs[i]) == Add(s0, Add(vs[i], v));
    assert Add(s2, vs[j]) == Add(s1, Add(vs[j], Neg(v)));
  }
}
