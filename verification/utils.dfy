/**
 * The state codec of src/utils.rs: the integrator's flat state holds the n
 * position vectors, then the n velocity vectors, each as three consecutive
 * components.
 */
module Utils {
  import opened Vectors
  import opened Results

  /** Why reshaping can fail: the two panics the Rust code can raise. */
  datatype CodecError =
    | WrongLength   // `State::from_iterator` given other than 6n values
    | SplitPastEnd  // `split_off(n)` on fewer than n triples

  /**
   * The components of every vector, in order (`flat_map` over the vectors):
   * component k of vector i sits at index 3i + k.
   */
  function Flatten(vs: seq<Vec3>): (r: seq<real>)
    ensures |r| == 3 * |vs|
    ensures forall i, k :: 0 <= i < |vs| && 0 <= k < 3 ==> r[3 * i + k] == vs[i].Comp(k)
  {
    if vs == [] then []
    else
      var rest := Flatten(vs[1..]);
      var r := [vs[0].x, vs[0].y, vs[0].z] + rest;
      assert forall i, k :: 1 <= i < |vs| && 0 <= k < 3 ==> r[3 * i + k] == vs[i].Comp(k) by {
        forall i, k | 1 <= i < |vs| && 0 <= k < 3
          ensures r[3 * i + k] == vs[i].Comp(k)
        {
          assert r[3 * i + k] == rest[3 * (i - 1) + k];
          assert vs[1..][i - 1] == vs[i];
        }
      }
      r
  }

  /**
   * Consecutive triples of `y`, in order; one or two values left over at the
   * end are dropped (the `batching` closure gives up when `next()` runs out).
   */
  function Batch3(y: seq<real>): (r: seq<Vec3>)
    ensures |r| == |y| / 3
    ensures forall j :: 0 <= j < |r| ==> r[j] == Vec3(y[3 * j], y[3 * j + 1], y[3 * j + 2])
  {
    if |y| < 3 then []
    else
      var rest := Batch3(y[3..]);
      var r := [Vec3(y[0], y[1], y[2])] + rest;
      assert forall j :: 1 <= j < |r| ==> r[j] == rest[j - 1];
      r
  }

  /**
   * `vecs_to_y`: positions then velocities, flattened; `from_iterator(2*3*n, ..)`
   * accepts exactly 6n values and panics otherwise.
   */
  function VecsToY(r: seq<Vec3>, v: seq<Vec3>, n: nat): (res: Result<seq<real>, CodecError>)
    ensures res.Ok? <==> |r| + |v| == 2 * n
    ensures res.Ok? ==> |res.value| == 6 * n
    ensures res.Ok? ==> forall i, k :: 0 <= i < |r| && 0 <= k < 3 ==> res.value[3 * i + k] == r[i].Comp(k)
    ensures res.Ok? ==> forall i, k :: 0 <= i < |v| && 0 <= k < 3 ==>
              res.value[3 * |r| + 3 * i + k] == v[i].Comp(k)
  {
    var y := Flatten(r) + Flatten(v);
    if |y| == 6 * n then Ok(y) else Err(WrongLength)
  }

  /**
   * `y_to_vecs`: the triples of `y` split at `n`; the first n are the
   * positions, the rest the velocities. `split_off` panics past the end.
   */
  function YToVecs(y: seq<real>, n: nat): (res: Result<(seq<Vec3>, seq<Vec3>), CodecError>)
    ensures res.Ok? <==> n <= |y| / 3
    ensures res.Ok? ==> |res.value.0| == n && |res.value.1| == |y| / 3 - n
    ensures res.Ok? ==> forall i :: 0 <= i < n ==>
              res.value.0[i] == Vec3(y[3 * i], y[3 * i + 1], y[3 * i + 2])
    ensures res.Ok? ==> forall i :: 0 <= i < |res.value.1| ==>
              res.value.1[i] == Vec3(y[3 * (n + i)], y[3 * (n + i) + 1], y[3 * (n + i) + 2])
  {
    var triples := Batch3(y);
    if n <= |triples| then Ok((triples[..n], triples[n..])) else Err(SplitPastEnd)
  }

  lemma {:induction false} FlattenAppend(a: seq<Vec3>, b: seq<Vec3>)
    ensures Flatten(a + b) == Flatten(a) + Flatten(b)
  {
    if a == [] {
      assert a + b == b;
    } else {
      var h := [a[0].x, a[0].y, a[0].z];
      assert (a + b)[0] == a[0];
      assert (a + b)[1..] == a[1..] + b;
      FlattenAppend(a[1..], b);
      calc {
        Flatten(a + b);
        h + Flatten(a[1..] + b);
        h + (Flatten(a[1..]) + Flatten(b));
        (h + Flatten(a[1..])) + Flatten(b);
        Flatten(a) + Flatten(b);
      }
    }
  }

  /** Grouping the flattened components gives the vectors back. */
  lemma {:induction false} BatchFlatten(vs: seq<Vec3>)
    ensures Batch3(Flatten(vs)) == vs
  {
    if vs != [] {
      var f := Flatten(vs);
      assert f[3..] == Flatten(vs[1..]);
      BatchFlatten(vs[1..]);
    }
  }

  /** Flattening the triples gives back every value except the dropped tail. */
  lemma {:induction false} FlattenBatch(y: seq<real>)
    ensures Flatten(Batch3(y)) == y[..|y| / 3 * 3]
  {
    if |y| >= 3 {
      FlattenBatch(y[3..]);
      assert y[3..][..|y[3..]| / 3 * 3] == y[3..|y| / 3 * 3];
    }
  }

  /** Position component k of body i sits at index 3i+k. */
  lemma EncodeLayout(r: seq<Vec3>, v: seq<Vec3>, n: nat, i: nat, k: nat)
    requires |r| == n && |v| == n && i < n && k < 3
    ensures VecsToY(r, v, n).Ok?
    ensures VecsToY(r, v, n).value[3 * i + k] == r[i].Comp(k)
    ensures VecsToY(r, v, n).value[3 * n + 3 * i + k] == v[i].Comp(k)
  {
  }

  /** Decoding an encoded state gives back the positions and velocities. */
  lemma DecodeEncode(r: seq<Vec3>, v: seq<Vec3>, n: nat)
    requires |r| == n && |v| == n
    ensures VecsToY(r, v, n).Ok?
    ensures YToVecs(VecsToY(r, v, n).value, n) == Ok((r, v))
  {
    var y := VecsToY(r, v, n).value;
    FlattenAppend(r, v);
    BatchFlatten(r + v);
    assert Batch3(y) == r + v;
    assert (r + v)[..n] == r && (r + v)[n..] == v;
  }

  /** Encoding a decoded state of length 6n gives back the same state. */
  lemma EncodeDecode(y: seq<real>, n: nat)
    requires |y| == 6 * n
    ensures YToVecs(y, n).Ok?
    ensures VecsToY(YToVecs(y, n).value.0, YToVecs(y, n).value.1, n) == Ok(y)
  {
    assert |y| / 3 == 2 * n;
    var triples := Batch3(y);
    var r := YToVecs(y, n).value.0;
    var v := YToVecs(y, n).value.1;
    assert r + v == triples;
    FlattenAppend(r, v);
    FlattenBatch(y);
    assert |y| / 3 * 3 == |y|;
    assert y[..|y| / 3 * 3] == y;
  }

  /** The case of the module's own tests: two bodies, n = 2. */
  lemma CodecExample()
    ensures YToVecs([1.0, 1.0, 1.0, 1.0, 2.0, 3.0, 2.0, 0.0, 0.0, 1.0, 0.0, 0.0], 2)
         == Ok(([Vec3(1.0, 1.0, 1.0), Vec3(1.0, 2.0, 3.0)], [Vec3(2.0, 0.0, 0.0), Vec3(1.0, 0.0, 0.0)]))
    ensures VecsToY([Vec3(1.0, 1.0, 1.0), Vec3(1.0, 2.0, 3.0)], [Vec3(2.0, 0.0, 0.0), Vec3(1.0, 0.0, 0.0)], 2)
         == Ok([1.0, 1.0, 1.0, 1.0, 2.0, 3.0, 2.0, 0.0, 0.0, 1.0, 0.0, 0.0])
  {
    var r := [Vec3(1.0, 1.0, 1.0), Vec3(1.0, 2.0, 3.0)];
    var v := [Vec3(2.0, 0.0, 0.0), Vec3(1.0, 0.0, 0.0)];
    DecodeEncode(r, v, 2);
    assert VecsToY(r, v, 2).value == [1.0, 1.0, 1.0, 1.0, 2.0, 3.0, 2.0, 0.0, 0.0, 1.0, 0.0, 0.0];
  }
}
