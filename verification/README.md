# n_body_animated — a Dafny model of the dynamics core

`n_body_animated` integrates Newton's equations of motion for a handful of
gravitating bodies and animates the result. This project models the part
that defines the equations of motion, together with the data they are built
from:

* `src/utils.rs` — the state codec. `vecs_to_y` flattens the position and
  velocity vectors of n bodies into one state of 6n values (positions first).
  `y_to_vecs` groups a state into consecutive triples and splits them after
  the n-th. Modelled in `utils.dfy` (module `Utils`) as functions that
  return a `Result`. The error cases are the inputs on which the source
  panics.
* `src/mechanics.rs` — `calculate_force_vec`, the pairwise gravitational
  force `G m1 m2 (r2 - r1) / |r1 - r2|^3`, and `get_derivatives`, the
  right-hand side of the equations of motion. `get_derivatives` visits every
  pair (i, j) with j < i once. It adds `fij` to body i and `-fij` to body j
  in the mutable vector `net_forces`, divides each net force by its body's
  mass, and encodes velocities followed by accelerations. Modelled in
  `mechanics.dfy` (module `Mechanics`). The force law is a function. The
  loops are methods over an `array<Vec3>`: `AddRow` is the inner loop,
  `AccumulateNetForces` the outer loop, and `GetDerivatives` is the whole
  function. Each method is proved against a specification function.
  `Accumulate` applies the visited pairs in order. `NetForces` is the
  result of the whole double loop. `DirectSum` is an independent reference
  definition: the sum over every other body. It has no contract of its own;
  the `NetForces` and `DerivativesAccelerations` rows state how it relates
  to the loops.
* `src/data_structs.rs` — the `Body` and `Data` records and the two
  projections `get_field_mat` (the "pos" or "vel" vector of every body) and
  `get_field_mass`. Modelled in `data_structs.dfy` (module `DataStructs`).
  The panics of `get_field_mat` become `Err` results.

Supporting modules:

* `results.dfy` holds the `Result` type.
* `vectors.dfy` holds `Vec3` over the reals, nalgebra's `Vector3<f64>`, and
  the sum of a sequence of vectors.

The state type `State` (a `DVector<f64>`) is a `seq<real>`.

The Euclidean length `norm()` is not computable over the reals. The force
law therefore takes the length as a parameter `norm`. `IsNorm` states the
two properties the proofs use: the length is positive on every nonzero
vector, and a vector and its negation have the same length.

## Model

| member | source | states |
|---|---|---|
| `Utils.VecsToY` | src/utils.rs:5-15 | The encoding succeeds exactly when there are 2n vectors in all (`from_iterator(2*3*n, ..)`). The state then has 6n values: component k of position i is at 3i+k, and component k of velocity i is at 3p+3i+k, where p is the number of positions (3n+3i+k when p = n). |
| `Utils.YToVecs` | src/utils.rs:17-40 | The decoding succeeds exactly when n is at most the number of complete triples (`split_off` panics past the end). The first n triples are the positions and the remaining triples are the velocities, each triple being three consecutive values of the state. |
| `Utils.Batch3` | src/utils.rs:22-37 | `batching` yields |y| / 3 vectors, vector j being (y[3j], y[3j+1], y[3j+2]). One or two values left over at the end are dropped. |
| `Utils.Flatten` | src/utils.rs:11-12 | `flat_map` gives three values per vector and nothing else, and component k of vector i sits at index 3i+k. |
| `Utils.FlattenAppend` | src/utils.rs:11-12 | Flattening positions followed by velocities (`extend`) gives the concatenation of the two flattenings. |
| `Utils.BatchFlatten` | src/utils.rs:11-37 | Grouping a flattened list of vectors into triples gives the vectors back. |
| `Utils.FlattenBatch` | src/utils.rs:22-37 | Flattening the triples gives back the state without its incomplete tail. |
| `Utils.EncodeLayout` | src/utils.rs:9-14 | For n positions and n velocities, the layout 3i+k / 3n+3i+k holds for every body and component. |
| `Utils.DecodeEncode` | src/utils.rs:5-40 | Decoding an encoded state gives back the same positions and velocities. |
| `Utils.EncodeDecode` | src/utils.rs:5-40 | Encoding a decoded state of 6n values gives back the same state. |
| `Utils.CodecExample` | src/utils.rs:46-62 | The two-body case of the module's tests decodes into (1,1,1), (1,2,3) / (2,0,0), (1,0,0), and encodes back. |
| `Mechanics.ForceVec` | src/mechanics.rs:7-11 | The force on body 1 due to body 2 is a multiple of r2 - r1. For positive masses the multiple is positive, a pull towards body 2. |
| `Mechanics.CoefficientSymmetric` | src/mechanics.rs:9 | The scalar factor `G m1 m2 / d^3` is the same for both orders of the masses. |
| `Mechanics.CoefficientPositive` | src/mechanics.rs:9 | The scalar factor is positive for positive masses. |
| `Mechanics.ForceAntisymmetric` | src/mechanics.rs:7-11 | Newton's third law: the force on body 2 due to body 1 is the negation of the force on body 1 due to body 2. |
| `Mechanics.ForceAttractive` | src/mechanics.rs:9 | For positive masses, each component of the force has the sign of the same component of r2 - r1, and is zero exactly where the two positions agree. |
| `Mechanics.ForceAlongSeparation` | src/mechanics.rs:9 | The force is parallel to r2 - r1: their cross product is zero. |
| `Mechanics.ForceExample` | src/mechanics.rs:38-49 | For the test's bodies at (1,1,1) and (1,2,3), the force has no x component, a positive y component and a z component twice the y component. |
| `Mechanics.PairsEnumerateLowerTriangle` | src/mechanics.rs:18-22 | The loops visit n(n-1)/2 pairs. Every pair (i, j) has j < i < n, and each pair comes strictly after the previous one in (i, j) order, so no pair is visited twice. |
| `Mechanics.PairVisited` | src/mechanics.rs:18-22 | Every pair b < a < n is visited, at position |Pairs(a)| + b. |
| `Mechanics.PairForceAntisymmetric` | src/mechanics.rs:23-25 | The force of pair (j, i) is the negation of the force of pair (i, j), so `-fij` is body j's share. |
| `Mechanics.AddPairKeepsSum` | src/mechanics.rs:24-25 | One pass adds `fij` to body i and `-fij` to body j, which leaves the sum of all accumulated forces unchanged. |
| `Mechanics.AccumulateKeepsSum` | src/mechanics.rs:18-27 | Any sequence of passes leaves the sum of all accumulated forces unchanged. |
| `Mechanics.AccumulateStep` | src/mechanics.rs:19-26 | Visiting one more pair applies that pair's update to the accumulator. |
| `Mechanics.AddPairAdvances` | src/mechanics.rs:23-25 | Pass (i, j) moves the accumulator from one partial state to the next: body i gains the force due to j, body j gains the force due to i, and no other body changes. |
| `Mechanics.AccumulateRows` | src/mechanics.rs:18-27 | Loop invariant on the specification. After the pairs up to (i, j), a body below j has the forces of every body up to i, a body below i those of every body below i, body i those of the bodies below j, and a later body nothing. |
| `Mechanics.NetForces` | src/mechanics.rs:17-27 | The net forces after both loops, one per body. The force on each body k equals the reference sum `DirectSum`, over every other body, of the force on k due to it. The net forces of all bodies sum to the zero vector (Newton's third law for the whole system). |
| `Mechanics.PassStep` | src/mechanics.rs:23-25 | The two in-place updates of one inner pass take the array from the state after pair (i, j-1) to the state after pair (i, j). |
| `Mechanics.AddRow` | src/mechanics.rs:19-26 | Inner loop, in place on the array: it starts from the state after all pairs below row i and ends with row i done. The pairs it visits are (i, 0), ..., (i, i-1), in that order. |
| `Mechanics.AccumulateNetForces` | src/mechanics.rs:17-27 | Both loops over a zero-initialised array: the result is `NetForces`, and the visited pairs are exactly `Pairs(n)`. |
| `Mechanics.GetDerivatives` | src/mechanics.rs:13-31 | The method returns `Derivatives` of its inputs, and its loops visit exactly the pairs `Pairs(n)`. |
| `Mechanics.DecodedConfiguration` | src/mechanics.rs:16 | On valid inputs, decoding the state gives n positions, pairwise distinct, and n velocities. |
| `Mechanics.Accelerations` | src/mechanics.rs:28 | One acceleration per net force (`f / *m`): each body's mass times its acceleration gives back its net force. |
| `Mechanics.Derivatives` | src/mechanics.rs:13-31 | The derivative of a valid state has 6n values. Its first 3n values are the velocity half of the state, unchanged. |
| `Mechanics.DerivativesNetForces` | src/mechanics.rs:28-30 | Slot n+k of the derivative is the net force on body k divided by the mass of k. |
| `Mechanics.DerivativesAccelerations` | src/mechanics.rs:13-31 | Slot n+k of the derivative is the sum, over every other body j, of the force on k due to j, divided by the mass of k. |
| `Mechanics.WeightedAcceleration` | src/mechanics.rs:28 | Body k's mass times the acceleration in slot n+k of the derivative gives back the net force on body k. |
| `Mechanics.MomentaAreNetForces` | src/mechanics.rs:28 | The mass-weighted accelerations are exactly the net forces. |
| `Mechanics.MomentumBalance` | src/mechanics.rs:13-31 | The mass-weighted accelerations of all bodies sum to the zero vector (total momentum is conserved). |
| `Mechanics.NoBodies` | src/mechanics.rs:13-31 | With n = 0 the derivative is empty. |
| `Mechanics.SingleBodyUnaccelerated` | src/mechanics.rs:18-22 | With n = 1 the loops visit no pair, so the acceleration is zero. |
| `Mechanics.TwoBodyDirectSums` | src/mechanics.rs:23-25 | With two bodies, body 0 receives the force due to body 1 and body 1 receives its negation. |
| `Mechanics.TwoBodies` | src/mechanics.rs:18-28 | With two bodies, body 0's acceleration is F/m0 and body 1's is -F/m1, where F = `calculate_force_vec(r0, r1, m0, m1)`. |
| `Mechanics.TwoBodyExample` | src/mechanics.rs:51-62 | The test's state and masses 10e20, 20e20 satisfy the preconditions. The derivative starts with the velocities (2,0,0), (1,0,0). Body 0's acceleration is (0, a, 2a) with a > 0, and body 1's is (0, -a/2, -a). |
| `DataStructs.FromVec` | src/data_structs.rs:55-58 | A vector is built exactly when the list has at least three values, from its first three. |
| `DataStructs.FieldOf` | src/data_structs.rs:54-59 | The closure succeeds exactly for "pos" or "vel" with at least three values. Any other name gives `UnexpectedFieldType`, and a list that is too short gives `TooFewComponents`. On success, component k is value k of the list. |
| `DataStructs.GetFieldMat` | src/data_structs.rs:50-61 | The result is Ok exactly when every body's field can be built. Ok then holds one vector per body, in order. On failure, the error is that of the first body whose field fails. With no bodies the result is the empty list, whatever the field name. |
| `DataStructs.UnknownField` | src/data_structs.rs:54-59 | A field name other than "pos" or "vel" fails with `UnexpectedFieldType` as soon as there is a body. |
| `DataStructs.FieldComponents` | src/data_structs.rs:54-58 | For well-formed bodies both projections succeed, and component k of body i's vector is value k of its `pos` / `vel` list. |
| `DataStructs.ShortFieldFails` | src/data_structs.rs:55-56 | A position list of fewer than three values makes the "pos" projection fail. |
| `DataStructs.GetFieldMass` | src/data_structs.rs:62-66 | One mass per body: value i is the mass of body i. |
| `DataStructs.InitialState` | src/main.rs:13-20 | Take n as the number of bodies of a well-formed system. Its positions and velocities encode into an initial state of 6n values, and that state decodes back into the same vectors. There is one mass per body. |

## Left out

- Floating point: all arithmetic is over the reals. Rounding and the bit-exact values the tests compare against are not modelled. The examples state the signs and ratios the expected values show instead.
- `norm()` and `powf(3.0)`: the length is an abstract `norm` parameter constrained by `IsNorm`, and the cube is written as a product. The inverse-square magnitude of the force is therefore not stated.
- `Mechanics.ForceVec` requires distinct positions. At zero separation the source divides by zero and yields non-finite values; it raises no error.
- `Mechanics.GetDerivatives` requires a nonzero mass for every body, because the source's `f / m` gives non-finite values for a zero mass. It also requires pairwise distinct positions, for the reason above.
- `Mechanics.GetDerivatives` requires a state of exactly 2n triples and at least n masses, as its only caller passes them (src/main.rs:13-22 builds them for `NBody::system`, src/lib.rs:24). Other inputs either panic in `split_off` or `from_iterator`, or, when fewer than n masses are given, `zip` stops early and a degenerate state can come out (n = 1, no masses and 9 values give back values 3 to 8). Those inputs are not modelled.
- nalgebra is not part of this model. Its behaviour is assumed: `DVector::from_iterator` accepts exactly the requested number of values and panics otherwise, and `Vector3::from_vec` panics on fewer than three values and ignores extra ones.
- The nested closures of `get_derivatives` are three methods (`AddRow`, `AccumulateNetForces`, `GetDerivatives`). The final `map` that divides by the masses builds a new vector, so it is the function `Accelerations` on a sequence.
- `Body::eq` (approximate mass comparison), `SemantixError`, `load_data` and JSON parsing are file I/O and serde, so they are not modelled.
- `solve_forward` and the Dormand–Prince integrator, `NBody::system`, `animate_motion`, the rest of `src/main.rs` and the plotting code are not part of this model.
- `src/constants.rs` is not part of this model except `G_AU3_KG_DAY2` (`Mechanics.G`).
- `Body.label` is the field `name`, because `label` is a Dafny keyword.
- `get_derivatives` checks neither the sign of a mass nor whether two bodies coincide; in `f64` those inputs give infinities or NaN. The model leaves them outside its preconditions instead of returning error results.
