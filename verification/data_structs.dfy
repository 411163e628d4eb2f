/**
 * The records of src/data_structs.rs: a body as read from the system
 * description, the system as a list of bodies, and the two projections the
 * program takes of it — one vector field (positions or velocities) per body,
 * and one mass per body.
 */
module DataStructs {
  import opened Vectors
  import opened Results
  import opened Utils

  /** Rust's `u8`. */
  newtype U8 = x: int | 0 <= x < 256

  /** One body of the system: identity, label (`name`, since `label` is a Dafny keyword), mass, position, velocity and colour. */
  datatype Body = Body(id: U8, name: string, mass: real, pos: seq<real>, vel: seq<real>, objCol: real)

  /** The whole system, in the order of the description. */
  datatype Data = Data(systemVec: seq<Body>)

  /**
   * Why a field projection panics: a field name other than "pos" or "vel",
   * or a list with fewer than three values where a 3-vector is built.
   */
  datatype FieldError = UnexpectedFieldType | TooFewComponents

  /** `Vector3::from_vec`: the first three values; fewer than three panics. */
  function FromVec(s: seq<real>): (res: Result<Vec3, FieldError>)
    ensures res.Ok? <==> |s| >= 3
    ensures res.Ok? ==> forall k :: 0 <= k < 3 ==> res.value.Comp(k) == s[k]
  {
    if |s| >= 3 then Ok(Vec3(s[0], s[1], s[2])) else Err(TooFewComponents)
  }

  /**
   * The closure `get_field_mat` maps over the bodies: the field named, as a
   * vector. Only "pos" and "vel" are fields; either needs three values.
   */
  function FieldOf(b: Body, field: string): (res: Result<Vec3, FieldError>)
    ensures res.Ok? <==> (field == "pos" && |b.pos| >= 3) || (field == "vel" && |b.vel| >= 3)
    ensures field != "pos" && field != "vel" ==> res == Err(UnexpectedFieldType)
    ensures (field == "pos" && |b.pos| < 3) || (field == "vel" && |b.vel| < 3) ==> res == Err(TooFewComponents)
    ensures res.Ok? && field == "pos" ==> forall k :: 0 <= k < 3 ==> res.value.Comp(k) == b.pos[k]
    ensures res.Ok? && field == "vel" ==> forall k :: 0 <= k < 3 ==> res.value.Comp(k) == b.vel[k]
  {
    if field == "pos" then FromVec(b.pos)
    else if field == "vel" then FromVec(b.vel)
    else Err(UnexpectedFieldType)
  }

  /**
   * `Data::get_field_mat`: the named field of every body, in order. The map
   * is evaluated body by body, so the panic comes from the first body whose
   * field cannot be built, and a system with no bodies gives the empty list
   * whatever the field name.
   */
  function GetFieldMat(d: Data, field: string): (res: Result<seq<Vec3>, FieldError>)
    ensures res.Ok? <==> forall i :: 0 <= i < |d.systemVec| ==> FieldOf(d.systemVec[i], field).Ok?
    ensures res.Ok? ==> |res.value| == |d.systemVec|
    ensures res.Ok? ==> forall i :: 0 <= i < |d.systemVec| ==> res.value[i] == FieldOf(d.systemVec[i], field).value
    ensures res.Err? ==> exists i :: 0 <= i < |d.systemVec| && FieldOf(d.systemVec[i], field) == Err(res.error)
                                   && forall j :: 0 <= j < i ==> FieldOf(d.systemVec[j], field).Ok?
    decreases |d.systemVec|
  {
    if d.systemVec == [] then Ok([])
    else
      var first := FieldOf(d.systemVec[0], field);
      var rest := GetFieldMat(Data(d.systemVec[1..]), field);
      assert forall i :: 1 <= i < |d.systemVec| ==> d.systemVec[i] == d.systemVec[1..][i - 1];
      if first.Err? then Err(first.error)
      else if rest.Err? then
        assert FieldOf(d.systemVec[1..][0], field).Ok? ==> rest.Err?;
        Err(rest.error)
      else Ok([first.value] + rest.value)
  }

  /** `Data::get_field_mass`: the mass of every body, in order. */
  function GetFieldMass(d: Data): (masses: seq<real>)
    ensures |masses| == |d.systemVec|
    ensures forall i :: 0 <= i < |d.systemVec| ==> masses[i] == d.systemVec[i].mass
    decreases |d.systemVec|
  {
    if d.systemVec == [] then []
    else [d.systemVec[0].mass] + GetFieldMass(Data(d.systemVec[1..]))
  }

  /** A field name other than "pos" or "vel" panics as soon as there is a body. */
  lemma UnknownField(d: Data, field: string)
    requires field != "pos" && field != "vel" && |d.systemVec| > 0
    ensures GetFieldMat(d, field) == Err(UnexpectedFieldType)
  {
    assert FieldOf(d.systemVec[0], field).Err?;
  }

  /** Bodies whose position and velocity lists hold at least three values each. */
  ghost predicate WellFormed(d: Data)
  {
    forall i :: 0 <= i < |d.systemVec| ==> |d.systemVec[i].pos| >= 3 && |d.systemVec[i].vel| >= 3
  }

  /**
   * Component k of body i's position (velocity) vector is value k of its
   * `pos` (`vel`) list.
   */
  lemma FieldComponents(d: Data, i: nat, k: nat)
    requires WellFormed(d) && i < |d.systemVec| && k < 3
    ensures GetFieldMat(d, "pos").Ok? && GetFieldMat(d, "vel").Ok?
    ensures GetFieldMat(d, "pos").value[i].Comp(k) == d.systemVec[i].pos[k]
    ensures GetFieldMat(d, "vel").value[i].Comp(k) == d.systemVec[i].vel[k]
  {
    assert forall j :: 0 <= j < |d.systemVec| ==> FieldOf(d.systemVec[j], "pos").Ok?;
    assert forall j :: 0 <= j < |d.systemVec| ==> FieldOf(d.systemVec[j], "vel").Ok?;
  }

  /** A position list too short for a vector makes the projection fail. */
  lemma ShortFieldFails(d: Data, i: nat)
    requires i < |d.systemVec| && |d.systemVec[i].pos| < 3
    ensures GetFieldMat(d, "pos").Err?
  {
    assert FieldOf(d.systemVec[i], "pos").Err?;
  }

  /**
   * The start of the program: with n the number of bodies, the positions and
   * velocities of a well-formed system encode into an initial state of 6n
   * values which decodes back into the same vectors, and there is one mass
   * per body.
   */
  lemma InitialState(d: Data)
    requires WellFormed(d)
    ensures var n := |d.systemVec|;
            && GetFieldMat(d, "pos").Ok? && GetFieldMat(d, "vel").Ok?
            && VecsToY(GetFieldMat(d, "pos").value, GetFieldMat(d, "vel").value, n).Ok?
            && |VecsToY(GetFieldMat(d, "pos").value, GetFieldMat(d, "vel").value, n).value| == 6 * n
            && YToVecs(VecsToY(GetFieldMat(d, "pos").value, GetFieldMat(d, "vel").value, n).value, n)
               == Ok((GetFieldMat(d, "pos").value, GetFieldMat(d, "vel").value))
            && |GetFieldMass(d)| == n
  {
    var n := |d.systemVec|;
    if n > 0 {
      FieldComponents(d, 0, 0);
    } else {
      assert GetFieldMat(d, "pos") == Ok([]) && GetFieldMat(d, "vel") == Ok([]);
    }
    DecodeEncode(GetFieldMat(d, "pos").value, GetFieldMat(d, "vel").value, n);
  }
}
