/** Three-component vectors with a NaN sentinel (include/vector.hpp). */
module Vectors {
  import opened Config

  /**
   * A displacement or direction. `NaNVector` is the value whose components are
   * all NaN, which is what a default-constructed Vector holds.
   */
  datatype Vector = Vector(x: real, y: real, z: real) | NaNVector

  const Zero: Vector := Vector(0.0, 0.0, 0.0)

  /** `Vector{}`: every component is NaN. */
  const DefaultVector: Vector := NaNVector

  /** valid: no component is NaN. */
  predicate Valid(v: Vector)
  {
    v.Vector?
  }

  lemma DefaultVectorInvalid()
    ensures !Valid(DefaultVector)
  {
  }

  /** equal: both operands valid and every component within the tolerance. */
  predicate Equal(u: Vector, v: Vector): (r: bool)
    ensures r ==> Valid(u) && Valid(v)
    ensures r ==> Abs(u.x - v.x) <= Epsilon && Abs(u.y - v.y) <= Epsilon && Abs(u.z - v.z) <= Epsilon
  {
    Valid(u) && Valid(v) && Cmp(u.x, v.x) && Cmp(u.y, v.y) && Cmp(u.z, v.z)
  }

  lemma EqualInvalid(u: Vector, v: Vector)
    requires !Valid(u) || !Valid(v)
    ensures !Equal(u, v)
  {
  }

  lemma EqualReflexive(v: Vector)
    requires Valid(v)
    ensures Equal(v, v)
  {
  }

  lemma EqualSymmetric(u: Vector, v: Vector)
    ensures Equal(u, v) <==> Equal(v, u)
  {
  }

  /** Componentwise helpers; NaN in an operand makes the result NaN. */
  function Add(u: Vector, v: Vector): Vector
  {
    if Valid(u) && Valid(v) then Vector(u.x + v.x, u.y + v.y, u.z + v.z) else NaNVector
  }

  function Sub(u: Vector, v: Vector): Vector
  {
    if Valid(u) && Valid(v) then Vector(u.x - v.x, u.y - v.y, u.z - v.z) else NaNVector
  }

  function Neg(v: Vector): Vector
  {
    if Valid(v) then Vector(-v.x, -v.y, -v.z) else NaNVector
  }

  function Scale(v: Vector, k: real): Vector
  {
    if Valid(v) then Vector(k * v.x, k * v.y, k * v.z) else NaNVector
  }

  /** dot: the standard inner product, defined on valid operands. */
  function Dot(u: Vector, v: Vector): real
    requires Valid(u) && Valid(v)
  {
    u.x * v.x + u.y * v.y + u.z * v.z
  }

  lemma DotSymmetric(u: Vector, v: Vector)
    requires Valid(u) && Valid(v)
    ensures Dot(u, v) == Dot(v, u)
  {
  }

  /** cross: the standard cross product; NaN in an operand makes it NaN. */
  function Cross(u: Vector, v: Vector): (r: Vector)
    ensures Valid(r) <==> Valid(u) && Valid(v)
  {
    if Valid(u) && Valid(v) then
      Vector(u.y * v.z - u.z * v.y, u.z * v.x - u.x * v.z, u.x * v.y - u.y * v.x)
    else
      NaNVector
  }

  lemma CrossAnticommutative(u: Vector, v: Vector)
    ensures Cross(u, v) == Neg(Cross(v, u))
  {
  }

  lemma CrossSelfZero(u: Vector)
    requires Valid(u)
    ensures Cross(u, u) == Zero
  {
  }

  lemma CrossWithZero(u: Vector)
    requires Valid(u)
    ensures Cross(u, Zero) == Zero && Cross(Zero, u) == Zero
  {
  }

  /** The cross product is orthogonal to both of its operands. */
  lemma CrossOrthogonal(u: Vector, v: Vector)
    requires Valid(u) && Valid(v)
    ensures Dot(Cross(u, v), u) == 0.0
    ensures Dot(Cross(u, v), v) == 0.0
  {
    var w := Cross(u, v);
    assert Dot(w, u) == (u.y * v.z - u.z * v.y) * u.x + (u.z * v.x - u.x * v.z) * u.y + (u.x * v.y - u.y * v.x) * u.z;
    assert Dot(w, v) == (u.y * v.z - u.z * v.y) * v.x + (u.z * v.x - u.x * v.z) * v.y + (u.x * v.y - u.y * v.x) * v.z;
  }

  /**
   * `len` stands for std::sqrt(x*x + y*y + z*z): the non-negative length of v.
   * The square root is a library call, so the model takes its value as an argument.
   */
  ghost predicate IsLength(v: Vector, len: real)
  {
    Valid(v) ==> len >= 0.0 && len * len == Dot(v, v)
  }

  /**
   * normalize: a vector whose length is within the tolerance of 0 is left as it is;
   * any other is divided by its length, which keeps its direction and makes it a unit vector.
   * NaN stays NaN.
   */
  function Normalize(v: Vector, len: real): (r: Vector)
    requires IsLength(v, len)
    ensures Valid(r) <==> Valid(v)
    ensures Valid(v) && Cmp(len, 0.0) ==> r == v
    ensures Valid(v) && !Cmp(len, 0.0) ==> len > 0.0 && r == Scale(v, 1.0 / len) && Dot(r, r) == 1.0
  {
    if !Valid(v) || Cmp(len, 0.0) then v
    else
      var r := Vector(v.x / len, v.y / len, v.z / len);
      assert len > 0.0;
      assert r.x * len == v.x && r.y * len == v.y && r.z * len == v.z;
      assert Dot(r, r) * (len * len) == Dot(v, v) by {
        assert Dot(r, r) * (len * len) == (r.x * len) * (r.x * len) + (r.y * len) * (r.y * len) + (r.z * len) * (r.z * len);
      }
      r
  }

  /** The zero vector normalises to itself, whatever length the square root reports. */
  lemma NormalizeZero(len: real)
    requires IsLength(Zero, len)
    ensures Normalize(Zero, len) == Zero
  {
  }
}
