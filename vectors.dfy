/**
 * Three-component vectors (src/vec.cpp; the older vec.cpp is the same class
 * without the compound assignments). Components are reals.
 */
module Vectors {

  datatype Vec3 = Vec3(x: real, y: real, z: real)

  const Zero := Vec3(0.0, 0.0, 0.0)

  /** Sum of componentwise products; a vector dotted with itself is never negative. */
  function Dot(a: Vec3, b: Vec3): (r: real)
    ensures a == b ==> r >= 0.0
  {
    SquareNonNegative(a.x);
    SquareNonNegative(a.y);
    SquareNonNegative(a.z);
    a.x * b.x + a.y * b.y + a.z * b.z
  }

  lemma DotSymmetric(a: Vec3, b: Vec3)
    ensures Dot(a, b) == Dot(b, a)
  {
  }

  /** The cross product is orthogonal to both of its operands. */
  function Cross(a: Vec3, b: Vec3): (r: Vec3)
    ensures Dot(a, r) == 0.0 && Dot(b, r) == 0.0
  {
    Vec3(a.y * b.z - a.z * b.y,
         a.z * b.x - a.x * b.z,
         a.x * b.y - a.y * b.x)
  }

  lemma CrossAnticommutative(a: Vec3, b: Vec3)
    ensures Cross(b, a) == Negate(Cross(a, b))
  {
  }

  lemma SquareNonNegative(v: real)
    ensures v * v >= 0.0
  {
  }

  /** length_squared is the vector dotted with itself, and never negative. */
  function LengthSquared(a: Vec3): (r: real)
    ensures r == Dot(a, a)
    ensures r >= 0.0
  {
    Dot(a, a)
  }

  /** operator*(s): every component scaled by s. */
  function Scale(a: Vec3, s: real): (r: Vec3)
    ensures Dot(r, r) == s * s * Dot(a, a)
  {
    Vec3(a.x * s, a.y * s, a.z * s)
  }

  /** operator/(s) is operator*(1 / s); scaling the quotient back by s recovers the vector. */
  function Divide(a: Vec3, s: real): (r: Vec3)
    requires s != 0.0
    ensures Scale(r, s) == a
  {
    Scale(a, 1.0 / s)
  }

  /** operator+: componentwise sum. */
  function Add(a: Vec3, b: Vec3): Vec3
  {
    Vec3(a.x + b.x, a.y + b.y, a.z + b.z)
  }

  /** The dot product distributes over operator+, so the squared length of a sum expands as for numbers. */
  lemma AddSquaredLength(a: Vec3, b: Vec3)
    ensures Dot(Add(a, b), Add(a, b)) == Dot(a, a) + 2.0 * Dot(a, b) + Dot(b, b)
  {
  }

  /** Unary operator-: adding the negation gives the zero vector. */
  function Negate(a: Vec3): (r: Vec3)
    ensures Add(a, r) == Zero
  {
    Vec3(-a.x, -a.y, -a.z)
  }

  /** operator-(other) is operator+(-other); adding other back recovers the vector. */
  function Subtract(a: Vec3, b: Vec3): (r: Vec3)
    ensures Add(r, b) == a
  {
    Add(a, Negate(b))
  }

  lemma AddCommutative(a: Vec3, b: Vec3)
    ensures Add(a, b) == Add(b, a)
  {
  }

  /** Subtracting what was added gives the original vector back. */
  lemma SubtractUndoesAdd(a: Vec3, b: Vec3)
    ensures Subtract(Add(a, b), b) == a
  {
  }

  lemma NegateInvolutive(a: Vec3)
    ensures Negate(Negate(a)) == a
  {
  }

  /**
   * `Vec3 -= w` as written in src/vec.cpp calls `operator+=`, so it agrees
   * with `operator-` only when w is the zero vector.
   */
  lemma SubAssignAsWrittenDisagrees(v: Vec3, w: Vec3)
    ensures Add(v, w) == Subtract(v, w) <==> w == Zero
  {
    if Add(v, w) == Subtract(v, w) {
      assert v.x + w.x == v.x - w.x && v.y + w.y == v.y - w.y && v.z + w.z == v.z - w.z;
    }
  }

  /** A Vec3 object; the compound assignments update its `data` array in place. */
  class MutableVec3 {
    const data: array<real>

    ghost predicate Valid()
      reads this
    {
      data.Length == 3
    }

    /** The vector the array currently holds. */
    function Value(): Vec3
      requires Valid()
      reads this, data
    {
      Vec3(data[0], data[1], data[2])
    }

    constructor (v: Vec3)
      ensures Valid() && fresh(data)
      ensures Value() == v
    {
      data := new real[3][v.x, v.y, v.z];
    }

    /** operator*=: the same vector operator* would build. */
    method MulAssign(s: real)
      requires Valid()
      modifies data
      ensures Value() == Scale(old(Value()), s)
    {
      data[0] := data[0] * s;
      data[1] := data[1] * s;
      data[2] := data[2] * s;
    }

    /** operator/= is operator*=(1 / s). */
    method DivAssign(s: real)
      requires Valid() && s != 0.0
      modifies data
      ensures Value() == Divide(old(Value()), s)
    {
      MulAssign(1.0 / s);
    }

    /** operator+=: the same vector operator+ would build. */
    method AddAssign(other: Vec3)
      requires Valid()
      modifies data
      ensures Value() == Add(old(Value()), other)
    {
      data[0] := data[0] + other.x;
      data[1] := data[1] + other.y;
      data[2] := data[2] + other.z;
    }

    /** operator-= as written: it forwards to operator+=, so the vector grows by `other`. */
    method SubAssign(other: Vec3)
      requires Valid()
      modifies data
      ensures Value() == Add(old(Value()), other)
    {
      AddAssign(other);
    }

    /** operator-= as evidently intended: operator+=(-other), matching operator-. */
    method SubAssignCorrected(other: Vec3)
      requires Valid()
      modifies data
      ensures Value() == Subtract(old(Value()), other)
    {
      AddAssign(Negate(other));
    }
  }
}
