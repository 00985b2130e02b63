/**
 * The 4-component vector of vec4.h / vec4.cpp.
 *
 * A `vec4` has value semantics (copy constructor, assignment), so its value
 * is the datatype `Vec4`; its `const` members are functions on that value.
 * The members that change the receiver in place (`+=`, `-=`, `*=`, `/=`,
 * `norm()` and the writable `operator()`) are methods of the class
 * `Vec4Ref`, which owns the four-float buffer `data` of one vec4 object.
 * Every `float` is a `real`.
 */
module Vec {

  /** x, y, z, w: `data[0]` .. `data[3]` of a vec4. */
  datatype Vec4 = Vec4(x: real, y: real, z: real, w: real)

  /** The default constructor `vec4()`. */
  function Zero(): (v: Vec4)
    ensures forall i :: 0 <= i < 4 ==> At(v, i) == 0.0
  {
    Vec4(0.0, 0.0, 0.0, 0.0)
  }

  /** `v[index]` / `v(index)`: the index-th component; only indices below 4 exist. */
  function At(v: Vec4, index: nat): real
    requires index < 4
  {
    if index == 0 then v.x else if index == 1 then v.y else if index == 2 then v.z else v.w
  }

  /** The vector after `v[index] = value`. */
  function With(v: Vec4, index: nat, value: real): (r: Vec4)
    requires index < 4
    ensures At(r, index) == value
    ensures forall j :: 0 <= j < 4 && j != index ==> At(r, j) == At(v, j)
  {
    if index == 0 then v.(x := value)
    else if index == 1 then v.(y := value)
    else if index == 2 then v.(z := value)
    else v.(w := value)
  }

  /** `operator==`: componentwise comparison. */
  predicate Eq(v1: Vec4, v2: Vec4) {
    v1.x == v2.x && v1.y == v2.y && v1.z == v2.z && v1.w == v2.w
  }

  /** `operator!=`: some component differs. */
  predicate Ne(v1: Vec4, v2: Vec4) {
    v1.x != v2.x || v1.y != v2.y || v1.z != v2.z || v1.w != v2.w
  }

  /** `v1 + v2` */
  function Add(v1: Vec4, v2: Vec4): Vec4 {
    Vec4(v1.x + v2.x, v1.y + v2.y, v1.z + v2.z, v1.w + v2.w)
  }

  /** `v1 - v2` */
  function Sub(v1: Vec4, v2: Vec4): Vec4 {
    Vec4(v1.x - v2.x, v1.y - v2.y, v1.z - v2.z, v1.w - v2.w)
  }

  /** `v * c`, and the free `c * v`, which returns `v * c`: every component scaled. */
  function Scale(v: Vec4, c: real): Vec4 {
    Vec4(v.x * c, v.y * c, v.z * c, v.w * c)
  }

  /** `v / c`; a zero divisor would give IEEE infinities, which are not modelled. */
  function Div(v: Vec4, c: real): Vec4
    requires c != 0.0
  {
    Vec4(v.x / c, v.y / c, v.z / c, v.w / c)
  }

  /** `dot(v1, v2)`: the sum of the four componentwise products. */
  function Dot(v1: Vec4, v2: Vec4): real {
    v1.x * v2.x + v1.y * v2.y + v1.z * v2.z + v1.w * v2.w
  }

  /** `cross(v1, v2)`: the 3-D cross product of the xyz parts, with w = 0. */
  function Cross(v1: Vec4, v2: Vec4): (r: Vec4)
    ensures r.w == 0.0
  {
    Vec4(v1.y * v2.z - v1.z * v2.y,
         v1.z * v2.x - v1.x * v2.z,
         v1.x * v2.y - v1.y * v2.x,
         0.0)
  }

  /** `normalize()` given `len == length()`: the zero vector when the length is zero. */
  function Normalize(v: Vec4, len: real): Vec4 {
    if len == 0.0 then Zero() else Div(v, len)
  }

  /** The value `norm()` leaves in the receiver given `len == length()`: unchanged when the length is zero. */
  function Normed(v: Vec4, len: real): Vec4 {
    if len == 0.0 then v else Div(v, len)
  }

  // ---------------------------------------------------------------------
  // Properties of the value operations
  // ---------------------------------------------------------------------

  lemma EqIsEquality(v1: Vec4, v2: Vec4)
    ensures Eq(v1, v2) <==> v1 == v2
    ensures Ne(v1, v2) <==> !Eq(v1, v2)
  {
  }

  lemma AddSubCancel(v: Vec4, u: Vec4)
    ensures Sub(Add(v, u), u) == v
    ensures Add(v, u) == Add(u, v)
  {
  }

  lemma AddComponentwise(v: Vec4, u: Vec4, i: nat)
    requires i < 4
    ensures At(Add(v, u), i) == At(v, i) + At(u, i)
    ensures At(Sub(v, u), i) == At(v, i) - At(u, i)
  {
  }

  lemma DotSymmetric(v1: Vec4, v2: Vec4)
    ensures Dot(v1, v2) == Dot(v2, v1)
  {
  }

  lemma CrossAnticommutative(a: Vec4, b: Vec4)
    ensures Cross(a, b) == Scale(Cross(b, a), -1.0)
    ensures Cross(a, a) == Zero()
  {
  }

  /** The cross product is orthogonal to both of its arguments (w plays no part). */
  lemma CrossOrthogonal(a: Vec4, b: Vec4)
    ensures Dot(Cross(a, b), a) == 0.0
    ensures Dot(Cross(a, b), b) == 0.0
  {
    assert Dot(Cross(a, b), a)
        == (a.y * b.z - a.z * b.y) * a.x + (a.z * b.x - a.x * b.z) * a.y + (a.x * b.y - a.y * b.x) * a.z;
    assert Dot(Cross(a, b), b)
        == (a.y * b.z - a.z * b.y) * b.x + (a.z * b.x - a.x * b.z) * b.y + (a.x * b.y - a.y * b.x) * b.z;
  }

  /** Only the xyz parts matter: changing w does not change the cross product. */
  lemma CrossIgnoresW(a: Vec4, b: Vec4, aw: real, bw: real)
    ensures Cross(a.(w := aw), b.(w := bw)) == Cross(a, b)
  {
  }

  /**
   * `normalize()` of the zero vector is the zero vector and `norm()` leaves
   * it unchanged, whatever length is reported for it.
   */
  lemma NormalizeZero(len: real)
    ensures Normalize(Zero(), len) == Zero()
    ensures Normed(Zero(), len) == Zero()
  {
  }

  /**
   * For a non-zero length the two agree, and scaling the result back by the
   * length restores the vector.
   */
  lemma NormalizeScalesBack(v: Vec4, len: real)
    requires len != 0.0
    ensures Normalize(v, len) == Normed(v, len)
    ensures Scale(Normalize(v, len), len) == v
  {
    DivScalesBack(v, len);
  }

  /** Dividing by a non-zero c and scaling back by c restores the vector. */
  lemma DivScalesBack(v: Vec4, c: real)
    requires c != 0.0
    ensures Scale(Div(v, c), c) == v
  {
  }

  // ---------------------------------------------------------------------
  // A vec4 object, for the members that change the receiver in place
  // ---------------------------------------------------------------------

  class Vec4Ref {
    /** `float data[4]` */
    var data: array<real>

    ghost predicate Valid()
      reads this
    {
      data.Length == 4
    }

    /** The value the object currently holds. */
    function Value(): Vec4
      reads this, data
      requires Valid()
    {
      Vec4(data[0], data[1], data[2], data[3])
    }

    /** `vec4()`: the zero vector. */
    constructor ()
      ensures Valid() && fresh(data)
      ensures Value() == Zero()
    {
      data := new real[4](_ => 0.0);
    }

    /** `vec4(x, y, z, w)` */
    constructor FromComponents(x: real, y: real, z: real, w: real)
      ensures Valid() && fresh(data)
      ensures Value() == Vec4(x, y, z, w)
    {
      var a := new real[4];
      a[0], a[1], a[2], a[3] := x, y, z, w;
      data := a;
    }

    /** The writable, bound-checked `operator()(index)`: `v(index) = value`. */
    method Set(index: nat, value: real)
      requires Valid() && index < 4
      modifies data
      ensures Valid()
      ensures Value() == With(old(Value()), index, value)
    {
      data[index] := value;
    }

    /** `+=`: adds `v2` to the receiver. */
    method AddAssign(v2: Vec4)
      requires Valid()
      modifies data
      ensures Valid()
      ensures Value() == Add(old(Value()), v2)
    {
      data[0] := data[0] + v2.x;
      data[1] := data[1] + v2.y;
      data[2] := data[2] + v2.z;
      data[3] := data[3] + v2.w;
    }

    /** `-=` */
    method SubAssign(v2: Vec4)
      requires Valid()
      modifies data
      ensures Valid()
      ensures Value() == Sub(old(Value()), v2)
    {
      data[0] := data[0] - v2.x;
      data[1] := data[1] - v2.y;
      data[2] := data[2] - v2.z;
      data[3] := data[3] - v2.w;
    }

    /** `*= c` */
    method MulAssign(c: real)
      requires Valid()
      modifies data
      ensures Valid()
      ensures Value() == Scale(old(Value()), c)
    {
      data[0] := data[0] * c;
      data[1] := data[1] * c;
      data[2] := data[2] * c;
      data[3] := data[3] * c;
    }

    /** `/= c` */
    method DivAssign(c: real)
      requires Valid() && c != 0.0
      modifies data
      ensures Valid()
      ensures Value() == Div(old(Value()), c)
    {
      data[0] := data[0] / c;
      data[1] := data[1] / c;
      data[2] := data[2] / c;
      data[3] := data[3] / c;
    }

    /**
     * `norm()`: divides the receiver by its length, unless that is zero.
     * The sqrt-based `length()` is the parameter `length`.
     */
    method Norm(length: Vec4 -> real)
      requires Valid()
      modifies data
      ensures Valid()
      ensures Value() == Normed(old(Value()), length(old(Value())))
    {
      var len := length(Value());
      if len == 0.0 {
        return;
      }
      DivAssign(len);
    }
  }
}
