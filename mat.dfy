/**
 * The column-major 4x4 matrix of mat4.h / mat4.cpp.
 *
 * A `mat4` is four `vec4` columns: `m[c]` is column c and `m[c][r]` the
 * entry in column c, row r. Like `vec4` it has value semantics, so its
 * value is the datatype `Mat4` and its `const` members, static builders and
 * free operators are functions; the compound assignments that rewrite the
 * receiver's `data` in place are methods of the class `Mat4Ref`.
 */
module Mat {
  import opened Vec

  /** `vec4 data[4]`: the four columns. */
  datatype Mat4 = Mat4(c0: Vec4, c1: Vec4, c2: Vec4, c3: Vec4)

  /** `m[index]` / `m(index)`: column `index`; only indices below 4 exist. */
  function Col(m: Mat4, index: nat): Vec4
    requires index < 4
  {
    if index == 0 then m.c0 else if index == 1 then m.c1 else if index == 2 then m.c2 else m.c3
  }

  /** `m[c][r]`: the entry in column c, row r. */
  function At(m: Mat4, c: nat, r: nat): real
    requires c < 4 && r < 4
  {
    Vec.At(Col(m, c), r)
  }

  /** Row r, read across the four columns. */
  function Row(m: Mat4, r: nat): Vec4
    requires r < 4
  {
    Vec4(At(m, 0, r), At(m, 1, r), At(m, 2, r), At(m, 3, r))
  }

  /** The matrix after `m[c][r] = value`. */
  function WithAt(m: Mat4, c: nat, r: nat, value: real): (res: Mat4)
    requires c < 4 && r < 4
    ensures At(res, c, r) == value
    ensures forall c', r' :: 0 <= c' < 4 && 0 <= r' < 4 && (c', r') != (c, r) ==> At(res, c', r') == At(m, c', r')
  {
    var col := With(Col(m, c), r, value);
    if c == 0 then m.(c0 := col)
    else if c == 1 then m.(c1 := col)
    else if c == 2 then m.(c2 := col)
    else m.(c3 := col)
  }

  // ---------------------------------------------------------------------
  // Constructors and static builders
  // ---------------------------------------------------------------------

  /** `mat4()`: the identity. */
  function Identity(): (m: Mat4)
    ensures forall c, r :: 0 <= c < 4 && 0 <= r < 4 ==> At(m, c, r) == if c == r then 1.0 else 0.0
  {
    Mat4(Vec4(1.0, 0.0, 0.0, 0.0), Vec4(0.0, 1.0, 0.0, 0.0),
         Vec4(0.0, 0.0, 1.0, 0.0), Vec4(0.0, 0.0, 0.0, 1.0))
  }

  /** `mat4(diag)`: `diag` on the diagonal, 0 everywhere else. */
  function Diag(diag: real): (m: Mat4)
    ensures forall c, r :: 0 <= c < 4 && 0 <= r < 4 ==> At(m, c, r) == if c == r then diag else 0.0
  {
    Mat4(Vec4(diag, 0.0, 0.0, 0.0), Vec4(0.0, diag, 0.0, 0.0),
         Vec4(0.0, 0.0, diag, 0.0), Vec4(0.0, 0.0, 0.0, diag))
  }

  /** `mat4(col0, col1, col2, col3)`: the arguments become the columns. */
  function FromCols(col0: Vec4, col1: Vec4, col2: Vec4, col3: Vec4): (m: Mat4)
    ensures Col(m, 0) == col0 && Col(m, 1) == col1 && Col(m, 2) == col2 && Col(m, 3) == col3
  {
    Mat4(col0, col1, col2, col3)
  }

  /** `mat4::trans(x, y, z)`: the identity with the displacement in column 3. */
  function Trans(x: real, y: real, z: real): Mat4 {
    Mat4(Vec4(1.0, 0.0, 0.0, 0.0), Vec4(0.0, 1.0, 0.0, 0.0), Vec4(0.0, 0.0, 1.0, 0.0), Vec4(x, y, z, 1.0))
  }

  /** `mat4::scale(x, y, z)`: the identity with x, y, z on the first three diagonal cells. */
  function ScaleBy(x: real, y: real, z: real): Mat4 {
    Mat4(Vec4(x, 0.0, 0.0, 0.0), Vec4(0.0, y, 0.0, 0.0), Vec4(0.0, 0.0, z, 0.0), Vec4(0.0, 0.0, 0.0, 1.0))
  }

  /**
   * `mat4::proj(l, r, t, b, n, f)`: the off-axis perspective projection.
   * Equal planes would divide by zero (IEEE infinities are not modelled).
   */
  function Proj(l: real, r: real, t: real, b: real, n: real, f: real): Mat4
    requires r != l && t != b && f != n
  {
    Mat4(Vec4((2.0 * n) / (r - l), 0.0, 0.0, 0.0),
         Vec4(0.0, (2.0 * n) / (t - b), 0.0, 0.0),
         Vec4((r + l) / (r - l), (t + b) / (t - b), f / (f - n), 1.0),
         Vec4(0.0, 0.0, (-f * n) / (f - n), 0.0))
  }

  /**
   * The three builders are what their entry-by-entry writes `ret[c][r] = ...`
   * leave in a default (identity) `mat4`.
   */
  lemma BuildersAreElementWrites(x: real, y: real, z: real, l: real, r: real, t: real, b: real, n: real, f: real)
    ensures Trans(x, y, z) == WithAt(WithAt(WithAt(WithAt(Identity(), 3, 0, x), 3, 1, y), 3, 2, z), 3, 3, 1.0)
    ensures ScaleBy(x, y, z) == WithAt(WithAt(WithAt(WithAt(Identity(), 0, 0, x), 1, 1, y), 2, 2, z), 3, 3, 1.0)
    ensures r != l && t != b && f != n ==>
      Proj(l, r, t, b, n, f)
        == WithAt(WithAt(WithAt(WithAt(WithAt(WithAt(WithAt(WithAt(Identity(),
             0, 0, (2.0 * n) / (r - l)), 1, 1, (2.0 * n) / (t - b)), 2, 0, (r + l) / (r - l)),
             2, 1, (t + b) / (t - b)), 2, 2, f / (f - n)), 2, 3, 1.0), 3, 2, (-f * n) / (f - n)), 3, 3, 0.0)
  {
  }

  // ---------------------------------------------------------------------
  // Operators
  // ---------------------------------------------------------------------

  /** `operator==`: the four columns compare equal. */
  predicate Eq(m1: Mat4, m2: Mat4) {
    Vec.Eq(m1.c0, m2.c0) && Vec.Eq(m1.c1, m2.c1) && Vec.Eq(m1.c2, m2.c2) && Vec.Eq(m1.c3, m2.c3)
  }

  /** `operator!=`: some column compares unequal. */
  predicate Ne(m1: Mat4, m2: Mat4) {
    Vec.Ne(m1.c0, m2.c0) || Vec.Ne(m1.c1, m2.c1) || Vec.Ne(m1.c2, m2.c2) || Vec.Ne(m1.c3, m2.c3)
  }

  /** `m1 + m2`, column by column. */
  function Plus(m1: Mat4, m2: Mat4): Mat4 {
    Mat4(Add(m1.c0, m2.c0), Add(m1.c1, m2.c1), Add(m1.c2, m2.c2), Add(m1.c3, m2.c3))
  }

  /** `m1 - m2`, column by column. */
  function Minus(m1: Mat4, m2: Mat4): Mat4 {
    Mat4(Sub(m1.c0, m2.c0), Sub(m1.c1, m2.c1), Sub(m1.c2, m2.c2), Sub(m1.c3, m2.c3))
  }

  /** `m * c` (member) and `c * m` (free): every column scaled. */
  function Times(m: Mat4, c: real): Mat4 {
    Mat4(Scale(m.c0, c), Scale(m.c1, c), Scale(m.c2, c), Scale(m.c3, c))
  }

  /** `m / c`. */
  function Over(m: Mat4, c: real): Mat4
    requires c != 0.0
  {
    Mat4(Div(m.c0, c), Div(m.c1, c), Div(m.c2, c), Div(m.c3, c))
  }

  /** `m1 * m2`: entry (c, r) is row r of m1 against column c of m2. */
  function Mul(m1: Mat4, m2: Mat4): Mat4 {
    Mat4(MulVec(m1, m2.c0), MulVec(m1, m2.c1), MulVec(m1, m2.c2), MulVec(m1, m2.c3))
  }

  /** `m * v` with v a column vector: component r is row r of m against v. */
  function MulVec(m: Mat4, v: Vec4): Vec4 {
    Vec4(Dot(Row(m, 0), v), Dot(Row(m, 1), v), Dot(Row(m, 2), v), Dot(Row(m, 3), v))
  }

  /** `v * m` with v a row vector: component c is v against column c of m. */
  function VecMul(v: Vec4, m: Mat4): Vec4 {
    Vec4(Dot(v, m.c0), Dot(v, m.c1), Dot(v, m.c2), Dot(v, m.c3))
  }

  /** `m.transpose()`: the rows become the columns. */
  function Transpose(m: Mat4): Mat4 {
    Mat4(Row(m, 0), Row(m, 1), Row(m, 2), Row(m, 3))
  }

  // ---------------------------------------------------------------------
  // Properties
  // ---------------------------------------------------------------------

  lemma EqIsEquality(m1: Mat4, m2: Mat4)
    ensures Eq(m1, m2) <==> m1 == m2
    ensures Ne(m1, m2) <==> !Eq(m1, m2)
  {
  }

  lemma DiagOneIsIdentity()
    ensures Diag(1.0) == Identity()
  {
  }

  /** Entry (c, r) of the transpose is entry (r, c) of the matrix, and transposing twice gives the matrix back. */
  lemma TransposeSwaps(m: Mat4)
    ensures forall c, r :: 0 <= c < 4 && 0 <= r < 4 ==> At(Transpose(m), c, r) == At(m, r, c)
    ensures Transpose(Transpose(m)) == m
  {
  }

  /** Entry (c, r) of a product is row r of the left factor against column c of the right one. */
  lemma MulEntry(m1: Mat4, m2: Mat4, c: nat, r: nat)
    requires c < 4 && r < 4
    ensures At(Mul(m1, m2), c, r) == Dot(Row(m1, r), Col(m2, c))
  {
  }

  /** The identity is neutral on both sides of a product and for a column vector. */
  lemma IdentityNeutral(m: Mat4, v: Vec4)
    ensures Mul(Identity(), m) == m
    ensures Mul(m, Identity()) == m
    ensures MulVec(Identity(), v) == v
  {
  }

  /** `(m1 * m2) * v == m1 * (m2 * v)`: applying a product applies the right factor first. */
  lemma {:induction false} MulVecAssociative(m1: Mat4, m2: Mat4, v: Vec4)
    ensures MulVec(Mul(m1, m2), v) == MulVec(m1, MulVec(m2, v))
  {
    var p := Mul(m1, m2);
    var u := MulVec(m2, v);
    forall r | 0 <= r < 4
      ensures Dot(Row(p, r), v) == Dot(Row(m1, r), u)
    {
      RowOfProduct(m1, m2, r, v);
    }
    assert Dot(Row(p, 0), v) == Dot(Row(m1, 0), u);
    assert Dot(Row(p, 1), v) == Dot(Row(m1, 1), u);
    assert Dot(Row(p, 2), v) == Dot(Row(m1, 2), u);
    assert Dot(Row(p, 3), v) == Dot(Row(m1, 3), u);
  }

  /** Row r of m1 * m2 is row r of m1 times m2, so it meets v as row r of m1 meets m2 * v. */
  lemma RowOfProduct(m1: Mat4, m2: Mat4, r: nat, v: Vec4)
    requires r < 4
    ensures Dot(Row(Mul(m1, m2), r), v) == Dot(Row(m1, r), MulVec(m2, v))
  {
    RowIsVecMul(m1, m2, r);
    VecMulDot(Row(m1, r), m2, v);
  }

  /** Row r of m1 * m2 is row r of m1 multiplied, as a row vector, by m2. */
  lemma RowIsVecMul(m1: Mat4, m2: Mat4, r: nat)
    requires r < 4
    ensures Row(Mul(m1, m2), r) == VecMul(Row(m1, r), m2)
  {
  }

  /** `(a * m) . v == a . (m * v)` for a row vector a and a column vector v. */
  lemma VecMulDot(a: Vec4, m: Mat4, v: Vec4)
    ensures Dot(VecMul(a, m), v) == Dot(a, MulVec(m, v))
  {
    var s0, s1, s2, s3 := Scale(m.c0, v.x), Scale(m.c1, v.y), Scale(m.c2, v.z), Scale(m.c3, v.w);
    DotScaleRight(a, m.c0, v.x);
    DotScaleRight(a, m.c1, v.y);
    DotScaleRight(a, m.c2, v.z);
    DotScaleRight(a, m.c3, v.w);
    DotAddRight(a, s0, s1);
    DotAddRight(a, Add(s0, s1), s2);
    DotAddRight(a, Add(Add(s0, s1), s2), s3);
    MulVecIsColumnSum(m, v);
    assert Dot(VecMul(a, m), v) == Dot(a, m.c0) * v.x + Dot(a, m.c1) * v.y + Dot(a, m.c2) * v.z + Dot(a, m.c3) * v.w;
  }

  /** `m * v` is the sum of the columns of m weighted by the components of v. */
  lemma MulVecIsColumnSum(m: Mat4, v: Vec4)
    ensures MulVec(m, v) == Add(Add(Add(Scale(m.c0, v.x), Scale(m.c1, v.y)), Scale(m.c2, v.z)), Scale(m.c3, v.w))
  {
    assert Row(m, 0) == Vec4(m.c0.x, m.c1.x, m.c2.x, m.c3.x);
    assert Row(m, 1) == Vec4(m.c0.y, m.c1.y, m.c2.y, m.c3.y);
    assert Row(m, 2) == Vec4(m.c0.z, m.c1.z, m.c2.z, m.c3.z);
    assert Row(m, 3) == Vec4(m.c0.w, m.c1.w, m.c2.w, m.c3.w);
  }

  lemma DotScaleRight(a: Vec4, b: Vec4, s: real)
    ensures Dot(a, b) * s == Dot(a, Scale(b, s))
  {
    calc {
      Dot(a, b) * s;
      (a.x * b.x) * s + (a.y * b.y) * s + (a.z * b.z) * s + (a.w * b.w) * s;
      a.x * (b.x * s) + a.y * (b.y * s) + a.z * (b.z * s) + a.w * (b.w * s);
    }
  }

  lemma DotAddRight(a: Vec4, b: Vec4, c: Vec4)
    ensures Dot(a, b) + Dot(a, c) == Dot(a, Add(b, c))
  {
  }

  /** The row-vector product is the column-vector product with the transpose. */
  lemma VecMulIsTransposed(v: Vec4, m: Mat4)
    ensures VecMul(v, m) == MulVec(Transpose(m), v)
  {
  }

  /** `trans(x, y, z)` moves a point (w = 1) by (x, y, z) and leaves a direction (w = 0) alone. */
  lemma TransMoves(x: real, y: real, z: real, v: Vec4)
    ensures MulVec(Trans(x, y, z), v) == Vec4(v.x + x * v.w, v.y + y * v.w, v.z + z * v.w, v.w)
    ensures v.w == 1.0 ==> MulVec(Trans(x, y, z), v) == Add(v, Vec4(x, y, z, 0.0))
    ensures v.w == 0.0 ==> MulVec(Trans(x, y, z), v) == v
  {
    var m := Trans(x, y, z);
    assert Row(m, 0) == Vec4(1.0, 0.0, 0.0, x);
    assert Row(m, 1) == Vec4(0.0, 1.0, 0.0, y);
    assert Row(m, 2) == Vec4(0.0, 0.0, 1.0, z);
    assert Row(m, 3) == Vec4(0.0, 0.0, 0.0, 1.0);
  }

  /** `scale(x, y, z)` multiplies x, y and z componentwise and keeps w. */
  lemma ScaleByScales(x: real, y: real, z: real, v: Vec4)
    ensures MulVec(ScaleBy(x, y, z), v) == Vec4(v.x * x, v.y * y, v.z * z, v.w)
  {
    var m := ScaleBy(x, y, z);
    assert Row(m, 0) == Vec4(x, 0.0, 0.0, 0.0);
    assert Row(m, 1) == Vec4(0.0, y, 0.0, 0.0);
    assert Row(m, 2) == Vec4(0.0, 0.0, z, 0.0);
    assert Row(m, 3) == Vec4(0.0, 0.0, 0.0, 1.0);
  }

  /**
   * The projection copies the view-space z into w, and after the divide by
   * w a point on the near plane has depth 0 and one on the far plane depth 1.
   */
  lemma ProjDepth(l: real, r: real, t: real, b: real, n: real, f: real, v: Vec4)
    requires r != l && t != b && f != n
    ensures MulVec(Proj(l, r, t, b, n, f), v).w == v.z
    ensures v.w == 1.0 && v.z == n && n != 0.0 ==> MulVec(Proj(l, r, t, b, n, f), v).z / v.z == 0.0
    ensures v.w == 1.0 && v.z == f && f != 0.0 ==> MulVec(Proj(l, r, t, b, n, f), v).z / v.z == 1.0
  {
  }

  // ---------------------------------------------------------------------
  // A mat4 object, for the compound assignments
  // ---------------------------------------------------------------------

  class Mat4Ref {
    /** `vec4 data[4]`: the columns. */
    var data: array<Vec4>

    ghost predicate Valid()
      reads this
    {
      data.Length == 4
    }

    function Value(): Mat4
      reads this, data
      requires Valid()
    {
      Mat4(data[0], data[1], data[2], data[3])
    }

    /** `mat4()`: the identity. */
    constructor ()
      ensures Valid() && fresh(data)
      ensures Value() == Identity()
    {
      var a := new Vec4[4];
      a[0], a[1], a[2], a[3] := Identity().c0, Identity().c1, Identity().c2, Identity().c3;
      data := a;
    }

    /** The writable, bound-checked `operator()(index)`: `m(index) = col`. */
    method SetCol(index: nat, col: Vec4)
      requires Valid() && index < 4
      modifies data
      ensures Valid()
      ensures Col(Value(), index) == col
      ensures forall j :: 0 <= j < 4 && j != index ==> Col(Value(), j) == Col(old(Value()), j)
    {
      data[index] := col;
    }

    /** `+=`: adds m2 to the receiver, column by column. */
    method AddAssign(m2: Mat4)
      requires Valid()
      modifies data
      ensures Valid()
      ensures Value() == Plus(old(Value()), m2)
    {
      data[0] := Add(data[0], m2.c0);
      data[1] := Add(data[1], m2.c1);
      data[2] := Add(data[2], m2.c2);
      data[3] := Add(data[3], m2.c3);
    }

    /** `-=` */
    method SubAssign(m2: Mat4)
      requires Valid()
      modifies data
      ensures Valid()
      ensures Value() == Minus(old(Value()), m2)
    {
      data[0] := Sub(data[0], m2.c0);
      data[1] := Sub(data[1], m2.c1);
      data[2] := Sub(data[2], m2.c2);
      data[3] := Sub(data[3], m2.c3);
    }

    /** `*= c` */
    method MulAssign(c: real)
      requires Valid()
      modifies data
      ensures Valid()
      ensures Value() == Times(old(Value()), c)
    {
      data[0] := Scale(data[0], c);
      data[1] := Scale(data[1], c);
      data[2] := Scale(data[2], c);
      data[3] := Scale(data[3], c);
    }

    /** `/= c` */
    method DivAssign(c: real)
      requires Valid() && c != 0.0
      modifies data
      ensures Valid()
      ensures Value() == Over(old(Value()), c)
    {
      data[0] := Div(data[0], c);
      data[1] := Div(data[1], c);
      data[2] := Div(data[2], c);
      data[3] := Div(data[3], c);
    }
  }
}
