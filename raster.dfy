/**
 * The CPU triangle rasteriser of rasterize.h / rasterize.cpp.
 *
 * `rasterize` renders a list of triangles (`face_t`) into a w x h image:
 * every face is projected with the camera's `proj * view`, mapped to pixel
 * coordinates, sorted by x and boxed; then, row by row, the span where the
 * row crosses the triangle is walked pixel by pixel, a depth is
 * interpolated from barycentric weights, and the pixel and its z-buffer
 * cell are written when the depth is nearer than the stored one.
 *
 * Every `float` and `double` is a `real`. Where the C++ would divide by
 * zero, convert an out-of-range value to `unsigned char`, or read outside a
 * `std::vector`, the model stops and reports it in a `Status` instead of
 * inventing a value.
 */
module Raster {
  import opened Vec
  import Mat
  import opened Ppm

  // ---------------------------------------------------------------------
  // within, lerp
  // ---------------------------------------------------------------------

  /** `within(y, c1, c2)`: y lies between c1 and c2, in either order. */
  predicate Within(y: real, c1: real, c2: real) {
    (c1 <= y && y <= c2) || (c2 <= y && y <= c1)
  }

  /** `within` does not care about the order of the ends and includes both of them. */
  lemma WithinSymmetric(y: real, c1: real, c2: real)
    ensures Within(y, c1, c2) <==> Within(y, c2, c1)
    ensures Within(c1, c1, c2) && Within(c2, c1, c2)
    ensures Within(y, c1, c2) <==> RMin(c1, c2) <= y <= RMax(c1, c2)
  {
  }

  /** `std::min` on two values: the first unless the second is smaller. */
  function RMin(a: real, b: real): real {
    if b < a then b else a
  }

  /** `std::max` on two values: the first unless the second is larger. */
  function RMax(a: real, b: real): real {
    if a < b then b else a
  }

  /** `lerp(a, b, alpha)` */
  function Lerp(a: real, b: real, alpha: real): real {
    a + alpha * (b - a)
  }

  /** `lerp` gives a at 0, b at 1, and stays between them in between. */
  lemma LerpEnds(a: real, b: real, alpha: real)
    ensures Lerp(a, b, 0.0) == a && Lerp(a, b, 1.0) == b
    ensures 0.0 <= alpha <= 1.0 ==> Within(Lerp(a, b, alpha), a, b)
  {
    if 0.0 <= alpha <= 1.0 {
      if a <= b {
        ProductOfNonNegatives(alpha, b - a);
        ProductOfNonNegatives(1.0 - alpha, b - a);
      } else {
        ProductOfNonNegatives(alpha, a - b);
        ProductOfNonNegatives(1.0 - alpha, a - b);
      }
    }
  }

  lemma ProductOfNonNegatives(x: real, y: real)
    requires x >= 0.0 && y >= 0.0
    ensures x * y >= 0.0
  {
  }

  // ---------------------------------------------------------------------
  // e_shader, face_t
  // ---------------------------------------------------------------------

  /** `e_shader`: NONE, WHITE, NORM_FLAT, NORM_GOURAUD, NORM_BARY, NORM_GOURAUD_Z, NORM_BARY_Z, RANDOM, TEXTURE. */
  datatype Shader = NoShading | White | NormFlat | NormGouraud | NormBary | NormGouraudZ | NormBaryZ | Random | Texture

  /** The value C gives each enumerator: its position, from 0. */
  function Ordinal(s: Shader): nat {
    match s
    case NoShading => 0
    case White => 1
    case NormFlat => 2
    case NormGouraud => 3
    case NormBary => 4
    case NormGouraudZ => 5
    case NormBaryZ => 6
    case Random => 7
    case Texture => 8
  }

  /** The enumerator with value n. */
  function FromOrdinal(n: nat): Shader
    requires n < 9
  {
    if n == 0 then NoShading else if n == 1 then White else if n == 2 then NormFlat
    else if n == 3 then NormGouraud else if n == 4 then NormBary else if n == 5 then NormGouraudZ
    else if n == 6 then NormBaryZ else if n == 7 then Random else Texture
  }

  /** There are exactly nine enumerators, valued 0 through 8. */
  lemma ExactlyNineShaders(s: Shader, n: nat)
    ensures Ordinal(s) < 9 && FromOrdinal(Ordinal(s)) == s
    ensures n < 9 ==> Ordinal(FromOrdinal(n)) == n
  {
  }

  /** `vec4 x[3]` */
  type Tri = s: seq<Vec4> | |s| == 3 witness [Vec4(0.0, 0.0, 0.0, 0.0), Vec4(0.0, 0.0, 0.0, 0.0), Vec4(0.0, 0.0, 0.0, 0.0)]

  /** `vec4 bounding_box[2]` */
  type Box = s: seq<Vec4> | |s| == 2 witness [Vec4(0.0, 0.0, 0.0, 0.0), Vec4(0.0, 0.0, 0.0, 0.0)]

  /**
   * `face_t`: three vertices, their pixel coordinates, the two corners of
   * the screen bounding box, the renderable flag, the colour and the three
   * vertex normals.
   */
  datatype Face = Face(vert: Tri, pixelCoord: Tri, boundingBox: Box, isRenderable: bool, color: Pixel, normals: Tri)

  /**
   * `face_t tmp` filled with the loaded vertices, normals and colour: the
   * other members keep their defaults, zero vectors and `is_renderable = true`.
   */
  function NewFace(vert: Tri, normals: Tri, color: Pixel): (f: Face)
    ensures f.isRenderable
    ensures f.vert == vert && f.normals == normals && f.color == color
    ensures forall k :: 0 <= k < 3 ==> f.pixelCoord[k] == Zero()
    ensures f.boundingBox[0] == Zero() && f.boundingBox[1] == Zero()
  {
    Face(vert, [Zero(), Zero(), Zero()], [Zero(), Zero()], true, color, normals)
  }

  // ---------------------------------------------------------------------
  // camera_mat_t and update_matrices
  // ---------------------------------------------------------------------

  /** `view_t`: the identity with -eye written into column 3. */
  function ViewTranslation(eyeX: real, eyeY: real, eyeZ: real): Mat.Mat4 {
    Mat.Mat4(Vec4(1.0, 0.0, 0.0, 0.0), Vec4(0.0, 1.0, 0.0, 0.0), Vec4(0.0, 0.0, 1.0, 0.0), Vec4(-eyeX, -eyeY, -eyeZ, 1.0))
  }

  /** `view_o`: the identity whose first three rows start with x_axis, up and forward. */
  function ViewBasis(xAxis: Vec4, up: Vec4, forward: Vec4): Mat.Mat4 {
    Mat.Mat4(Vec4(xAxis.x, up.x, forward.x, 0.0), Vec4(xAxis.y, up.y, forward.y, 0.0),
             Vec4(xAxis.z, up.z, forward.z, 0.0), Vec4(0.0, 0.0, 0.0, 1.0))
  }

  /**
   * The two matrices are what the element writes `view_t[3][r] = -eye` and
   * `view_o[c][r] = ...` leave in a default `mat4`; `view_t` is the
   * translation by -eye of mat4.cpp.
   */
  lemma ViewMatricesAreElementWrites(eyeX: real, eyeY: real, eyeZ: real, xAxis: Vec4, up: Vec4, forward: Vec4)
    ensures ViewTranslation(eyeX, eyeY, eyeZ)
         == Mat.WithAt(Mat.WithAt(Mat.WithAt(Mat.Identity(), 3, 0, -eyeX), 3, 1, -eyeY), 3, 2, -eyeZ)
    ensures ViewTranslation(eyeX, eyeY, eyeZ) == Mat.Trans(-eyeX, -eyeY, -eyeZ)
    ensures ViewBasis(xAxis, up, forward)
         == Mat.WithAt(Mat.WithAt(Mat.WithAt(Mat.WithAt(Mat.WithAt(Mat.WithAt(Mat.WithAt(Mat.WithAt(Mat.WithAt(
              Mat.Identity(), 0, 0, xAxis.x), 1, 0, xAxis.y), 2, 0, xAxis.z),
              0, 1, up.x), 1, 1, up.y), 2, 1, up.z),
              0, 2, forward.x), 1, 2, forward.y), 2, 2, forward.z)
  {
  }

  /** The direction from the eye to the centre, normalised by `norm()`. */
  function Forward(eye: Vec4, centre: Vec4, length: Vec4 -> real): Vec4 {
    var f := Vec4(centre.x - eye.x, centre.y - eye.y, centre.z - eye.z, 0.0);
    Normed(f, length(f))
  }

  /** The up vector with w = 0, normalised by `norm()`. */
  function UpAxis(up: Vec4, length: Vec4 -> real): Vec4 {
    var u := Vec4(up.x, up.y, up.z, 0.0);
    Normed(u, length(u))
  }

  /**
   * The view matrix `update_matrices` builds: `view_o * view_t`. Only the
   * x, y, z of eye, centre and up are read. `length` is the sqrt-based
   * `vec4::length`.
   */
  function ViewMatrix(eye: Vec4, centre: Vec4, up: Vec4, length: Vec4 -> real): Mat.Mat4 {
    var forward := Forward(eye, centre, length);
    var upAxis := UpAxis(up, length);
    Mat.Mul(ViewBasis(Cross(forward, upAxis), upAxis, forward), ViewTranslation(eye.x, eye.y, eye.z))
  }

  /** For any basis, `view_o * view_t` takes the eye point to the origin. */
  lemma {:induction false} BasisTimesTranslationFixesEye(xAxis: Vec4, up: Vec4, forward: Vec4, eye: Vec4)
    ensures Mat.MulVec(Mat.Mul(ViewBasis(xAxis, up, forward), ViewTranslation(eye.x, eye.y, eye.z)), Vec4(eye.x, eye.y, eye.z, 1.0))
         == Vec4(0.0, 0.0, 0.0, 1.0)
  {
    var p := Vec4(eye.x, eye.y, eye.z, 1.0);
    Mat.MulVecAssociative(ViewBasis(xAxis, up, forward), ViewTranslation(eye.x, eye.y, eye.z), p);
    TranslationMovesEye(eye);
    BasisFixesOrigin(xAxis, up, forward);
  }

  lemma TranslationMovesEye(eye: Vec4)
    ensures Mat.MulVec(ViewTranslation(eye.x, eye.y, eye.z), Vec4(eye.x, eye.y, eye.z, 1.0)) == Vec4(0.0, 0.0, 0.0, 1.0)
  {
  }

  lemma BasisFixesOrigin(xAxis: Vec4, up: Vec4, forward: Vec4)
    ensures Mat.MulVec(ViewBasis(xAxis, up, forward), Vec4(0.0, 0.0, 0.0, 1.0)) == Vec4(0.0, 0.0, 0.0, 1.0)
  {
  }

  /** For any basis, `view_o * view_t` takes a direction to its components along the three axes. */
  lemma {:induction false} BasisTimesTranslationRotates(xAxis: Vec4, up: Vec4, forward: Vec4, eye: Vec4, d: Vec4)
    requires d.w == 0.0
    ensures Mat.MulVec(Mat.Mul(ViewBasis(xAxis, up, forward), ViewTranslation(eye.x, eye.y, eye.z)), d)
         == Vec4(Dot(xAxis.(w := 0.0), d), Dot(up.(w := 0.0), d), Dot(forward.(w := 0.0), d), 0.0)
  {
    Mat.MulVecAssociative(ViewBasis(xAxis, up, forward), ViewTranslation(eye.x, eye.y, eye.z), d);
    TranslationFixesDirection(eye, d);
    BasisRotates(xAxis, up, forward, d);
  }

  lemma TranslationFixesDirection(eye: Vec4, d: Vec4)
    requires d.w == 0.0
    ensures Mat.MulVec(ViewTranslation(eye.x, eye.y, eye.z), d) == d
  {
    var m := ViewTranslation(eye.x, eye.y, eye.z);
    assert Mat.Row(m, 0) == Vec4(1.0, 0.0, 0.0, -eye.x);
    assert Mat.Row(m, 1) == Vec4(0.0, 1.0, 0.0, -eye.y);
    assert Mat.Row(m, 2) == Vec4(0.0, 0.0, 1.0, -eye.z);
    assert Mat.Row(m, 3) == Vec4(0.0, 0.0, 0.0, 1.0);
  }

  lemma BasisRotates(xAxis: Vec4, up: Vec4, forward: Vec4, d: Vec4)
    requires d.w == 0.0
    ensures Mat.MulVec(ViewBasis(xAxis, up, forward), d)
         == Vec4(Dot(xAxis.(w := 0.0), d), Dot(up.(w := 0.0), d), Dot(forward.(w := 0.0), d), 0.0)
  {
    var m := ViewBasis(xAxis, up, forward);
    assert Mat.Row(m, 0) == xAxis.(w := 0.0);
    assert Mat.Row(m, 1) == up.(w := 0.0);
    assert Mat.Row(m, 2) == forward.(w := 0.0);
    assert Mat.Row(m, 3) == Vec4(0.0, 0.0, 0.0, 1.0);
  }

  /** The view matrix takes the eye point to the origin. */
  lemma ViewMapsEyeToOrigin(eye: Vec4, centre: Vec4, up: Vec4, length: Vec4 -> real)
    ensures Mat.MulVec(ViewMatrix(eye, centre, up, length), Vec4(eye.x, eye.y, eye.z, 1.0)) == Vec4(0.0, 0.0, 0.0, 1.0)
  {
    var forward := Forward(eye, centre, length);
    var upAxis := UpAxis(up, length);
    BasisTimesTranslationFixesEye(Cross(forward, upAxis), upAxis, forward, eye);
  }

  /**
   * A direction (w = 0) is not moved by the eye; it comes out as its
   * components along x_axis, up and forward, all three of which have w = 0.
   */
  lemma ViewRotatesDirections(eye: Vec4, centre: Vec4, up: Vec4, length: Vec4 -> real, d: Vec4)
    requires d.w == 0.0
    ensures var forward := Forward(eye, centre, length);
      var upAxis := UpAxis(up, length);
      Mat.MulVec(ViewMatrix(eye, centre, up, length), d) == Vec4(Dot(Cross(forward, upAxis), d), Dot(upAxis, d), Dot(forward, d), 0.0)
  {
    var forward := Forward(eye, centre, length);
    var upAxis := UpAxis(up, length);
    assert forward.w == 0.0 && upAxis.w == 0.0;
    BasisTimesTranslationRotates(Cross(forward, upAxis), upAxis, forward, eye, d);
    assert Cross(forward, upAxis).(w := 0.0) == Cross(forward, upAxis);
    assert upAxis.(w := 0.0) == upAxis;
    assert forward.(w := 0.0) == forward;
  }

  /**
   * `camera_mat_t` as rasterize.cpp uses it: the frustum planes, the eye,
   * the centre it looks at, the up vector, and the two matrices.
   */
  class Camera {
    var left: real
    var right: real
    var bottom: real
    var top: real
    var near: real
    var far: real
    var eyeX: real
    var eyeY: real
    var eyeZ: real
    var cX: real
    var cY: real
    var cZ: real
    var upX: real
    var upY: real
    var upZ: real
    var proj: Mat.Mat4
    var view: Mat.Mat4

    /** A camera record with the given settings; its two matrices start as `mat4()`. */
    constructor (left: real, right: real, bottom: real, top: real, near: real, far: real, eye: Vec4, centre: Vec4, up: Vec4)
      ensures this.left == left && this.right == right && this.bottom == bottom && this.top == top
      ensures this.near == near && this.far == far
      ensures Eye() == Vec4(eye.x, eye.y, eye.z, 0.0) && Centre() == Vec4(centre.x, centre.y, centre.z, 0.0)
      ensures Up() == Vec4(up.x, up.y, up.z, 0.0)
      ensures proj == Mat.Identity() && view == Mat.Identity()
    {
      this.left, this.right, this.bottom, this.top, this.near, this.far := left, right, bottom, top, near, far;
      eyeX, eyeY, eyeZ := eye.x, eye.y, eye.z;
      cX, cY, cZ := centre.x, centre.y, centre.z;
      upX, upY, upZ := up.x, up.y, up.z;
      proj := Mat.Identity();
      view := Mat.Identity();
    }

    function Eye(): Vec4
      reads this`eyeX, this`eyeY, this`eyeZ
    {
      Vec4(eyeX, eyeY, eyeZ, 0.0)
    }

    function Centre(): Vec4
      reads this`cX, this`cY, this`cZ
    {
      Vec4(cX, cY, cZ, 0.0)
    }

    function Up(): Vec4
      reads this`upX, this`upY, this`upZ
    {
      Vec4(upX, upY, upZ, 0.0)
    }

    /** The frustum, eye, centre and up vector: every field but the two matrices. */
    ghost predicate SameSettings(left0: real, right0: real, bottom0: real, top0: real, near0: real, far0: real,
                                 eye0: Vec4, centre0: Vec4, up0: Vec4)
      reads this
    {
      left == left0 && right == right0 && bottom == bottom0 && top == top0 && near == near0 && far == far0 &&
      Eye() == eye0 && Centre() == centre0 && Up() == up0
    }

    /**
     * `update_matrices(cam)`: recomputes `proj` from the frustum planes and
     * `view` from eye, centre and up; nothing else changes. Equal opposite
     * planes would divide by zero and are excluded.
     */
    method UpdateMatrices(length: Vec4 -> real)
      requires right != left && top != bottom && far != near
      modifies this
      ensures SameSettings(old(left), old(right), old(bottom), old(top), old(near), old(far), old(Eye()), old(Centre()), old(Up()))
      ensures proj == Mat.Proj(left, right, top, bottom, near, far)
      ensures view == ViewMatrix(Eye(), Centre(), Up(), length)
    {
      UpdateProjection();
      UpdateView(length);
    }

    /** Line 86. */
    method UpdateProjection()
      requires right != left && top != bottom && far != near
      modifies this`proj
      ensures proj == Mat.Proj(left, right, top, bottom, near, far)
    {
      proj := Mat.Proj(left, right, top, bottom, near, far);
    }

    /** Lines 87-112: `view_t`, then the normalised axes into `view_o`, then their product. */
    method UpdateView(length: Vec4 -> real)
      modifies this`view
      ensures view == ViewMatrix(Eye(), Centre(), Up(), length)
    {
      var eye, centre, upDir := Eye(), Centre(), Up();
      var viewT := ViewTranslation(eye.x, eye.y, eye.z);
      var forward := Forward(eye, centre, length);
      var up := UpAxis(upDir, length);
      var xAxis := Cross(forward, up);
      var viewO := ViewBasis(xAxis, up, forward);
      view := Mat.Mul(viewO, viewT);
    }
  }

  // ---------------------------------------------------------------------
  // Triangle setup
  // ---------------------------------------------------------------------

  /** `proj * view * v`, evaluated left to right as C++ does. */
  function Clip(proj: Mat.Mat4, view: Mat.Mat4, v: Vec4): Vec4 {
    Mat.MulVec(Mat.Mul(proj, view), v)
  }

  /** No vertex of the face lands on clip w = 0, where the divide would give infinities. */
  predicate Projectable(proj: Mat.Mat4, view: Mat.Mat4, f: Face) {
    forall k :: 0 <= k < 3 ==> Clip(proj, view, f.vert[k]).w != 0.0
  }

  /** Lines 172-177: every vertex is transformed and then divided by its own w. */
  function Project(f: Face, proj: Mat.Mat4, view: Mat.Mat4): (g: Face)
    requires Projectable(proj, view, f)
    ensures forall k :: 0 <= k < 3 ==> g.vert[k].w == 1.0
    ensures forall k :: 0 <= k < 3 ==> Scale(g.vert[k], Clip(proj, view, f.vert[k]).w) == Clip(proj, view, f.vert[k])
    ensures g.pixelCoord == f.pixelCoord && g.normals == f.normals && g.isRenderable == f.isRenderable
    ensures g.color == f.color && g.boundingBox == f.boundingBox
  {
    var c0, c1, c2 := Clip(proj, view, f.vert[0]), Clip(proj, view, f.vert[1]), Clip(proj, view, f.vert[2]);
    assert c0.w != 0.0 && c1.w != 0.0 && c2.w != 0.0;
    PerspectiveDivide(c0);
    PerspectiveDivide(c1);
    PerspectiveDivide(c2);
    f.(vert := [Div(c0, c0.w), Div(c1, c1.w), Div(c2, c2.w)])
  }

  /** `n / 2` in C: integer division truncating toward zero. */
  function CHalf(n: int): int {
    if n >= 0 then n / 2 else -((-n) / 2)
  }

  /** Dividing a clip point by its own w gives w = 1, and scaling back by that w restores it. */
  lemma PerspectiveDivide(c: Vec4)
    requires c.w != 0.0
    ensures Div(c, c.w).w == 1.0
    ensures Scale(Div(c, c.w), c.w) == c
  {
    DivScalesBack(c, c.w);
  }

  /**
   * With the camera's `proj`, the divide of lines 172-177 is by the depth
   * the view matrix gives the vertex, and the near and far planes land on
   * depth 0 and 1.
   */
  lemma ProjectDividesByViewDepth(face: Face, view: Mat.Mat4, l: real, r: real, t: real, b: real, n: real, fa: real, k: nat)
    requires r != l && t != b && fa != n && k < 3
    requires Projectable(Mat.Proj(l, r, t, b, n, fa), view, face)
    ensures Mat.MulVec(view, face.vert[k]).z != 0.0
    ensures Project(face, Mat.Proj(l, r, t, b, n, fa), view).vert[k]
         == Div(Mat.MulVec(Mat.Proj(l, r, t, b, n, fa), Mat.MulVec(view, face.vert[k])), Mat.MulVec(view, face.vert[k]).z)
    ensures var p := Mat.MulVec(view, face.vert[k]);
      p.w == 1.0 && p.z == n ==> Project(face, Mat.Proj(l, r, t, b, n, fa), view).vert[k].z == 0.0
    ensures var p := Mat.MulVec(view, face.vert[k]);
      p.w == 1.0 && p.z == fa ==> Project(face, Mat.Proj(l, r, t, b, n, fa), view).vert[k].z == 1.0
  {
    var proj := Mat.Proj(l, r, t, b, n, fa);
    var p := Mat.MulVec(view, face.vert[k]);
    Mat.MulVecAssociative(proj, view, face.vert[k]);
    Mat.ProjDepth(l, r, t, b, n, fa, p);
    assert Clip(proj, view, face.vert[k]) == Mat.MulVec(proj, p);
    assert Clip(proj, view, face.vert[k]).w != 0.0;
  }

  /** The pixel coordinate of one projected vertex: `[(x + 1) * (w / 2), (1 - y) * (h / 2), 0, 0]`. */
  function ToPixel(v: Vec4, w: int, h: int): Vec4 {
    Vec4((v.x + 1.0) * CHalf(w) as real, (1.0 - v.y) * CHalf(h) as real, 0.0, 0.0)
  }

  /** Lines 179-184: the viewport mapping of the three vertices. */
  function Viewport(f: Face, w: int, h: int): Face {
    f.(pixelCoord := [ToPixel(f.vert[0], w, h), ToPixel(f.vert[1], w, h), ToPixel(f.vert[2], w, h)])
  }

  /** The viewport maps normalised x = -1 .. 1 to 0 .. w / 2 * 2 and y = 1 .. -1 to 0 .. h / 2 * 2. */
  lemma ViewportCorners(w: int, h: int, v: Vec4)
    ensures v.x == -1.0 ==> ToPixel(v, w, h).x == 0.0
    ensures v.x == 1.0 ==> ToPixel(v, w, h).x == (2 * CHalf(w)) as real
    ensures v.y == 1.0 ==> ToPixel(v, w, h).y == 0.0
    ensures v.y == -1.0 ==> ToPixel(v, w, h).y == (2 * CHalf(h)) as real
  {
  }

  /** All three vertices in front of the near plane, or all beyond the far one. */
  predicate DepthRejected(f: Face) {
    (f.vert[0].z < 0.0 && f.vert[1].z < 0.0 && f.vert[2].z < 0.0) ||
    (f.vert[0].z > 1.0 && f.vert[1].z > 1.0 && f.vert[2].z > 1.0)
  }

  /** Lines 185-188. */
  function RejectByDepth(f: Face): Face {
    if DepthRejected(f) then f.(isRenderable := false) else f
  }

  /** One `if (pixel_coord[a][0] > pixel_coord[b][0])` block with its three swaps. */
  function CompareSwap(f: Face, a: nat, b: nat, shading: Shader): Face
    requires a < 3 && b < 3 && a != b
  {
    if f.pixelCoord[a].x > f.pixelCoord[b].x then
      f.(pixelCoord := SwapIn(f.pixelCoord, a, b),
         vert := SwapIn(f.vert, a, b),
         normals := if shading != NormFlat then SwapIn(f.normals, a, b) else f.normals)
    else f
  }

  /** `std::swap(s[a], s[b])` */
  function SwapIn(s: Tri, a: nat, b: nat): (r: Tri)
    requires a < 3 && b < 3 && a != b
    ensures r[a] == s[b] && r[b] == s[a] && r[3 - a - b] == s[3 - a - b]
  {
    s[a := s[b]][b := s[a]]
  }

  /** Lines 189-203: the compare-and-swaps on (0, 1), (1, 2), (0, 1). */
  function SortByX(f: Face, shading: Shader): Face {
    CompareSwap(CompareSwap(CompareSwap(f, 0, 1, shading), 1, 2, shading), 0, 1, shading)
  }

  /** The (vertex, pixel coordinate) pairs of a face. */
  function Corners(f: Face): multiset<(Vec4, Vec4)> {
    multiset{(f.vert[0], f.pixelCoord[0]), (f.vert[1], f.pixelCoord[1]), (f.vert[2], f.pixelCoord[2])}
  }

  /** The (vertex, pixel coordinate, normal) triples of a face. */
  function CornersWithNormals(f: Face): multiset<(Vec4, Vec4, Vec4)> {
    multiset{(f.vert[0], f.pixelCoord[0], f.normals[0]),
             (f.vert[1], f.pixelCoord[1], f.normals[1]),
             (f.vert[2], f.pixelCoord[2], f.normals[2])}
  }

  predicate SortedByX(f: Face) {
    f.pixelCoord[0].x <= f.pixelCoord[1].x <= f.pixelCoord[2].x
  }

  /** One compare-and-swap puts its pair in order and changes nothing but the three triples. */
  lemma CompareSwapOrders(f: Face, a: nat, b: nat, shading: Shader)
    requires (a == 0 && b == 1) || (a == 1 && b == 2)
    ensures CompareSwap(f, a, b, shading).pixelCoord[a].x <= CompareSwap(f, a, b, shading).pixelCoord[b].x
    ensures CompareSwap(f, a, b, shading).pixelCoord[b].x >= f.pixelCoord[a].x
    ensures CompareSwap(f, a, b, shading).pixelCoord[b].x >= f.pixelCoord[b].x
    ensures CompareSwap(f, a, b, shading).pixelCoord[a] in {f.pixelCoord[a], f.pixelCoord[b]}
    ensures CompareSwap(f, a, b, shading).pixelCoord[3 - a - b] == f.pixelCoord[3 - a - b]
    ensures CompareSwap(f, a, b, shading).isRenderable == f.isRenderable
    ensures CompareSwap(f, a, b, shading).color == f.color
    ensures CompareSwap(f, a, b, shading).boundingBox == f.boundingBox
  {
  }

  /** One compare-and-swap of a neighbouring pair keeps the vertex/pixel pairs. */
  lemma CompareSwapKeepsCorners(f: Face, a: nat, b: nat, shading: Shader)
    requires (a == 0 && b == 1) || (a == 1 && b == 2)
    ensures Corners(CompareSwap(f, a, b, shading)) == Corners(f)
  {
    var g := CompareSwap(f, a, b, shading);
    if f.pixelCoord[a].x > f.pixelCoord[b].x {
      var t, u, v := (f.vert[0], f.pixelCoord[0]), (f.vert[1], f.pixelCoord[1]), (f.vert[2], f.pixelCoord[2]);
      if a == 0 {
        assert (g.vert[0], g.pixelCoord[0]) == u && (g.vert[1], g.pixelCoord[1]) == t && (g.vert[2], g.pixelCoord[2]) == v;
        SwapFirstTwo(t, u, v);
      } else {
        assert (g.vert[0], g.pixelCoord[0]) == t && (g.vert[1], g.pixelCoord[1]) == v && (g.vert[2], g.pixelCoord[2]) == u;
        SwapLastTwo(t, u, v);
      }
    }
  }

  /**
   * One compare-and-swap moves the normals along with their vertices,
   * except under NORM_FLAT, where it leaves them alone.
   */
  lemma CompareSwapMovesNormals(f: Face, a: nat, b: nat, shading: Shader)
    requires (a == 0 && b == 1) || (a == 1 && b == 2)
    ensures shading != NormFlat ==> CornersWithNormals(CompareSwap(f, a, b, shading)) == CornersWithNormals(f)
    ensures shading == NormFlat ==> CompareSwap(f, a, b, shading).normals == f.normals
  {
    var g := CompareSwap(f, a, b, shading);
    if f.pixelCoord[a].x > f.pixelCoord[b].x && shading != NormFlat {
      var t := (f.vert[0], f.pixelCoord[0], f.normals[0]);
      var u := (f.vert[1], f.pixelCoord[1], f.normals[1]);
      var v := (f.vert[2], f.pixelCoord[2], f.normals[2]);
      if a == 0 {
        assert (g.vert[0], g.pixelCoord[0], g.normals[0]) == u;
        assert (g.vert[1], g.pixelCoord[1], g.normals[1]) == t;
        assert (g.vert[2], g.pixelCoord[2], g.normals[2]) == v;
        SwapFirstTwo(t, u, v);
      } else {
        assert (g.vert[0], g.pixelCoord[0], g.normals[0]) == t;
        assert (g.vert[1], g.pixelCoord[1], g.normals[1]) == v;
        assert (g.vert[2], g.pixelCoord[2], g.normals[2]) == u;
        SwapLastTwo(t, u, v);
      }
    }
  }

  lemma SwapFirstTwo<T>(x: T, y: T, z: T)
    ensures multiset{y, x, z} == multiset{x, y, z}
  {
  }

  lemma SwapLastTwo<T>(x: T, y: T, z: T)
    ensures multiset{x, z, y} == multiset{x, y, z}
  {
  }

  /** After the three compare-and-swaps the pixel x-coordinates are non-decreasing. */
  lemma {:induction false} SortByXSorts(f: Face, shading: Shader)
    ensures SortedByX(SortByX(f, shading))
  {
    var f1 := CompareSwap(f, 0, 1, shading);
    var f2 := CompareSwap(f1, 1, 2, shading);
    CompareSwapOrders(f, 0, 1, shading);
    CompareSwapOrders(f1, 1, 2, shading);
    CompareSwapOrders(f2, 0, 1, shading);
  }

  /**
   * The three compare-and-swaps permute the corners, move the normals with
   * them unless the shading is NORM_FLAT, and touch nothing else.
   */
  lemma {:induction false} SortByXPermutes(f: Face, shading: Shader)
    ensures Corners(SortByX(f, shading)) == Corners(f)
    ensures shading != NormFlat ==> CornersWithNormals(SortByX(f, shading)) == CornersWithNormals(f)
    ensures shading == NormFlat ==> SortByX(f, shading).normals == f.normals
    ensures SortByX(f, shading).isRenderable == f.isRenderable && SortByX(f, shading).color == f.color
    ensures SortByX(f, shading).boundingBox == f.boundingBox
  {
    var f1 := CompareSwap(f, 0, 1, shading);
    var f2 := CompareSwap(f1, 1, 2, shading);
    CompareSwapOrders(f, 0, 1, shading);
    CompareSwapOrders(f1, 1, 2, shading);
    CompareSwapOrders(f2, 0, 1, shading);
    CompareSwapKeepsCorners(f, 0, 1, shading);
    CompareSwapKeepsCorners(f1, 1, 2, shading);
    CompareSwapKeepsCorners(f2, 0, 1, shading);
    CompareSwapMovesNormals(f, 0, 1, shading);
    CompareSwapMovesNormals(f1, 1, 2, shading);
    CompareSwapMovesNormals(f2, 0, 1, shading);
  }

  /** `min(a, min(b, c))` */
  function Least(a: real, b: real, c: real): real {
    RMin(a, RMin(b, c))
  }

  /** `max(a, max(b, c))` */
  function Greatest(a: real, b: real, c: real): real {
    RMax(a, RMax(b, c))
  }

  /** Lines 204-211: only x and y of the two corners are written. */
  function Bound(f: Face): Face {
    var p := f.pixelCoord;
    var lo := f.boundingBox[0].(x := Least(p[0].x, p[1].x, p[2].x), y := Least(p[0].y, p[1].y, p[2].y));
    var hi := f.boundingBox[1].(x := Greatest(p[0].x, p[1].x, p[2].x), y := Greatest(p[0].y, p[1].y, p[2].y));
    f.(boundingBox := [lo, hi])
  }

  /** The box corners are the componentwise extremes of the three pixel coordinates. */
  predicate Boxed(f: Face) {
    var p, bb := f.pixelCoord, f.boundingBox;
    (forall k :: 0 <= k < 3 ==> bb[0].x <= p[k].x <= bb[1].x && bb[0].y <= p[k].y <= bb[1].y) &&
    (exists k :: 0 <= k < 3 && bb[0].x == p[k].x) && (exists k :: 0 <= k < 3 && bb[1].x == p[k].x) &&
    (exists k :: 0 <= k < 3 && bb[0].y == p[k].y) && (exists k :: 0 <= k < 3 && bb[1].y == p[k].y)
  }

  /** The box holds all three pixel coordinates, and each of its sides touches one of them. */
  lemma BoundBoxes(f: Face)
    ensures Boxed(Bound(f))
    ensures Bound(f).pixelCoord == f.pixelCoord && Bound(f).isRenderable == f.isRenderable
  {
    var p := f.pixelCoord;
    var g := Bound(f);
    assert g.boundingBox[0].x == p[0].x || g.boundingBox[0].x == p[1].x || g.boundingBox[0].x == p[2].x;
    assert g.boundingBox[1].x == p[0].x || g.boundingBox[1].x == p[1].x || g.boundingBox[1].x == p[2].x;
    assert g.boundingBox[0].y == p[0].y || g.boundingBox[0].y == p[1].y || g.boundingBox[0].y == p[2].y;
    assert g.boundingBox[1].y == p[0].y || g.boundingBox[1].y == p[1].y || g.boundingBox[1].y == p[2].y;
  }

  /** The box lies wholly right of x = w, below y = h, left of x = 0 or above y = 0. */
  predicate OffScreen(f: Face, w: int, h: int) {
    f.boundingBox[0].x > w as real || f.boundingBox[0].y > h as real ||
    f.boundingBox[1].x < 0.0 || f.boundingBox[1].y < 0.0
  }

  /** Lines 212-215. */
  function RejectOffScreen(f: Face, w: int, h: int): Face {
    if OffScreen(f, w, h) then f.(isRenderable := false) else f
  }

  /** Lines 216-222: under RANDOM the face takes the colour drawn for it. */
  function Recolour(f: Face, shading: Shader, drawn: Pixel): Face {
    if shading == Random then f.(color := drawn) else f
  }

  /** The whole per-face setup of lines 171-223. `drawn` is the RANDOM colour for this face. */
  function SetupFace(f: Face, proj: Mat.Mat4, view: Mat.Mat4, w: int, h: int, shading: Shader, drawn: Pixel): Face
    requires Projectable(proj, view, f)
  {
    Finish(Viewport(Project(f, proj, view), w, h), w, h, shading, drawn)
  }

  /** Lines 185-222: everything after the viewport mapping. */
  function Finish(placed: Face, w: int, h: int, shading: Shader, drawn: Pixel): Face {
    Recolour(RejectOffScreen(Bound(SortByX(RejectByDepth(placed), shading)), w, h), shading, drawn)
  }

  /** The three pixel coordinates lie wholly right of x = w, below y = h, left of x = 0 or above y = 0. */
  predicate OutsideImage(p: Tri, w: int, h: int) {
    Least(p[0].x, p[1].x, p[2].x) > w as real || Least(p[0].y, p[1].y, p[2].y) > h as real ||
    Greatest(p[0].x, p[1].x, p[2].x) < 0.0 || Greatest(p[0].y, p[1].y, p[2].y) < 0.0
  }

  /** A compare-and-swap does not move the extremes of the pixel coordinates. */
  lemma CompareSwapKeepsExtremes(f: Face, a: nat, b: nat, shading: Shader, w: int, h: int)
    requires (a == 0 && b == 1) || (a == 1 && b == 2)
    ensures OutsideImage(CompareSwap(f, a, b, shading).pixelCoord, w, h) == OutsideImage(f.pixelCoord, w, h)
  {
  }

  /**
   * After the rest of setup the face is sorted by x and boxed, with the
   * vertex/pixel pairs it had after the viewport mapping.
   */
  lemma {:induction false} FinishSortsAndBoxes(placed: Face, w: int, h: int, shading: Shader, drawn: Pixel)
    ensures SortedByX(Finish(placed, w, h, shading, drawn))
    ensures Boxed(Finish(placed, w, h, shading, drawn))
    ensures Corners(Finish(placed, w, h, shading, drawn)) == Corners(placed)
  {
    var d := RejectByDepth(placed);
    SortByXSorts(d, shading);
    SortByXPermutes(d, shading);
    BoundBoxes(SortByX(d, shading));
  }

  /** The box `Bound` computes misses the image exactly when the pixel coordinates do. */
  lemma BoundOffScreen(f: Face, w: int, h: int)
    ensures OffScreen(Bound(f), w, h) == OutsideImage(f.pixelCoord, w, h)
  {
  }

  /** Sorting does not change whether the pixel coordinates miss the image. */
  lemma {:induction false} SortByXKeepsExtremes(f: Face, shading: Shader, w: int, h: int)
    ensures OutsideImage(SortByX(f, shading).pixelCoord, w, h) == OutsideImage(f.pixelCoord, w, h)
  {
    var f1 := CompareSwap(f, 0, 1, shading);
    var f2 := CompareSwap(f1, 1, 2, shading);
    CompareSwapKeepsExtremes(f, 0, 1, shading, w, h);
    CompareSwapKeepsExtremes(f1, 1, 2, shading, w, h);
    CompareSwapKeepsExtremes(f2, 0, 1, shading, w, h);
  }

  /**
   * The rest of setup clears `is_renderable` exactly when all three
   * vertices are outside the depth range or the triangle lies off the
   * image, and never sets it.
   */
  lemma {:induction false} FinishRenderable(placed: Face, w: int, h: int, shading: Shader, drawn: Pixel)
    ensures Finish(placed, w, h, shading, drawn).isRenderable
        <==> placed.isRenderable && !DepthRejected(placed) && !OutsideImage(placed.pixelCoord, w, h)
  {
    var d := RejectByDepth(placed);
    var s := SortByX(d, shading);
    var b := Bound(s);
    SortByXPermutes(d, shading);
    SortByXKeepsExtremes(d, shading, w, h);
    BoundOffScreen(s, w, h);
    assert d.isRenderable == (placed.isRenderable && !DepthRejected(placed));
    assert b.isRenderable == d.isRenderable;
    assert d.pixelCoord == placed.pixelCoord;
  }

  /** The rest of setup recolours the face only under RANDOM. */
  lemma FinishColour(placed: Face, w: int, h: int, shading: Shader, drawn: Pixel)
    ensures Finish(placed, w, h, shading, drawn).color == if shading == Random then drawn else placed.color
  {
    SortByXPermutes(RejectByDepth(placed), shading);
  }

  /**
   * Setup leaves every face sorted by x and boxed, with the vertex/pixel
   * pairs of its projected vertices; it clears `is_renderable` exactly when
   * the face lies wholly outside the depth range or off the image.
   */
  lemma SetupFaceProperties(f: Face, proj: Mat.Mat4, view: Mat.Mat4, w: int, h: int, shading: Shader, drawn: Pixel)
    requires Projectable(proj, view, f)
    ensures var placed := Viewport(Project(f, proj, view), w, h);
      var g := SetupFace(f, proj, view, w, h, shading, drawn);
      && SortedByX(g) && Boxed(g)
      && Corners(g) == Corners(placed)
      && (g.isRenderable <==> f.isRenderable && !DepthRejected(placed) && !OutsideImage(placed.pixelCoord, w, h))
      && g.color == (if shading == Random then drawn else f.color)
  {
    var placed := Viewport(Project(f, proj, view), w, h);
    FinishSortsAndBoxes(placed, w, h, shading, drawn);
    FinishRenderable(placed, w, h, shading, drawn);
    FinishColour(placed, w, h, shading, drawn);
  }

  // ---------------------------------------------------------------------
  // Where a row crosses a triangle
  // ---------------------------------------------------------------------

  /**
   * The x-coordinates the edge from `pa` to `pb` contributes for row y: the
   * `verticalX` given when both ends truncate to the same column, both
   * ends when they truncate to the same row, else the crossing of the line
   * through them.
   */
  function EdgeCrossing(pa: Vec4, pb: Vec4, y: real, verticalX: real): (xs: seq<real>)
    ensures 1 <= |xs| <= 2
  {
    if Trunc(pa.x) == Trunc(pb.x) then [verticalX]
    else if Trunc(pa.y) == Trunc(pb.y) then [pa.x, pb.x]
    else [SlopeCrossing(pa.x, pa.y, pb.x, pb.y, y)]
  }

  /** `m = (y1 - y0) / (x1 - x0)`, then `(y + m * x0 - y0) / m`. */
  function SlopeCrossing(x0: real, y0: real, x1: real, y1: real, y: real): real
    requires x1 != x0 && y1 != y0
  {
    var m := (y1 - y0) / (x1 - x0);
    assert m != 0.0 by { assert m * (x1 - x0) == y1 - y0; }
    (y + (m * x0) - y0) / m
  }

  /** (x, y) lies on the line through (x0, y0) and (x1, y1). */
  predicate OnLine(x0: real, y0: real, x1: real, y1: real, x: real, y: real) {
    (y - y0) * (x1 - x0) == (x - x0) * (y1 - y0)
  }

  /** In the general case the crossing lies on the line through the two ends, at height y. */
  lemma CrossingOnEdgeLine(pa: Vec4, pb: Vec4, y: real, verticalX: real)
    requires Trunc(pa.x) != Trunc(pb.x) && Trunc(pa.y) != Trunc(pb.y)
    ensures OnLine(pa.x, pa.y, pb.x, pb.y, EdgeCrossing(pa, pb, y, verticalX)[0], y)
  {
    var x0, y0, x1, y1 := pa.x, pa.y, pb.x, pb.y;
    assert x0 != x1 && y0 != y1;
    assert EdgeCrossing(pa, pb, y, verticalX) == [SlopeCrossing(x0, y0, x1, y1, y)];
    LineThroughTwoPoints(x0, y0, x1, y1, y);
  }

  /** The slope crossing lies on the line through (x0, y0) and (x1, y1), at height y. */
  lemma LineThroughTwoPoints(x0: real, y0: real, x1: real, y1: real, y: real)
    requires x1 != x0 && y1 != y0
    ensures OnLine(x0, y0, x1, y1, SlopeCrossing(x0, y0, x1, y1, y), y)
  {
    var dx, dy := x1 - x0, y1 - y0;
    var m := dy / dx;
    assert m * dx == dy;
    assert m != 0.0;
    var x := (y + (m * x0) - y0) / m;
    assert x * m == y + m * x0 - y0;
    assert (x - x0) * m == y - y0;
    calc {
      (x - x0) * dy;
      (x - x0) * (m * dx);
      ((x - x0) * m) * dx;
      (y - y0) * dx;
    }
  }

  /** `intersects` and `edge_intersects` for one row. */
  datatype Span = Span(xs: seq<real>, edges: seq<int>)

  /** Lines 237-289: the three edge tests, in order (0, 1), (1, 2), (0, 2). */
  function Crossings(p: Tri, y: real): Span {
    var s0 := if Within(y, p[0].y, p[1].y) then Span(EdgeCrossing(p[0], p[1], y, p[0].x), [0, 1]) else Span([], []);
    var s1 := if Within(y, p[1].y, p[2].y) then Span(EdgeCrossing(p[1], p[2], y, p[1].x), [1, 2]) else Span([], []);
    var s2 := if Within(y, p[0].y, p[2].y) then Span(EdgeCrossing(p[0], p[2], y, p[2].x), [0, 2]) else Span([], []);
    Span(s0.xs + s1.xs + s2.xs, s0.edges + s1.edges + s2.edges)
  }

  /**
   * Lines 291-295: order the first two crossings, swapping the edge pairs
   * with them. `None` when fewer crossings or edges exist than are read.
   */
  function OrderSpan(sp: Span): (r: Option<Span>)
    ensures r.None? <==> |sp.xs| < 2 || (sp.xs[0] > sp.xs[1] && |sp.edges| < 4)
    ensures r.Some? ==> |r.value.xs| >= 2 && r.value.xs[0] <= r.value.xs[1]
    ensures r.Some? ==> |r.value.xs| == |sp.xs| && |r.value.edges| == |sp.edges|
    ensures r.Some? ==> multiset(r.value.xs[..2]) == multiset(sp.xs[..2]) && r.value.xs[2..] == sp.xs[2..]
    ensures r.Some? && sp.xs[0] <= sp.xs[1] ==> r.value == sp
    ensures r.Some? && sp.xs[0] > sp.xs[1] ==>
      r.value.edges[..4] == sp.edges[2..4] + sp.edges[..2] && r.value.edges[4..] == sp.edges[4..]
  {
    if |sp.xs| < 2 then None
    else if sp.xs[0] > sp.xs[1] then
      if |sp.edges| < 4 then None
      else Some(Span(sp.xs[0 := sp.xs[1]][1 := sp.xs[0]],
                     sp.edges[0 := sp.edges[2]][2 := sp.edges[0]][1 := sp.edges[3]][3 := sp.edges[1]]))
    else Some(sp)
  }

  /**
   * A row strictly inside the vertical extent of the triangle crosses at
   * least two of its edges, so the two crossings and four edge indices the
   * code reads always exist.
   */
  lemma RowCrossesTwoEdges(p: Tri, y: real)
    requires Least(p[0].y, p[1].y, p[2].y) < y < Greatest(p[0].y, p[1].y, p[2].y)
    ensures |Crossings(p, y).xs| >= 2 && |Crossings(p, y).edges| >= 4
    ensures OrderSpan(Crossings(p, y)).Some?
  {
    var e01, e12, e02 := Within(y, p[0].y, p[1].y), Within(y, p[1].y, p[2].y), Within(y, p[0].y, p[2].y);
    assert (e01 && e12) || (e01 && e02) || (e12 && e02);
  }

  /**
   * For a face whose box setup computed, every row the scan visits (strictly
   * inside the box) has the crossings and edge pairs the code reads.
   */
  lemma BoxedRowCrosses(f: Face, y: real)
    requires Boxed(f) && f.boundingBox[0].y < y < f.boundingBox[1].y
    ensures |Crossings(f.pixelCoord, y).xs| >= 2 && |Crossings(f.pixelCoord, y).edges| >= 4
    ensures OrderSpan(Crossings(f.pixelCoord, y)).Some?
  {
    var p := f.pixelCoord;
    assert Least(p[0].y, p[1].y, p[2].y) < y;
    assert y < Greatest(p[0].y, p[1].y, p[2].y);
    RowCrossesTwoEdges(p, y);
  }

  // ---------------------------------------------------------------------
  // Barycentric weights and depth
  // ---------------------------------------------------------------------

  /** `(y2 - y3) * (x1 - x3) + (x3 - x2) * (y1 - y3)`: zero exactly for a degenerate triangle. */
  function Denominator(p: Tri): real {
    (p[1].y - p[2].y) * (p[0].x - p[2].x) + (p[2].x - p[1].x) * (p[0].y - p[2].y)
  }

  datatype Weights = Weights(l0: real, l1: real, l2: real)

  /** Lines 307-311: `l0`, `l1` and `l2 = 1 - l0 - l1` at (x, y). */
  function Barycentric(p: Tri, x: real, y: real): Weights
    requires Denominator(p) != 0.0
  {
    var x1, y1, x2, y2, x3, y3 := p[0].x, p[0].y, p[1].x, p[1].y, p[2].x, p[2].y;
    var d := Denominator(p);
    var l0 := ((y2 - y3) * (x - x3) + (x3 - x2) * (y - y3)) / d;
    var l1 := ((y3 - y1) * (x - x3) + (x1 - x3) * (y - y3)) / d;
    Weights(l0, l1, 1.0 - l0 - l1)
  }

  /** The weights always sum to 1. */
  lemma WeightsSumToOne(p: Tri, x: real, y: real)
    requires Denominator(p) != 0.0
    ensures Barycentric(p, x, y).l0 + Barycentric(p, x, y).l1 + Barycentric(p, x, y).l2 == 1.0
  {
  }

  /** At each vertex of a non-degenerate triangle the weights are 1 there and 0 elsewhere. */
  lemma WeightsAtVertices(p: Tri)
    requires Denominator(p) != 0.0
    ensures Barycentric(p, p[0].x, p[0].y) == Weights(1.0, 0.0, 0.0)
    ensures Barycentric(p, p[1].x, p[1].y) == Weights(0.0, 1.0, 0.0)
    ensures Barycentric(p, p[2].x, p[2].y) == Weights(0.0, 0.0, 1.0)
  {
    var x1, y1, x2, y2, x3, y3 := p[0].x, p[0].y, p[1].x, p[1].y, p[2].x, p[2].y;
    var d := Denominator(p);
    assert (y2 - y3) * (x1 - x3) + (x3 - x2) * (y1 - y3) == d;
    assert (y3 - y1) * (x1 - x3) + (x1 - x3) * (y1 - y3) == 0.0;
    assert (y2 - y3) * (x2 - x3) + (x3 - x2) * (y2 - y3) == 0.0;
    assert (y3 - y1) * (x2 - x3) + (x1 - x3) * (y2 - y3) == d;
  }

  /**
   * Lines 312-315: the perspective-correct depth `1 / sum(l_k / z_k)`.
   * `None` when a vertex depth or the sum is zero (a division by zero).
   */
  function Depth(f: Face, wt: Weights): Option<real> {
    var z0, z1, z2 := f.vert[0].z, f.vert[1].z, f.vert[2].z;
    if z0 == 0.0 || z1 == 0.0 || z2 == 0.0 then None
    else
      var inv := (1.0 / z0) * wt.l0 + (1.0 / z1) * wt.l1 + (1.0 / z2) * wt.l2;
      if inv == 0.0 then None else Some(1.0 / inv)
  }

  /** At a vertex the interpolated depth is that vertex's own depth. */
  lemma DepthAtVertices(f: Face)
    requires f.vert[0].z != 0.0 && f.vert[1].z != 0.0 && f.vert[2].z != 0.0
    ensures Depth(f, Weights(1.0, 0.0, 0.0)) == Some(f.vert[0].z)
    ensures Depth(f, Weights(0.0, 1.0, 0.0)) == Some(f.vert[1].z)
    ensures Depth(f, Weights(0.0, 0.0, 1.0)) == Some(f.vert[2].z)
  {
    Reciprocal(f.vert[0].z);
    Reciprocal(f.vert[1].z);
    Reciprocal(f.vert[2].z);
  }

  lemma Reciprocal(z: real)
    requires z != 0.0
    ensures 1.0 / z != 0.0 && 1.0 / (1.0 / z) == z
  {
    var q := 1.0 / z;
    assert q * z == 1.0;
  }

  // ---------------------------------------------------------------------
  // Colours
  // ---------------------------------------------------------------------

  const WhitePixel: Pixel := Pixel(255, 255, 255)

  /** What a fragment does to its pixel. */
  datatype Paint = Paint(colour: Pixel) | NoPaint | Undefined

  /** `(v + 1) * 127.5`: a normal component in -1 .. 1 mapped to 0 .. 255. */
  function Tone(v: real): real {
    (v + 1.0) * 127.5
  }

  /** Three `(unsigned char)` conversions; undefined if any of them is out of range. */
  function NarrowPixel(r: real, g: real, b: real): Paint {
    match (Narrow(r), Narrow(g), Narrow(b))
    case (Some(r8), Some(g8), Some(b8)) => Paint(Pixel(r8, g8, b8))
    case _ => Undefined
  }

  /**
   * Lines 317-458: the colour of a fragment with weights `wt` and depth
   * `depth`. The two Gouraud modes interpolate along the span with the
   * sqrt-based `dist2`; their colour is the parameter `gouraud`.
   */
  function Shade(shading: Shader, f: Face, view: Mat.Mat4, wt: Weights, depth: real, gouraud: Pixel): Paint {
    match shading
    case NoShading => Paint(f.color)
    case White => Paint(WhitePixel)
    case NormFlat =>
      var n := Mat.MulVec(view, f.normals[0]);
      NarrowPixel(Tone(n.x), Tone(n.y), Tone(n.z))
    case NormBary =>
      var n0, n1, n2 := Mat.MulVec(view, f.normals[0]), Mat.MulVec(view, f.normals[1]), Mat.MulVec(view, f.normals[2]);
      NarrowPixel(Tone(n0.x) * wt.l0 + Tone(n1.x) * wt.l1 + Tone(n2.x) * wt.l2,
                  Tone(n0.y) * wt.l0 + Tone(n1.y) * wt.l1 + Tone(n2.y) * wt.l2,
                  Tone(n0.z) * wt.l0 + Tone(n1.z) * wt.l1 + Tone(n2.z) * wt.l2)
    case NormBaryZ =>
      var n0, n1, n2 := Mat.MulVec(view, f.normals[0]), Mat.MulVec(view, f.normals[1]), Mat.MulVec(view, f.normals[2]);
      var z0, z1, z2 := f.vert[0].z, f.vert[1].z, f.vert[2].z;
      if z0 == 0.0 || z1 == 0.0 || z2 == 0.0 then Undefined
      else
        NarrowPixel(((Tone(n0.x) / z0) * wt.l0 + (Tone(n1.x) / z1) * wt.l1 + (Tone(n2.x) / z2) * wt.l2) * depth,
                    ((Tone(n0.y) / z0) * wt.l0 + (Tone(n1.y) / z1) * wt.l1 + (Tone(n2.y) / z2) * wt.l2) * depth,
                    ((Tone(n0.z) / z0) * wt.l0 + (Tone(n1.z) / z1) * wt.l1 + (Tone(n2.z) / z2) * wt.l2) * depth)
    case NormGouraud => Paint(gouraud)
    case NormGouraudZ => Paint(gouraud)
    case Random => Paint(f.color)
    case Texture => NoPaint
  }

  /** WHITE paints white, NONE and RANDOM paint the face colour, TEXTURE paints nothing. */
  lemma FixedColours(f: Face, view: Mat.Mat4, wt: Weights, depth: real, gouraud: Pixel)
    ensures Shade(White, f, view, wt, depth, gouraud) == Paint(WhitePixel)
    ensures Shade(NoShading, f, view, wt, depth, gouraud) == Paint(f.color)
    ensures Shade(Random, f, view, wt, depth, gouraud) == Paint(f.color)
    ensures Shade(Texture, f, view, wt, depth, gouraud) == NoPaint
  {
  }

  /** A unit normal component always gives a defined channel under NORM_FLAT. */
  lemma ToneOfUnitInRange(v: real)
    requires -1.0 <= v <= 1.0
    ensures Narrow(Tone(v)).Some?
  {
  }

  /** The pixels a shading mode can leave in the image besides the initial black. */
  ghost predicate MayPaint(shading: Shader, faces: seq<Face>, p: Pixel) {
    match shading
    case White => p == WhitePixel
    case NoShading => exists k :: 0 <= k < |faces| && faces[k].color == p
    case Random => exists k :: 0 <= k < |faces| && faces[k].color == p
    case Texture => false
    case _ => true
  }

  lemma PaintIsAllowed(shading: Shader, faces: seq<Face>, k: nat, view: Mat.Mat4, wt: Weights, depth: real, gouraud: Pixel)
    requires k < |faces|
    requires Shade(shading, faces[k], view, wt, depth, gouraud).Paint?
    ensures MayPaint(shading, faces, Shade(shading, faces[k], view, wt, depth, gouraud).colour)
  {
  }

  // ---------------------------------------------------------------------
  // The z-buffer cell
  // ---------------------------------------------------------------------

  /**
   * `z_buf[y * w + i]` with the float `y = row + 0.5`: the product is a
   * float, converted to an index by truncation.
   */
  function ZIndex(w: int, row: int, i: int): int {
    Trunc((row as real + 0.5) * w as real + i as real)
  }

  /** The cell used is `row * w + w / 2 + i`, not `row * w + i`. */
  lemma ZIndexValue(w: int, row: int, i: int)
    requires w >= 0 && row >= 0 && i >= 0
    ensures ZIndex(w, row, i) == row * w + w / 2 + i
  {
    var v := (row as real + 0.5) * w as real + i as real;
    assert w == 2 * (w / 2) + w % 2;
    assert v == (row * w + w / 2 + i) as real + (w % 2) as real * 0.5;
  }

  /** For every width of 2 or more the cell differs from the row-major one. */
  lemma ZIndexIsNotRowMajor(w: int, row: int, i: int)
    requires w >= 2 && row >= 0 && i >= 0
    ensures ZIndex(w, row, i) != Index(w, row, i)
  {
    ZIndexValue(w, row, i);
  }

  /** Column i + w of a row, which the `i > w` guard lets through for i = 0, shares its cell with column i of the next row. */
  lemma ZIndexWrapsIntoNextRow(w: int, row: int, i: int)
    requires w >= 0 && row >= 0 && i >= 0
    ensures ZIndex(w, row, i + w) == ZIndex(w, row + 1, i)
  {
    ZIndexValue(w, row, i + w);
    ZIndexValue(w, row + 1, i);
  }

  /** In the last row every column from w - w / 2 on falls past the w * h cells. */
  lemma ZIndexOverrunsLastRow(w: int, h: int, i: int)
    requires w >= 0 && h >= 1 && w - w / 2 <= i
    ensures ZIndex(w, h - 1, i) >= w * h
  {
    ZIndexValue(w, h - 1, i);
  }

  /** The smallest case: a 2 x 1 image, pixel (0, 1), indexes cell 2 of a 2-cell buffer. */
  lemma ZIndexOverrunExample()
    ensures ZIndex(2, 0, 1) == 2 == 2 * 1
  {
    ZIndexValue(2, 0, 1);
  }

  // ---------------------------------------------------------------------
  // The z-buffer and the image while rendering
  // ---------------------------------------------------------------------

  /** Lines 122-125: w * h cells (none if that is not positive), every one 2. */
  method InitZBuffer(w: int, h: int) returns (zbuf: array<real>)
    ensures fresh(zbuf)
    ensures zbuf.Length == if w * h > 0 then w * h else 0
    ensures forall k :: 0 <= k < zbuf.Length ==> zbuf[k] == 2.0
  {
    var n := if w * h > 0 then w * h else 0;
    zbuf := new real[n];
    var i := 0;
    while i < n
      invariant 0 <= i <= n
      invariant forall k :: 0 <= k < i ==> zbuf[k] == 2.0
    {
      zbuf[i] := 2.0;
      i := i + 1;
    }
  }

  /** Every cell either kept its value or was lowered to a depth in [0, 1]. */
  ghost predicate DepthsLowered(now: seq<real>, before: seq<real>) {
    |now| == |before| &&
    forall k :: 0 <= k < |now| ==> now[k] == before[k] || (0.0 <= now[k] <= 1.0 && now[k] < before[k])
  }

  /** Every pixel either kept its value or holds a colour the shading mode can paint. */
  ghost predicate PixelsPainted(now: seq<Pixel>, before: seq<Pixel>, shading: Shader, faces: seq<Face>) {
    |now| == |before| &&
    forall k :: 0 <= k < |now| ==> now[k] == before[k] || MayPaint(shading, faces, now[k])
  }

  lemma DepthsLoweredTransitive(a: seq<real>, b: seq<real>, c: seq<real>)
    requires DepthsLowered(b, a) && DepthsLowered(c, b)
    ensures DepthsLowered(c, a)
  {
  }

  lemma PixelsPaintedTransitive(a: seq<Pixel>, b: seq<Pixel>, c: seq<Pixel>, shading: Shader, faces: seq<Face>)
    requires PixelsPainted(b, a, shading, faces) && PixelsPainted(c, b, shading, faces)
    ensures PixelsPainted(c, a, shading, faces)
  {
  }

  /**
   * Starting from cells that are all 2, cells only ever go down, and every
   * cell is 2 or a depth in [0, 1].
   */
  lemma DepthsFromFreshBuffer(init: seq<real>, now: seq<real>)
    requires forall k :: 0 <= k < |init| ==> init[k] == 2.0
    requires DepthsLowered(now, init)
    ensures forall k :: 0 <= k < |now| ==> now[k] == 2.0 || 0.0 <= now[k] <= 1.0
    ensures forall k :: 0 <= k < |now| ==> now[k] <= 2.0
  {
  }

  /** Why rendering stopped. */
  datatype Status =
    | Done
      /** The z-buffer cell of pixel (row, col) lies past the w * h cells. */
    | Overrun(row: int, col: int)
      /**
       * A division by zero or an out-of-range `unsigned char` at (row, col),
       * or (col = -1) a span lacking the crossings or edge pairs the code reads.
       */
    | Unmodelled(row: int, col: int)

  /** The shared frame of the scan methods. */
  ghost predicate Canvas(out: Img, zbuf: array<real>, w: int, h: int)
    reads out
  {
    out.Valid() && out.w == w && out.h == h && zbuf.Length == w * h
  }

  /** Lines 305-315: the depth of pixel (row, i) of face f; `None` where the C++ divides by zero. */
  function FragmentDepth(f: Face, row: int, i: int): Option<real> {
    if Denominator(f.pixelCoord) == 0.0 then None
    else Depth(f, Barycentric(f.pixelCoord, i as real, row as real + 0.5))
  }

  /** Lines 317-458: what the shading switch does at pixel (row, i) of face f. */
  function FragmentPaint(shading: Shader, f: Face, view: Mat.Mat4, gouraud: (Face, int, int) -> Pixel, row: int, i: int): Paint {
    if Denominator(f.pixelCoord) == 0.0 then Undefined
    else
      var wt := Barycentric(f.pixelCoord, i as real, row as real + 0.5);
      match Depth(f, wt)
      case None => Undefined
      case Some(d) => Shade(shading, f, view, wt, d, gouraud(f, row, i))
  }

  /**
   * Line 316: the depth exists, its cell lies inside the buffer, and it is
   * nearer than what the cell holds and within [0, 1].
   */
  predicate DepthTestPasses(zbuf: seq<real>, f: Face, w: int, row: int, i: int) {
    var d := FragmentDepth(f, row, i);
    d.Some? && 0 <= ZIndex(w, row, i) < |zbuf| && d.value < zbuf[ZIndex(w, row, i)] && Within(d.value, 0.0, 1.0)
  }

  /** The image after `setPixel(i, row, p)` on a pixel inside it. */
  function WithPixel(s: seq<Pixel>, w: int, h: int, row: int, i: int, p: Pixel): (r: seq<Pixel>)
    requires |s| == w * h && 0 <= row < h && 0 <= i < w
    ensures |r| == |s|
  {
    IndexInRange(w, h, row, i);
    s[Index(w, row, i) := p]
  }

  /** The outcome of one pixel: why it stopped, and the z-buffer and image after it. */
  datatype Fragment = Fragment(status: Status, zbuf: seq<real>, pixels: seq<Pixel>)

  /**
   * Lines 305-459 for one pixel (row, i) of face f: the weights, the depth,
   * the z test, the colour, and the two writes. The z-buffer cell takes the
   * depth whatever the shading (TEXTURE included); the pixel takes the
   * colour, except at column w, which QImage ignores.
   */
  function FragmentStep(zbuf: seq<real>, pixels: seq<Pixel>, f: Face, view: Mat.Mat4, w: int, h: int,
                        shading: Shader, gouraud: (Face, int, int) -> Pixel, row: int, i: int): (r: Fragment)
    requires |pixels| == w * h && 0 <= row < h && 0 <= i <= w
    ensures |r.zbuf| == |zbuf| && |r.pixels| == |pixels|
  {
    match FragmentDepth(f, row, i)
    case None => Fragment(Unmodelled(row, i), zbuf, pixels)
    case Some(d) =>
      ZIndexValue(w, row, i);
      var cell := ZIndex(w, row, i);
      if cell >= |zbuf| then Fragment(Overrun(row, i), zbuf, pixels)
      else if !(d < zbuf[cell] && Within(d, 0.0, 1.0)) then Fragment(Done, zbuf, pixels)
      else match FragmentPaint(shading, f, view, gouraud, row, i)
        case Undefined => Fragment(Unmodelled(row, i), zbuf, pixels)
        case NoPaint => Fragment(Done, zbuf[cell := d], pixels)
        case Paint(c) => Fragment(Done, zbuf[cell := d], if i < w then WithPixel(pixels, w, h, row, i, c) else pixels)
  }

  /** The pixel overruns the z-buffer exactly when it has a depth and its cell lies past the end. */
  lemma FragmentOverrun(zbuf: seq<real>, pixels: seq<Pixel>, f: Face, view: Mat.Mat4, w: int, h: int,
                        shading: Shader, gouraud: (Face, int, int) -> Pixel, row: int, i: int)
    requires |pixels| == w * h && 0 <= row < h && 0 <= i <= w
    ensures FragmentStep(zbuf, pixels, f, view, w, h, shading, gouraud, row, i).status.Overrun?
        <==> FragmentDepth(f, row, i).Some? && ZIndex(w, row, i) >= |zbuf|
  {
    ZIndexValue(w, row, i);
  }

  /** When the z test fails, or nothing can be decided, neither buffer changes. */
  lemma FragmentRejected(zbuf: seq<real>, pixels: seq<Pixel>, f: Face, view: Mat.Mat4, w: int, h: int,
                         shading: Shader, gouraud: (Face, int, int) -> Pixel, row: int, i: int)
    requires |pixels| == w * h && 0 <= row < h && 0 <= i <= w
    ensures var r := FragmentStep(zbuf, pixels, f, view, w, h, shading, gouraud, row, i);
      !DepthTestPasses(zbuf, f, w, row, i) || r.status != Done ==> r.zbuf == zbuf && r.pixels == pixels
  {
    ZIndexValue(w, row, i);
  }

  /**
   * When the test passes and the pixel completes, the cell takes the depth
   * and the pixel the colour the shading switch gives, if any, inside the image.
   */
  lemma FragmentWrites(zbuf: seq<real>, pixels: seq<Pixel>, f: Face, view: Mat.Mat4, w: int, h: int,
                       shading: Shader, gouraud: (Face, int, int) -> Pixel, row: int, i: int)
    requires |pixels| == w * h && 0 <= row < h && 0 <= i <= w
    requires DepthTestPasses(zbuf, f, w, row, i)
    ensures var r := FragmentStep(zbuf, pixels, f, view, w, h, shading, gouraud, row, i);
      var paint := FragmentPaint(shading, f, view, gouraud, row, i);
      && (r.status == Done <==> !paint.Undefined?)
      && (r.status == Done ==> r.zbuf == zbuf[ZIndex(w, row, i) := FragmentDepth(f, row, i).value])
      && (r.status == Done ==> r.pixels == if i < w && paint.Paint? then WithPixel(pixels, w, h, row, i, paint.colour) else pixels)
  {
    ZIndexValue(w, row, i);
  }

  /** TEXTURE never changes the image (its z-buffer write is stated by FragmentWrites). */
  lemma FragmentTextureDrawsNothing(zbuf: seq<real>, pixels: seq<Pixel>, f: Face, view: Mat.Mat4, w: int, h: int,
                                    gouraud: (Face, int, int) -> Pixel, row: int, i: int)
    requires |pixels| == w * h && 0 <= row < h && 0 <= i <= w
    ensures FragmentStep(zbuf, pixels, f, view, w, h, Texture, gouraud, row, i).pixels == pixels
  {
    ZIndexValue(w, row, i);
  }

  /**
   * One pixel only lowers the z-buffer to depths in [0, 1], and only writes
   * colours the shading mode can paint for one of the faces.
   */
  lemma FragmentKeepsInvariants(zbuf: seq<real>, pixels: seq<Pixel>, faces: seq<Face>, k: nat, view: Mat.Mat4, w: int, h: int,
                                shading: Shader, gouraud: (Face, int, int) -> Pixel, row: int, i: int)
    requires |pixels| == w * h && 0 <= row < h && 0 <= i <= w && k < |faces|
    ensures var r := FragmentStep(zbuf, pixels, faces[k], view, w, h, shading, gouraud, row, i);
      DepthsLowered(r.zbuf, zbuf) && PixelsPainted(r.pixels, pixels, shading, faces)
  {
    var f := faces[k];
    ZIndexValue(w, row, i);
    if DepthTestPasses(zbuf, f, w, row, i) && Denominator(f.pixelCoord) != 0.0 {
      var wt := Barycentric(f.pixelCoord, i as real, row as real + 0.5);
      var d := Depth(f, wt).value;
      var paint := Shade(shading, f, view, wt, d, gouraud(f, row, i));
      if paint.Paint? {
        PaintIsAllowed(shading, faces, k, view, wt, d, gouraud(f, row, i));
        if i < w {
          IndexInRange(w, h, row, i);
        }
      }
    }
  }

  /** The pixel step of `rasterize`, on the image buffer and the z-buffer in place. */
  method ShadeFragment(out: Img, zbuf: array<real>, faces: array<Face>, k: int, view: Mat.Mat4,
                       w: int, h: int, shading: Shader, gouraud: (Face, int, int) -> Pixel, row: int, i: int)
    returns (status: Status)
    requires Canvas(out, zbuf, w, h)
    requires 0 <= k < faces.Length && 0 <= row < h && 0 <= i <= w
    modifies out.data, zbuf
    ensures var r := FragmentStep(old(zbuf[..]), old(out.data[..]), faces[k], view, w, h, shading, gouraud, row, i);
      status == r.status && zbuf[..] == r.zbuf && out.data[..] == r.pixels
    ensures DepthsLowered(zbuf[..], old(zbuf[..]))
    ensures PixelsPainted(out.data[..], old(out.data[..]), shading, faces[..])
  {
    FragmentKeepsInvariants(zbuf[..], out.data[..], faces[..], k, view, w, h, shading, gouraud, row, i);
    var f := faces[k];
    var p := f.pixelCoord;
    var y := row as real + 0.5;
    if Denominator(p) == 0.0 {
      return Unmodelled(row, i);
    }
    var wt := Barycentric(p, i as real, y);
    var depth := Depth(f, wt);
    if depth.None? {
      return Unmodelled(row, i);
    }
    var pixDepth := depth.value;
    var cell := ZIndex(w, row, i);
    ZIndexValue(w, row, i);
    if cell >= zbuf.Length {
      return Overrun(row, i);
    }
    if pixDepth < zbuf[cell] && Within(pixDepth, 0.0, 1.0) {
      var paint := Shade(shading, f, view, wt, pixDepth, gouraud(f, row, i));
      if paint.Undefined? {
        return Unmodelled(row, i);
      }
      if paint.Paint? && i < w {
        IndexInRange(w, h, row, i);
        out.data[Index(w, row, i)] := paint.colour;
      }
      zbuf[cell] := pixDepth;
    }
    return Done;
  }

  /**
   * Lines 303-459 for the columns i, i + 1, ... of one span while i < x1:
   * a column left of 0 or right of w is skipped, any other takes
   * FragmentStep, and the first step that does not complete ends the span.
   */
  ghost function SpanEffect(zbuf: seq<real>, pixels: seq<Pixel>, f: Face, view: Mat.Mat4, w: int, h: int,
                            shading: Shader, gouraud: (Face, int, int) -> Pixel, row: int, i: int, x1: real): (r: Fragment)
    requires |pixels| == w * h && 0 <= row < h
    ensures |r.zbuf| == |zbuf| && |r.pixels| == |pixels|
    decreases x1.Floor + 1 - i
  {
    if !(i as real < x1) then Fragment(Done, zbuf, pixels)
    else if i < 0 || i > w then SpanEffect(zbuf, pixels, f, view, w, h, shading, gouraud, row, i + 1, x1)
    else
      var r := FragmentStep(zbuf, pixels, f, view, w, h, shading, gouraud, row, i);
      if r.status != Done then r
      else SpanEffect(r.zbuf, r.pixels, f, view, w, h, shading, gouraud, row, i + 1, x1)
  }

  /** Columns right of w are all skipped: from there the span changes nothing. */
  lemma {:induction false} SpanPastRightEdge(zbuf: seq<real>, pixels: seq<Pixel>, f: Face, view: Mat.Mat4, w: int, h: int,
                                             shading: Shader, gouraud: (Face, int, int) -> Pixel, row: int, i: int, x1: real)
    requires |pixels| == w * h && 0 <= row < h && i > w
    ensures SpanEffect(zbuf, pixels, f, view, w, h, shading, gouraud, row, i, x1) == Fragment(Done, zbuf, pixels)
    decreases x1.Floor + 1 - i
  {
    if i as real < x1 {
      SpanPastRightEdge(zbuf, pixels, f, view, w, h, shading, gouraud, row, i + 1, x1);
    }
  }

  /** Columns left of 0 are all skipped: a span that starts there acts as one that starts at column 0. */
  lemma {:induction false} SpanBeforeLeftEdge(zbuf: seq<real>, pixels: seq<Pixel>, f: Face, view: Mat.Mat4, w: int, h: int,
                                              shading: Shader, gouraud: (Face, int, int) -> Pixel, row: int, i: int, x1: real)
    requires |pixels| == w * h && 0 <= row < h && i <= 0
    ensures SpanEffect(zbuf, pixels, f, view, w, h, shading, gouraud, row, i, x1)
         == SpanEffect(zbuf, pixels, f, view, w, h, shading, gouraud, row, 0, x1)
    decreases -i
  {
    if i < 0 {
      SpanBeforeLeftEdge(zbuf, pixels, f, view, w, h, shading, gouraud, row, i + 1, x1);
    }
  }

  /**
   * The guard `i > w` lets column w through: a span that reaches it
   * (x1 > w) ends with exactly its step, so when the depth test passes
   * the z-buffer cell w * row + w / 2 + w is written (FragmentWrites),
   * while the image is left as it was.
   */
  lemma SpanAtRightEdge(zbuf: seq<real>, pixels: seq<Pixel>, f: Face, view: Mat.Mat4, w: int, h: int,
                        shading: Shader, gouraud: (Face, int, int) -> Pixel, row: int, x1: real)
    requires |pixels| == w * h && 0 <= row < h && 0 <= w && (w as real) < x1
    ensures SpanEffect(zbuf, pixels, f, view, w, h, shading, gouraud, row, w, x1)
         == FragmentStep(zbuf, pixels, f, view, w, h, shading, gouraud, row, w)
    ensures SpanEffect(zbuf, pixels, f, view, w, h, shading, gouraud, row, w, x1).pixels == pixels
  {
    var r := FragmentStep(zbuf, pixels, f, view, w, h, shading, gouraud, row, w);
    SpanPastRightEdge(r.zbuf, r.pixels, f, view, w, h, shading, gouraud, row, w + 1, x1);
    ZIndexValue(w, row, w);
  }

  /** Lines 303-304: the columns of one span, skipping those left of 0 or right of w. */
  method ScanSpan(out: Img, zbuf: array<real>, faces: array<Face>, k: int, view: Mat.Mat4,
                  w: int, h: int, shading: Shader, gouraud: (Face, int, int) -> Pixel, row: int, x0: real, x1: real)
    returns (status: Status)
    requires Canvas(out, zbuf, w, h)
    requires 0 <= k < faces.Length && 0 <= row < h
    modifies out.data, zbuf
    ensures var r := SpanEffect(old(zbuf[..]), old(out.data[..]), faces[k], view, w, h, shading, gouraud, row, Trunc(x0), x1);
      status == r.status && zbuf[..] == r.zbuf && out.data[..] == r.pixels
    ensures DepthsLowered(zbuf[..], old(zbuf[..]))
    ensures PixelsPainted(out.data[..], old(out.data[..]), shading, faces[..])
  {
    var i := Trunc(x0);
    while (i as real) < x1
      invariant DepthsLowered(zbuf[..], old(zbuf[..]))
      invariant PixelsPainted(out.data[..], old(out.data[..]), shading, faces[..])
      invariant SpanEffect(old(zbuf[..]), old(out.data[..]), faces[k], view, w, h, shading, gouraud, row, Trunc(x0), x1)
             == SpanEffect(zbuf[..], out.data[..], faces[k], view, w, h, shading, gouraud, row, i, x1)
      decreases x1.Floor + 1 - i
    {
      if i < 0 || i > w {
        i := i + 1;
        continue;
      }
      ghost var z, px := zbuf[..], out.data[..];
      status := ShadeFragment(out, zbuf, faces, k, view, w, h, shading, gouraud, row, i);
      DepthsLoweredTransitive(old(zbuf[..]), z, zbuf[..]);
      PixelsPaintedTransitive(old(out.data[..]), px, out.data[..], shading, faces[..]);
      if status != Done {
        return;
      }
      i := i + 1;
    }
    return Done;
  }

  /**
   * Lines 228-463 for the faces k, k + 1, ... on one row: a renderable face
   * whose box the row passes through strictly has its span ordered and
   * scanned; a span without the crossings or edge pairs the code reads ends
   * the row; the first span that does not complete ends it too.
   */
  ghost function RowEffect(zbuf: seq<real>, pixels: seq<Pixel>, faces: seq<Face>, view: Mat.Mat4, w: int, h: int,
                           shading: Shader, gouraud: (Face, int, int) -> Pixel, row: int, k: nat): (r: Fragment)
    requires |pixels| == w * h && 0 <= row < h
    ensures |r.zbuf| == |zbuf| && |r.pixels| == |pixels|
    decreases |faces| - k
  {
    if k >= |faces| then Fragment(Done, zbuf, pixels)
    else
      var f := faces[k];
      var y := row as real + 0.5;
      if f.isRenderable && f.boundingBox[0].y < y && y < f.boundingBox[1].y then
        var span := OrderSpan(Crossings(f.pixelCoord, y));
        if span.None? || ((shading == NormGouraud || shading == NormGouraudZ) && |span.value.edges| < 4) then
          Fragment(Unmodelled(row, -1), zbuf, pixels)
        else
          var r := SpanEffect(zbuf, pixels, f, view, w, h, shading, gouraud, row, Trunc(span.value.xs[0]), span.value.xs[1]);
          if r.status != Done then r
          else RowEffect(r.zbuf, r.pixels, faces, view, w, h, shading, gouraud, row, k + 1)
      else RowEffect(zbuf, pixels, faces, view, w, h, shading, gouraud, row, k + 1)
  }

  /** Lines 226-465 for the rows row, row + 1, ... below h; the first row that does not complete ends the scan. */
  ghost function RowsEffect(zbuf: seq<real>, pixels: seq<Pixel>, faces: seq<Face>, view: Mat.Mat4, w: int, h: int,
                            shading: Shader, gouraud: (Face, int, int) -> Pixel, row: nat): (r: Fragment)
    requires |pixels| == w * h
    ensures |r.zbuf| == |zbuf| && |r.pixels| == |pixels|
    decreases h - row
  {
    if !(row as real + 0.5 < h as real) then Fragment(Done, zbuf, pixels)
    else
      var r := RowEffect(zbuf, pixels, faces, view, w, h, shading, gouraud, row, 0);
      if r.status != Done then r
      else RowsEffect(r.zbuf, r.pixels, faces, view, w, h, shading, gouraud, row + 1)
  }

  /** Lines 228-463 for one row: every renderable face whose box the row passes through strictly. */
  method ScanRow(out: Img, zbuf: array<real>, faces: array<Face>, view: Mat.Mat4,
                 w: int, h: int, shading: Shader, gouraud: (Face, int, int) -> Pixel, row: int)
    returns (status: Status)
    requires Canvas(out, zbuf, w, h)
    requires 0 <= row < h
    modifies out.data, zbuf
    ensures var r := RowEffect(old(zbuf[..]), old(out.data[..]), faces[..], view, w, h, shading, gouraud, row, 0);
      status == r.status && zbuf[..] == r.zbuf && out.data[..] == r.pixels
    ensures DepthsLowered(zbuf[..], old(zbuf[..]))
    ensures PixelsPainted(out.data[..], old(out.data[..]), shading, faces[..])
  {
    var y := row as real + 0.5;
    var k := 0;
    while k < faces.Length
      invariant 0 <= k <= faces.Length
      invariant DepthsLowered(zbuf[..], old(zbuf[..]))
      invariant PixelsPainted(out.data[..], old(out.data[..]), shading, faces[..])
      invariant RowEffect(old(zbuf[..]), old(out.data[..]), faces[..], view, w, h, shading, gouraud, row, 0)
             == RowEffect(zbuf[..], out.data[..], faces[..], view, w, h, shading, gouraud, row, k)
    {
      var f := faces[k];
      if f.isRenderable && f.boundingBox[0].y < y && y < f.boundingBox[1].y {
        var span := OrderSpan(Crossings(f.pixelCoord, y));
        if span.None? || ((shading == NormGouraud || shading == NormGouraudZ) && |span.value.edges| < 4) {
          return Unmodelled(row, -1);
        }
        ghost var z, px := zbuf[..], out.data[..];
        status := ScanSpan(out, zbuf, faces, k, view, w, h, shading, gouraud, row, span.value.xs[0], span.value.xs[1]);
        DepthsLoweredTransitive(old(zbuf[..]), z, zbuf[..]);
        PixelsPaintedTransitive(old(out.data[..]), px, out.data[..], shading, faces[..]);
        if status != Done {
          return;
        }
      }
      k := k + 1;
    }
    return Done;
  }

  /** Lines 226-465: the rows y = 0.5, 1.5, ... below h. */
  method ScanRows(out: Img, zbuf: array<real>, faces: array<Face>, view: Mat.Mat4,
                  w: int, h: int, shading: Shader, gouraud: (Face, int, int) -> Pixel)
    returns (status: Status)
    requires Canvas(out, zbuf, w, h)
    modifies out.data, zbuf
    ensures var r := RowsEffect(old(zbuf[..]), old(out.data[..]), faces[..], view, w, h, shading, gouraud, 0);
      status == r.status && zbuf[..] == r.zbuf && out.data[..] == r.pixels
    ensures DepthsLowered(zbuf[..], old(zbuf[..]))
    ensures PixelsPainted(out.data[..], old(out.data[..]), shading, faces[..])
  {
    var row := 0;
    while row as real + 0.5 < h as real
      invariant 0 <= row
      invariant DepthsLowered(zbuf[..], old(zbuf[..]))
      invariant PixelsPainted(out.data[..], old(out.data[..]), shading, faces[..])
      invariant RowsEffect(old(zbuf[..]), old(out.data[..]), faces[..], view, w, h, shading, gouraud, 0)
             == RowsEffect(zbuf[..], out.data[..], faces[..], view, w, h, shading, gouraud, row)
      decreases h - row
    {
      ghost var z, px := zbuf[..], out.data[..];
      status := ScanRow(out, zbuf, faces, view, w, h, shading, gouraud, row);
      DepthsLoweredTransitive(old(zbuf[..]), z, zbuf[..]);
      PixelsPaintedTransitive(old(out.data[..]), px, out.data[..], shading, faces[..]);
      if status != Done {
        return;
      }
      row := row + 1;
    }
    return Done;
  }

  /** Lines 171-223 over the face list, in place. `drawn[k]` is the RANDOM colour of face k. */
  method SetupFaces(faces: array<Face>, proj: Mat.Mat4, view: Mat.Mat4, w: int, h: int, shading: Shader, drawn: seq<Pixel>)
    requires |drawn| == faces.Length
    requires forall k :: 0 <= k < faces.Length ==> Projectable(proj, view, faces[k])
    modifies faces
    ensures forall k :: 0 <= k < faces.Length ==>
      old(Projectable(proj, view, faces[k])) && faces[k] == SetupFace(old(faces[k]), proj, view, w, h, shading, drawn[k])
  {
    ghost var before := faces[..];
    var k := 0;
    while k < faces.Length
      invariant 0 <= k <= faces.Length
      invariant forall j :: k <= j < faces.Length ==> faces[j] == before[j]
      invariant forall j :: 0 <= j < k ==> faces[j] == SetupFace(before[j], proj, view, w, h, shading, drawn[j])
    {
      var f := faces[k];
      f := Project(f, proj, view);
      f := Viewport(f, w, h);
      f := RejectByDepth(f);
      f := SortByX(f, shading);
      f := Bound(f);
      f := RejectOffScreen(f, w, h);
      f := Recolour(f, shading, drawn[k]);
      assert f == SetupFace(before[k], proj, view, w, h, shading, drawn[k]);
      faces[k] := f;
      k := k + 1;
    }
  }

  /** The faces after setup. */
  ghost function SetUp(mesh: seq<Face>, proj: Mat.Mat4, view: Mat.Mat4, w: int, h: int, shading: Shader, drawn: seq<Pixel>): seq<Face>
    requires |drawn| == |mesh|
    requires forall k :: 0 <= k < |mesh| ==> Projectable(proj, view, mesh[k])
  {
    seq(|mesh|, k requires 0 <= k < |mesh| => SetupFace(mesh[k], proj, view, w, h, shading, drawn[k]))
  }

  /** Painting over a black image leaves pixels that are black or that the mode may paint. */
  lemma PaintedOverBlack(now: seq<Pixel>, before: seq<Pixel>, shading: Shader, faces: seq<Face>)
    requires forall k :: 0 <= k < |before| ==> before[k] == Black
    requires PixelsPainted(now, before, shading, faces)
    ensures forall k :: 0 <= k < |now| ==> now[k] == Black || MayPaint(shading, faces, now[k])
    ensures shading == White ==> forall k :: 0 <= k < |now| ==> now[k] in {Black, WhitePixel}
    ensures shading == Texture ==> forall k :: 0 <= k < |now| ==> now[k] == Black
  {
  }

  /**
   * `rasterize`: a black w x h image, a z-buffer of 2s, setup of every
   * face, then the scan. Every pixel of the result is black or a colour
   * the shading mode paints (white for WHITE, a face colour for NONE and
   * RANDOM, nothing for TEXTURE).
   */
  method Rasterize(cam: Camera, mesh: seq<Face>, w: int, h: int, shading: Shader, drawn: seq<Pixel>,
                   gouraud: (Face, int, int) -> Pixel)
    returns (out: Img, status: Status)
    requires w > 0 && h > 0
    requires |drawn| == |mesh|
    requires forall k :: 0 <= k < |mesh| ==> Projectable(cam.proj, cam.view, mesh[k])
    ensures fresh(out) && out.Valid() && out.w == w && out.h == h
    ensures forall k :: 0 <= k < out.data.Length ==>
      out.data[k] == Black || MayPaint(shading, SetUp(mesh, cam.proj, cam.view, w, h, shading, drawn), out.data[k])
    ensures shading == White ==> forall k :: 0 <= k < out.data.Length ==> out.data[k] in {Black, WhitePixel}
    ensures shading == Texture ==> forall k :: 0 <= k < out.data.Length ==> out.data[k] == Black
    ensures var r := RowsEffect(seq(w * h, _ => 2.0), seq(w * h, _ => Black),
                                SetUp(mesh, cam.proj, cam.view, w, h, shading, drawn), cam.view, w, h, shading, gouraud, 0);
      status == r.status && out.data[..] == r.pixels
  {
    out := new Img(w, h);
    var zbuf := InitZBuffer(w, h);
    var faces := new Face[|mesh|](k requires 0 <= k < |mesh| => mesh[k]);
    SetupFaces(faces, cam.proj, cam.view, w, h, shading, drawn);
    assert faces[..] == SetUp(mesh, cam.proj, cam.view, w, h, shading, drawn);
    assert zbuf[..] == seq(w * h, _ => 2.0);
    ghost var black := out.data[..];
    assert black == seq(w * h, _ => Black);
    status := ScanRows(out, zbuf, faces, cam.view, w, h, shading, gouraud);
    PaintedOverBlack(out.data[..], black, shading, faces[..]);
  }
}
