# img_viewer rasteriser core in Dafny

This project models the deterministic core of `img_viewer`, a small Qt
image viewer with a CPU triangle rasteriser. The model has five modules.
Every C++ `float` and `double` is a Dafny `real`.

- `Vec` (vec.dfy) covers `vec4`.
  - The datatype `Vec4` holds the values.
  - The value operators are functions.
  - The class `Vec4Ref` owns a four-cell `array<real>` and carries the members that change the receiver in place: the compound assignments, the writable `operator()` and `norm()`.
- `Mat` (mat.dfy) covers `mat4`.
  - A `Mat4` is stored column-major: field `cK` is column K, and `At(m, c, r)` is `m[c][r]`.
  - It has the builders `trans`, `scale` and `proj`, the element-wise operators, the three products and `transpose`.
  - The class `Mat4Ref` carries the compound assignments and the writable column accessor.
- `Ppm` (ppm.dfy) covers `pixel_t` and `img_t`.
  - `pixel_t` is three `Byte`s.
  - `img_t` is the class `Img`, with a heap `array<Pixel>` buffer addressed row-major.
  - It also has `img_init`, the two `operator()` and `img_destroy`, which nulls the caller's handle.
- `ImOp` (imop.dfy) covers `grayscale`, `flip` and `flop`.
  - Each takes the `QImage` as an `Img`: a `w * h` buffer of RGB pixels, where `pixel(j, i)` is cell `i * w + j`. The buffer may be empty (`Img.Sized`), as for a null `QImage` of size 0 by 0, on which every loop runs zero times.
  - Each is a method that rewrites the pixel buffer in place.
  - Each is proved equal to a function of the old contents (`Grayscaled`, `Flipped`, `Flopped`).
  - Their properties are lemmas about those functions.
- `Raster` (raster.dfy) covers `within` and `lerp`, and the shader enumeration.
  - `face_t` is the datatype `Face`.
  - The camera record is the class `Camera`, whose `UpdateMatrices` is `update_matrices`.
  - Per-face setup is the function `SetupFace`, applied in place over an `array<Face>` by `SetupFaces`.
  - The scan is four nested methods, `ScanRows`, `ScanRow`, `ScanSpan` and `ShadeFragment`, which write the image and the z-buffer in place.
  - One pixel of the scan is specified by the function `FragmentStep`, and `ShadeFragment` is proved equal to it.
  - The span, the row and the whole scan are specified by `SpanEffect`, `RowEffect` and `RowsEffect`, folds of `FragmentStep` that stop at the first status other than `Done`. `ScanSpan`, `ScanRow`, `ScanRows` and `Rasterize` are proved equal to them.

Where the C++ divides by zero, narrows an out-of-range value to
`unsigned char`, or reads past the end of a `std::vector`, behaviour is
undefined or IEEE-specific. Pure functions exclude those inputs with a
`requires`. Inside the scan, the model stops with a `Status` that names
the pixel: `Unmodelled(row, col)` for those cases, and `Overrun(row, col)`
when the z-buffer index passes the end of the buffer.

Three quirks of the source are modelled as written and stated as lemmas:
- The z-buffer cell is `(int)((row + 0.5) * w + i)`. That equals `row * w + w / 2 + i`, not the row-major `row * w + i`. The lemmas are `ZIndexValue`, `ZIndexIsNotRowMajor`, `ZIndexWrapsIntoNextRow`, `ZIndexOverrunsLastRow` and `ZIndexOverrunExample`.
- The column guard `i > w` lets column `w` through. A span reaching past `w` ends with that column's `FragmentStep` (`SpanAtRightEdge`), which writes its z-buffer cell when the depth test passes (`FragmentWrites`) and leaves the image as it was, because its `setPixel` falls outside the image.
- TEXTURE writes no pixel but still writes the z-buffer.

Where a header comment and the code disagree, the model follows the code:
- `img_destroy` returns the handle it was given, not NULL.
- `camera_mat_t` has the frustum, eye, centre and up fields that rasterize.cpp uses, not just the two matrices that rasterize.h declares.

## Model

| member | source | states |
|---|---|---|
| Vec.Zero | vec4.cpp:12-17 | every component of the default vector is 0 |
| Vec.With | vec4.cpp:50-53 | writing component `index` sets it to the value and leaves the other three unchanged |
| Vec.Cross | vec4.cpp:163-170 | the cross product has w = 0 |
| Vec.EqIsEquality | vec4.cpp:67-75 | `==` holds exactly for equal vectors and `!=` is its negation |
| Vec.AddSubCancel | vec4.cpp:109-117 | `(v + u) - u == v`, and `+` commutes |
| Vec.AddComponentwise | vec4.cpp:109-117 | component i of `v + u` and `v - u` is the sum and difference of the components i |
| Vec.DivScalesBack | vec4.cpp:119-127 | dividing by a non-zero c and multiplying back by c restores the vector |
| Vec.DotSymmetric | vec4.cpp:158-161 | `dot` is symmetric |
| Vec.CrossAnticommutative | vec4.cpp:163-170 | `cross(a, b) == -cross(b, a)` and `cross(a, a)` is zero |
| Vec.CrossOrthogonal | vec4.cpp:158-170 | `cross(a, b)` is orthogonal to a and to b |
| Vec.CrossIgnoresW | vec4.h:89-91 | the cross product uses only x, y and z: changing either w does not change it |
| Vec.NormalizeZero | vec4.cpp:138-152 | `normalize()` of the zero vector is zero and `norm()` leaves it unchanged |
| Vec.NormalizeScalesBack | vec4.cpp:138-152 | for a non-zero length, `normalize` and `norm` agree, and scaling back by the length restores the vector |
| Vec.At | vec4.cpp:45-48 | definition of the checked read `v(index)`; properties in Vec.With and Vec.AddComponentwise |
| Vec.Eq | vec4.cpp:67-70 | definition of `==`; properties in Vec.EqIsEquality |
| Vec.Ne | vec4.cpp:72-75 | definition of `!=`; properties in Vec.EqIsEquality |
| Vec.Add | vec4.cpp:109-112 | definition of `+`; properties in Vec.AddSubCancel and Vec.AddComponentwise |
| Vec.Sub | vec4.cpp:114-117 | definition of `-`; properties in Vec.AddSubCancel and Vec.AddComponentwise |
| Vec.Scale | vec4.cpp:119-122 | definition of the member `v * c`, and of the free `c * v` (vec4.cpp:172-174), which returns `v * c`; properties in Vec.DivScalesBack and Vec.NormalizeScalesBack |
| Vec.Div | vec4.cpp:124-127 | definition of `/`; properties in Vec.DivScalesBack |
| Vec.Dot | vec4.cpp:158-161 | definition of `dot`; properties in Vec.DotSymmetric and Vec.CrossOrthogonal |
| Vec.Normalize | vec4.cpp:138-143 | definition of `normalize()` given the length; properties in Vec.NormalizeZero and Vec.NormalizeScalesBack |
| Vec.Normed | vec4.cpp:145-152 | definition of the value `norm()` leaves; properties in Vec.NormalizeZero and Vec.NormalizeScalesBack |
| Vec.Vec4Ref.constructor | vec4.cpp:12-17 | `vec4()` holds the zero vector |
| Vec.Vec4Ref.FromComponents | vec4.cpp:19-24 | `vec4(x, y, z, w)` holds those four components |
| Vec.Vec4Ref.Set | vec4.cpp:50-53 | a write through the checked `operator()` changes that one component |
| Vec.Vec4Ref.AddAssign | vec4.cpp:77-83 | after `+=` the receiver holds the old value `+` v2 |
| Vec.Vec4Ref.SubAssign | vec4.cpp:85-91 | after `-=` the receiver holds the old value `-` v2 |
| Vec.Vec4Ref.MulAssign | vec4.cpp:93-99 | after `*=` the receiver holds the old value `* c` |
| Vec.Vec4Ref.DivAssign | vec4.cpp:101-107 | after `/=` the receiver holds the old value `/ c` |
| Vec.Vec4Ref.Norm | vec4.cpp:145-152 | `norm()` divides the receiver by its length, or leaves it unchanged when the length is 0 |
| Mat.WithAt | mat4.cpp:47-49 | writing `m[c][r]` sets that entry and keeps the other fifteen |
| Mat.Identity | mat4.cpp:14-19 | `mat4()` has 1 on the diagonal and 0 elsewhere |
| Mat.Diag | mat4.cpp:21-26 | `mat4(d)` has d on the diagonal and 0 elsewhere |
| Mat.FromCols | mat4.cpp:28-34 | the four-vector constructor stores its arguments as columns 0 to 3 |
| Mat.BuildersAreElementWrites | mat4.cpp:83-112 | `trans`, `scale` and `proj` are exactly the identity after their entry writes `ret[c][r] = ...` |
| Mat.EqIsEquality | mat4.cpp:126-134 | `==` holds exactly for equal matrices and `!=` is its negation |
| Mat.DiagOneIsIdentity | mat4.cpp:14-26 | `mat4(1)` equals `mat4()` |
| Mat.TransposeSwaps | mat4.cpp:242-251 | entry (c, r) of the transpose is entry (r, c), and transposing twice gives back the matrix |
| Mat.MulEntry | mat4.cpp:188-223 | entry (c, r) of `m1 * m2` is row r of m1 against column c of m2 |
| Mat.IdentityNeutral | mat4.cpp:188-236 | the identity is neutral on both sides of `*` and for `m * v` |
| Mat.MulVecAssociative | mat4.cpp:188-236 | `(m1 * m2) * v == m1 * (m2 * v)` |
| Mat.RowIsVecMul | mat4.cpp:188-223 | row r of `m1 * m2` is row r of m1 times m2 as a row vector |
| Mat.VecMulDot | mat4.cpp:225-276 | `(a * m) . v == a . (m * v)` |
| Mat.MulVecIsColumnSum | mat4.cpp:225-236 | `m * v` is the columns of m weighted by the components of v |
| Mat.VecMulIsTransposed | mat4.cpp:265-276 | row-vector `v * m` equals `m.transpose() * v` |
| Mat.TransMoves | mat4.cpp:83-90 | `trans(x, y, z)` adds (x, y, z) to a point with w = 1 and leaves a direction with w = 0 unchanged |
| Mat.ScaleByScales | mat4.cpp:92-99 | `scale(x, y, z)` multiplies x, y and z componentwise and keeps w |
| Mat.ProjDepth | mat4.cpp:101-112 | `proj(...) * v` has w equal to v's z; after the divide, a point at z = n has depth 0 and one at z = f has depth 1 |
| Mat.Col | mat4.cpp:43-49 | definition of `m[index]`, one column; properties in Mat.FromCols and Mat.Mat4Ref.SetCol |
| Mat.At | mat4.cpp:43-49 | definition of the entry `m[c][r]`; properties in Mat.WithAt |
| Mat.Row | mat4.cpp:188-223 | definition of row r, as the product reads it; properties in Mat.MulEntry and Mat.RowIsVecMul |
| Mat.Trans | mat4.cpp:83-90 | definition of `trans`; properties in Mat.TransMoves and Mat.BuildersAreElementWrites |
| Mat.ScaleBy | mat4.cpp:92-99 | definition of `scale`; properties in Mat.ScaleByScales and Mat.BuildersAreElementWrites |
| Mat.Proj | mat4.cpp:101-112 | definition of `proj`; properties in Mat.ProjDepth and Mat.BuildersAreElementWrites |
| Mat.Eq | mat4.cpp:126-129 | definition of `==`; properties in Mat.EqIsEquality |
| Mat.Ne | mat4.cpp:131-134 | definition of `!=`; properties in Mat.EqIsEquality |
| Mat.Plus | mat4.cpp:168-171 | definition of `+`; properties in Mat.Mat4Ref.AddAssign |
| Mat.Minus | mat4.cpp:173-176 | definition of `-`; properties in Mat.Mat4Ref.SubAssign |
| Mat.Times | mat4.cpp:178-181 | definition of `m * c`, and of the free `c * m` (mat4.cpp:261-263), which scales the same columns; properties in Mat.Mat4Ref.MulAssign |
| Mat.Over | mat4.cpp:183-186 | definition of `m / c`; properties in Mat.Mat4Ref.DivAssign |
| Mat.Mul | mat4.cpp:188-223 | definition of `m1 * m2`; properties in Mat.MulEntry, Mat.IdentityNeutral and Mat.MulVecAssociative |
| Mat.MulVec | mat4.cpp:225-236 | definition of `m * v`; properties in Mat.MulVecIsColumnSum and Mat.MulVecAssociative |
| Mat.VecMul | mat4.cpp:265-276 | definition of the row-vector `v * m`; properties in Mat.VecMulDot and Mat.VecMulIsTransposed |
| Mat.Transpose | mat4.cpp:242-251 | definition of `transpose()`; properties in Mat.TransposeSwaps |
| Mat.Mat4Ref.constructor | mat4.cpp:14-19 | a default `mat4` object holds the identity |
| Mat.Mat4Ref.SetCol | mat4.cpp:56-59 | a write through the checked `operator()` replaces that column and keeps the others |
| Mat.Mat4Ref.AddAssign | mat4.cpp:136-142 | after `+=` the receiver holds the old value `+` m2 |
| Mat.Mat4Ref.SubAssign | mat4.cpp:144-150 | after `-=` the receiver holds the old value `-` m2 |
| Mat.Mat4Ref.MulAssign | mat4.cpp:152-158 | after `*=` the receiver holds the old value `* c` |
| Mat.Mat4Ref.DivAssign | mat4.cpp:160-166 | after `/=` the receiver holds the old value `/ c` |
| Ppm.Trunc | im_op.cpp:10-12 | a float-to-int conversion truncates toward zero |
| Ppm.Narrow | rasterize.cpp:327-329 | `(unsigned char) v` is defined exactly for -1 < v < 256, and is then the truncation of v |
| Ppm.IndexInRange | ppm.cpp:7-13 | every in-range (i, j) addresses one of the w * h cells |
| Ppm.IndexInjective | ppm.cpp:7-13 | distinct pairs with in-range columns address distinct cells |
| Ppm.IndexCovers | ppm.cpp:7-13 | every cell k is addressed by the in-range pair (k / w, k % w) |
| Ppm.IndexSplits | ppm.cpp:7-13 | dividing the offset of (i, j) by w gives back i and j |
| Ppm.IndexLayout | ppm.cpp:7-13 | all in-range offsets lie in [0, w * h) and are pairwise distinct |
| Ppm.WriteTouchesOneCell | ppm.cpp:11-13 | a write through the reference `operator()` changes that cell and no other in-range pair |
| Ppm.Index | ppm.cpp:7-13 | definition of the offset `i * w + j`; properties in Ppm.IndexLayout |
| Ppm.Cell | ppm.cpp:7-9 | definition of the const `operator()(i, j)` on a buffer's contents; properties in Ppm.WriteTouchesOneCell |
| Ppm.Img.Get | ppm.cpp:7-9 | definition of the const `operator()(i, j)` on an `Img` |
| Ppm.Img.constructor | ppm.cpp:62-69 | a new image records w and h and has w * h zeroed pixels |
| Ppm.Img.Set | ppm.cpp:11-13 | a write through the reference changes exactly cell `i * w + j` |
| Ppm.ImgInit | ppm.cpp:56-70 | NULL exactly unless w > 0 and h > 0; otherwise a fresh image of w * h black pixels |
| Ppm.ImgDestroy | ppm.cpp:72-78 | the buffer and the caller's pointer are nulled, and the same handle is returned |
| ImOp.Luma | im_op.cpp:10-12 | definition of `val`; properties in ImOp.LumaBetween |
| ImOp.Gray | im_op.cpp:9-13 | definition of the pixel written back; properties in ImOp.GrayIsGray |
| ImOp.Grayscaled | im_op.cpp:6-16 | definition of the buffer after `grayscale`; properties in ImOp.GrayscaledIsGray and ImOp.GrayscaledByCells |
| ImOp.Flipped | im_op.cpp:18-26 | definition of the buffer after `flip`; properties in ImOp.FlippedCell, ImOp.FlipTwice and ImOp.FlipPermutesRows |
| ImOp.Flopped | im_op.cpp:28-36 | definition of the buffer after `flop`; properties in ImOp.FloppedCell, ImOp.FlopTwice and ImOp.FlopPermutesColumns |
| ImOp.LumaBetween | im_op.cpp:10-12 | in exact arithmetic, the luma lies between the smallest and largest channel, so within 0 .. 255 |
| ImOp.GrayIsGray | im_op.cpp:9-13 | a grayed pixel has r == g == b; in exact arithmetic a gray pixel is kept and graying twice equals graying once |
| ImOp.GrayscaledIsGray | im_op.cpp:6-16 | after `grayscale` every pixel is gray, and in exact arithmetic a second `grayscale` changes nothing |
| ImOp.GrayscaledByCells | im_op.cpp:7-15 | an image whose every (i, j) is the gray of the old (i, j) is the grayscaled image |
| ImOp.Grayscale | im_op.cpp:6-16 | the buffer after `grayscale` is `Grayscaled` of the old buffer |
| ImOp.FlippedCell | im_op.cpp:18-26 | after `flip`, pixel (i, j) is the old pixel (i, w - 1 - j) |
| ImOp.FlippedByCells | im_op.cpp:18-26 | an image whose every (i, j) is the old (i, w - 1 - j) is the flipped image |
| ImOp.FlipTwice | im_op.cpp:18-26 | flipping twice restores the image |
| ImOp.FlipKeepsMiddleColumn | im_op.cpp:20-24 | for odd w the middle column is unchanged |
| ImOp.FlipPermutesRows | im_op.cpp:18-26 | each row of the flipped image is the old row reversed, with the same multiset of pixels |
| ImOp.FlipReversesRow | im_op.cpp:18-26 | each row of the flipped image is the old row reversed |
| ImOp.SwapCells | im_op.cpp:21-23 | the `tmp` swap exchanges the two pixels and keeps every other one |
| ImOp.FlipSwapStep | im_op.cpp:20-24 | one swap of column j with column w - 1 - j extends the part of the row already mirrored |
| ImOp.FlipRowDone | im_op.cpp:19-25 | after the w / 2 swaps the row is fully mirrored |
| ImOp.Flip | im_op.cpp:18-26 | the buffer after `flip` is `Flipped` of the old buffer |
| ImOp.FloppedCell | im_op.cpp:28-36 | after `flop`, pixel (i, j) is the old pixel (h - 1 - i, j) |
| ImOp.FloppedByCells | im_op.cpp:28-36 | an image whose every (i, j) is the old (h - 1 - i, j) is the flopped image |
| ImOp.FlopTwice | im_op.cpp:28-36 | flopping twice restores the image |
| ImOp.FlopKeepsMiddleRow | im_op.cpp:30-34 | for odd h the middle row is unchanged |
| ImOp.FlopPermutesColumns | im_op.cpp:28-36 | each column of the flopped image is the old column reversed, with the same multiset of pixels |
| ImOp.FlopSwapStep | im_op.cpp:30-34 | one swap of row j with row h - 1 - j extends the part of the column already mirrored |
| ImOp.FlopColumnDone | im_op.cpp:29-35 | after the h / 2 swaps the column is fully mirrored |
| ImOp.Flop | im_op.cpp:28-36 | the buffer after `flop` is `Flopped` of the old buffer |
| Raster.Within | rasterize.cpp:16-18 | definition of `within`; properties in Raster.WithinSymmetric |
| Raster.Lerp | rasterize.cpp:20-22 | definition of `lerp`; properties in Raster.LerpEnds |
| Raster.ViewMatrix | rasterize.cpp:87-112 | definition of `view_o * view_t`; properties in Raster.ViewMapsEyeToOrigin and Raster.ViewRotatesDirections |
| Raster.Clip | rasterize.cpp:172-177 | definition of `proj * view * v`; properties in Raster.Project and Raster.ProjectDividesByViewDepth |
| Raster.Viewport | rasterize.cpp:179-184 | definition of the viewport mapping; properties in Raster.ViewportCorners |
| Raster.RejectByDepth | rasterize.cpp:185-188 | definition of the near/far test; properties in Raster.FinishRenderable |
| Raster.CompareSwap | rasterize.cpp:189-193 | definition of one compare-and-swap; properties in Raster.CompareSwapOrders, Raster.CompareSwapKeepsCorners and Raster.CompareSwapMovesNormals |
| Raster.SortByX | rasterize.cpp:189-203 | definition of the three compare-and-swaps; properties in Raster.SortByXSorts and Raster.SortByXPermutes |
| Raster.Bound | rasterize.cpp:204-211 | definition of the bounding box; properties in Raster.BoundBoxes |
| Raster.RejectOffScreen | rasterize.cpp:212-215 | definition of the off-screen test; properties in Raster.BoundOffScreen |
| Raster.Recolour | rasterize.cpp:216-222 | definition of the RANDOM recolouring; properties in Raster.FinishColour |
| Raster.SetupFace | rasterize.cpp:171-223 | definition of the whole per-face setup; properties in Raster.SetupFaceProperties |
| Raster.Crossings | rasterize.cpp:237-289 | definition of the edge crossings of a row; properties in Raster.RowCrossesTwoEdges and Raster.BoxedRowCrosses |
| Raster.Barycentric | rasterize.cpp:307-311 | definition of the weights; properties in Raster.WeightsSumToOne and Raster.WeightsAtVertices |
| Raster.Depth | rasterize.cpp:312-315 | definition of the interpolated depth; properties in Raster.DepthAtVertices |
| Raster.Shade | rasterize.cpp:317-458 | definition of the shading switch; properties in Raster.FixedColours, Raster.ToneOfUnitInRange and Raster.PaintIsAllowed |
| Raster.ZIndex | rasterize.cpp:316 | definition of the z-buffer cell; properties in Raster.ZIndexValue and the other ZIndex lemmas |
| Raster.FragmentStep | rasterize.cpp:316-459 | definition of one pixel of the scan; properties in Raster.FragmentOverrun, Raster.FragmentRejected, Raster.FragmentWrites and Raster.FragmentKeepsInvariants |
| Raster.WithinSymmetric | rasterize.cpp:16-18 | `within` is symmetric in its ends, includes both ends, and means min <= y <= max |
| Raster.LerpEnds | rasterize.cpp:20-22 | `lerp(a, b, 0) == a`, `lerp(a, b, 1) == b`, and for alpha in [0, 1] the result lies between a and b |
| Raster.ExactlyNineShaders | rasterize.h:30-31 | the shading modes are exactly the nine enumerators, numbered 0 to 8 in order |
| Raster.NewFace | rasterize.h:14-21 | a fresh face is renderable, has three vertices, three normals, three pixel coordinates and two box corners |
| Raster.ViewMatricesAreElementWrites | rasterize.cpp:87-110 | `view_t` and `view_o` are the identity after their entry writes; `view_t` is `trans(-eye)` |
| Raster.TranslationMovesEye | rasterize.cpp:87-90 | `view_t` takes the eye point to the origin |
| Raster.BasisFixesOrigin | rasterize.cpp:92-110 | `view_o` leaves the origin point (0, 0, 0, 1) in place |
| Raster.BasisTimesTranslationFixesEye | rasterize.cpp:87-112 | `view_o * view_t` takes the eye point to (0, 0, 0, 1) |
| Raster.TranslationFixesDirection | rasterize.cpp:87-90 | `view_t` leaves a direction (w = 0) unchanged |
| Raster.BasisRotates | rasterize.cpp:92-110 | `view_o` takes a direction to its components along x_axis, up and forward |
| Raster.BasisTimesTranslationRotates | rasterize.cpp:87-112 | `view_o * view_t` takes a direction to its components along the three axes |
| Raster.ViewMapsEyeToOrigin | rasterize.cpp:85-113 | the view matrix maps (eye_x, eye_y, eye_z, 1) to (0, 0, 0, 1) |
| Raster.ViewRotatesDirections | rasterize.cpp:85-113 | the view matrix maps a direction to its dot products with x_axis, up and forward |
| Raster.Camera.constructor | rasterize.h:23-26 | a camera record holds its settings and starts with identity `proj` and `view` |
| Raster.Camera.UpdateMatrices | rasterize.cpp:85-113 | `proj` becomes `proj(l, r, t, b, n, f)`, `view` becomes `view_o * view_t`, and no setting changes |
| Raster.Camera.UpdateProjection | rasterize.cpp:86 | `proj` becomes the projection of the frustum settings |
| Raster.Camera.UpdateView | rasterize.cpp:87-112 | `view` becomes the basis matrix times the translation by -eye |
| Raster.Project | rasterize.cpp:172-177 | each vertex becomes its clip point `proj * view * v` divided by its own w: it has w = 1 and multiplying back by that w gives the clip point; every other field of the face is kept |
| Raster.ProjectDividesByViewDepth | rasterize.cpp:172-177 | with the camera's `proj`, each vertex is divided by its view-space depth; view points on the near plane get depth 0 and those on the far plane depth 1 |
| Raster.ViewportCorners | rasterize.cpp:179-184 | x = -1 maps to 0, x = 1 to 2 * (w / 2); y = 1 maps to 0, y = -1 to 2 * (h / 2), with C integer halves |
| Raster.SwapIn | rasterize.cpp:190-191 | `std::swap(s[a], s[b])` exchanges the two slots and keeps the third |
| Raster.CompareSwapOrders | rasterize.cpp:189-193 | a compare-and-swap orders the pair by x, moves only the pair, and keeps the flag, colour and box |
| Raster.CompareSwapKeepsCorners | rasterize.cpp:189-193 | a compare-and-swap permutes the (vertex, pixel coordinate) pairs |
| Raster.CompareSwapMovesNormals | rasterize.cpp:189-193 | normals move with their vertex except under NORM_FLAT, where they stay |
| Raster.SortByXSorts | rasterize.cpp:189-203 | after the three compare-and-swaps the pixel x-coordinates are non-decreasing |
| Raster.SortByXPermutes | rasterize.cpp:189-203 | the sort permutes the (vertex, pixel coordinate) pairs, moves normals in lockstep except under NORM_FLAT, and keeps the flag, colour and box |
| Raster.CompareSwapKeepsExtremes | rasterize.cpp:189-193 | a compare-and-swap does not change whether the three points lie outside the image |
| Raster.SortByXKeepsExtremes | rasterize.cpp:189-203 | the sort does not change whether the three points lie outside the image |
| Raster.BoundBoxes | rasterize.cpp:204-211 | the box contains all three pixel coordinates and each side touches one of them |
| Raster.BoundOffScreen | rasterize.cpp:204-215 | the box test rejects exactly the faces whose three points lie beyond one image edge |
| Raster.FinishSortsAndBoxes | rasterize.cpp:185-222 | after setup the face is sorted by x, boxed, and a permutation of the placed vertices |
| Raster.FinishRenderable | rasterize.cpp:185-215 | after setup the face is renderable iff it was, is not wholly before near or beyond far, and is not off-screen |
| Raster.FinishColour | rasterize.cpp:216-222 | RANDOM gives the face the drawn colour; every other mode keeps it |
| Raster.SetupFaceProperties | rasterize.cpp:171-223 | the whole per-face setup: sorted, boxed, a permutation, the renderable flag as above, and the colour |
| Raster.EdgeCrossing | rasterize.cpp:237-257 | an edge that a row meets contributes one or two x values |
| Raster.CrossingOnEdgeLine | rasterize.cpp:246-253 | in the sloped case the crossing lies on the line through the edge's ends at height y |
| Raster.LineThroughTwoPoints | rasterize.cpp:248-253 | `(y + m * x0 - y0) / m` with `m` the slope lies on the line through the two points |
| Raster.OrderSpan | rasterize.cpp:291-295 | no span exactly when there are fewer than two crossings, or they need swapping and there are fewer than four edge entries; otherwise the first two crossings come out ordered and are those given, in either order; an ordered span is kept; a swap exchanges the edge pairs 0-1 and 2-3; the rest is unchanged |
| Raster.RowCrossesTwoEdges | rasterize.cpp:237-295 | a row strictly between the lowest and highest vertex meets two edges, so the reads at 291-295 are in range |
| Raster.BoxedRowCrosses | rasterize.cpp:230-295 | every row the scan visits for a boxed face has two crossings and four edge entries |
| Raster.WeightsSumToOne | rasterize.cpp:307-311 | the barycentric weights sum to 1 |
| Raster.WeightsAtVertices | rasterize.cpp:307-311 | at vertex k of a non-degenerate triangle the weights are the k-th unit triple |
| Raster.DepthAtVertices | rasterize.cpp:312-315 | at the vertices the interpolated depth is the vertex's own z |
| Raster.FixedColours | rasterize.cpp:317-458 | WHITE paints white, NONE and RANDOM paint the face colour, TEXTURE paints nothing |
| Raster.ToneOfUnitInRange | rasterize.cpp:324-331 | a normal component in [-1, 1] gives a defined channel |
| Raster.PaintIsAllowed | rasterize.cpp:317-458 | every colour painted is one the shading mode allows for some face |
| Raster.ZIndexValue | rasterize.cpp:316 | the z-buffer cell is `row * w + w / 2 + i` |
| Raster.ZIndexIsNotRowMajor | rasterize.cpp:316 | for w >= 2 that cell is never the row-major cell of the pixel |
| Raster.ZIndexWrapsIntoNextRow | rasterize.cpp:459 | column i + w of a row shares its cell with column i of the next row |
| Raster.ZIndexOverrunsLastRow | rasterize.cpp:303-316 | in the last row, columns from w - w / 2 on index past the w * h cells |
| Raster.ZIndexOverrunExample | rasterize.cpp:316 | for w = 2, h = 1, pixel (0, 1) indexes cell 2 of a 2-cell buffer |
| Raster.InitZBuffer | rasterize.cpp:122-125 | the z-buffer has w * h cells (none when that is not positive), all 2 |
| Raster.DepthsFromFreshBuffer | rasterize.cpp:316-459 | starting from 2s, cells that only go down hold 2 or a depth in [0, 1] |
| Raster.FragmentOverrun | rasterize.cpp:316 | a pixel overruns the z-buffer exactly when it has a depth and its cell lies past the end |
| Raster.FragmentRejected | rasterize.cpp:316-460 | when the z test fails, or the pixel stops, neither buffer changes |
| Raster.FragmentWrites | rasterize.cpp:316-459 | when the test passes, the cell takes the depth and the pixel takes the colour, if there is one and it lies inside the image |
| Raster.FragmentTextureDrawsNothing | rasterize.cpp:453-459 | TEXTURE never changes the image |
| Raster.FragmentKeepsInvariants | rasterize.cpp:316-459 | a pixel only lowers cells, to depths in [0, 1], and only paints allowed colours |
| Raster.ShadeFragment | rasterize.cpp:305-460 | the in-place pixel step leaves exactly the status and buffers of `FragmentStep`, and keeps both invariants |
| Raster.SpanEffect | rasterize.cpp:303-461 | definition of the columns of one span; properties in Raster.SpanPastRightEdge, Raster.SpanBeforeLeftEdge and Raster.SpanAtRightEdge |
| Raster.SpanPastRightEdge | rasterize.cpp:304 | columns right of w are skipped: from there the span changes nothing |
| Raster.SpanBeforeLeftEdge | rasterize.cpp:304 | columns left of 0 are skipped: a span starting there acts as one starting at column 0 |
| Raster.SpanAtRightEdge | rasterize.cpp:303-304 | a span reaching past column w ends with exactly that column's step, and leaves the image unchanged |
| Raster.RowEffect | rasterize.cpp:228-463 | definition of the faces of one row |
| Raster.RowsEffect | rasterize.cpp:226-465 | definition of the rows of the scan |
| Raster.ScanSpan | rasterize.cpp:303-461 | the column loop leaves exactly the status and buffers of `SpanEffect` from column `(int)x0`, and keeps both invariants |
| Raster.ScanRow | rasterize.cpp:228-463 | the face loop of one row leaves exactly the status and buffers of `RowEffect`, and keeps both invariants |
| Raster.ScanRows | rasterize.cpp:226-465 | the row loop leaves exactly the status and buffers of `RowsEffect`, and keeps both invariants |
| Raster.SetupFaces | rasterize.cpp:171-223 | every face in the array is replaced by its setup |
| Raster.Rasterize | rasterize.cpp:115-469 | a w x h image in which every pixel is black or a colour the mode paints; only black and white under WHITE; all black under TEXTURE; the status and image are those of `RowsEffect` from a black image and a z-buffer of 2s over the set-up faces |

## Left out

- OBJ loading through tinyobj and the building of faces from mesh indices (rasterize.cpp:127-169) are a foreign library: `Rasterize` takes the face list `mesh` as input.
- Camera-file parsing and its message box in `load_camera` (rasterize.cpp:28-83) are file I/O and UI. The `Camera` constructor takes the settings, and `UpdateMatrices` covers the matrix code that `load_camera` repeats.
- `std::rand` for RANDOM (rasterize.cpp:216-219) is nondeterministic: the colours are the parameter `drawn`, one per face.
- `length()` (vec4.cpp:133-136) uses `sqrt`: `normalize`, `norm` and `UpdateMatrices` take the length as the function parameter `length`.
- `dist2` (rasterize.cpp:24-26) and the colours of NORM_GOURAUD and NORM_GOURAUD_Z (rasterize.cpp:332-372, 387-426) use `sqrt`: their colour is the parameter `gouraud`. The model keeps only their read of `edge_intersects[0..3]`.
- `mat4::rot` (mat4.cpp:65-81) uses trigonometry. `mat4::view` is declared in mat4.h but never defined.
- Stream printing (vec4.cpp:176-181, mat4.cpp:278-289) and `read_ppm`/`write_ppm` (ppm.cpp:15-54) are I/O.
- Copy constructors and assignment operators are implicit in the value semantics of `Vec4`, `Mat4`, `Face` and `Pixel`.
- Float rounding, infinities and NaN are not modelled: all arithmetic is exact real arithmetic.
- ImOp.GrayIsGray: that a gray pixel is kept and that graying is idempotent hold only in exact arithmetic; so do ImOp.GrayscaledIsGray's second `grayscale` changing nothing and ImOp.LumaBetween's lower bound. In IEEE double `.299 * v + .587 * v + .114 * v` can fall just below `v` (for `v = 1` it is 0.9999999999999999, which the `int` conversion truncates to 0), so the C++ darkens some gray levels by one. That the three channels come out equal holds either way.
- im_op.h, the Qt window (img_viewer.cc, img_viewer.h) and ImageViewControls are UI glue, or declarations whose bodies are not shown.
- The alpha channel and pixel formats of `QImage` are not modelled: the three operations see only red, green and blue.
- The diagnostics written to stderr are not modelled. These are `img_init`'s message for bad dimensions (ppm.cpp:57-60) and the "option not handled" error that TEXTURE prints for every pixel passing the depth test (rasterize.cpp:453-457). `FragmentStep` returns status `Done` with `NoPaint` there, and nothing records the report. Nor is the warning QImage gives for `setPixel` at column `w`, outside the image (the `setPixel` calls of rasterize.cpp:317-452), which it otherwise ignores, as `FragmentStep` does.
- `malloc` failure and `int` overflow of `w * h` are not modelled.
- Vec.Div: requires a non-zero divisor, because the IEEE infinities of `v / 0` are not modelled. The same holds for Vec.Vec4Ref.DivAssign, Mat.Over and Mat.Mat4Ref.DivAssign.
- Mat.Proj: requires r != l, t != b and f != n, for the same reason. The same holds for Raster.Camera.UpdateMatrices and Raster.Camera.UpdateProjection.
- Raster.Project: requires every vertex to have a non-zero clip w (`Projectable`), since the perspective divide by 0 is not modelled. Raster.SetupFace, Raster.SetupFaces and Raster.Rasterize carry the same requirement.
- Raster.Rasterize: requires w > 0 and h > 0; QImage gives a null image otherwise, which is not modelled. Its exact result is stated through `RowsEffect`, and the z-buffer it discards is not returned.
- Raster.ShadeFragment: stops with `Unmodelled` where the C++ divides by zero (a degenerate triangle, a zero vertex depth or a zero interpolated inverse depth) or narrows an out-of-range value to `unsigned char`. It does not go on with IEEE values.
- Raster.ScanRow: stops with `Unmodelled(row, -1)` before the span when a face's row has fewer than two crossings, where the C++ reads `intersects[1]` past the end of the vector. Under NORM_GOURAUD and NORM_GOURAUD_Z it also stops there when there are fewer than four edge entries. The C++ reads `edge_intersects[0..3]` only for a pixel that passes the depth test, so the model stops earlier than the C++ would misbehave. `BoxedRowCrosses` shows that neither stop happens for a row strictly inside a face's box.
- Raster.DepthAtVertices: requires non-zero vertex depths, for the reciprocal.
