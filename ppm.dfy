/**
 * The image buffer of ppm.h / ppm.cpp.
 *
 * A `pixel_t` is three unsigned chars; an `img_t` is a width, a height and
 * a heap buffer of `w * h` pixels addressed row-major: `(i, j)` is row i,
 * column j, stored at `data[i * w + j]`. `img_init` allocates and zeroes the
 * buffer, the two `operator()` read and write one cell, and `img_destroy`
 * frees the buffer and nulls the caller's pointer.
 */
module Ppm {

  /** An `unsigned char`. */
  type Byte = x: int | 0 <= x < 256

  /** `pixel_t`: three unsigned-char channels. */
  datatype Pixel = Pixel(r: Byte, g: Byte, b: Byte)

  /** The all-zero pixel that `memset(…, 0, …)` produces. */
  const Black: Pixel := Pixel(0, 0, 0)

  /** `(int) v` for a float or double v: C truncates toward zero. */
  function Trunc(v: real): (n: int)
    ensures v >= 0.0 ==> n as real <= v < n as real + 1.0
    ensures v < 0.0 ==> n as real - 1.0 < v <= n as real
  {
    if v >= 0.0 then v.Floor else -((-v).Floor)
  }

  /**
   * `(unsigned char) v` for a float or double v. The conversion is defined
   * only when the truncated value fits in 0 .. 255; anything else is
   * undefined behaviour in C++, here `None`.
   */
  function Narrow(v: real): (r: Option<Byte>)
    ensures r.Some? <==> -1.0 < v < 256.0
    ensures r.Some? ==> r.value == Trunc(v)
  {
    var n := Trunc(v);
    if 0 <= n < 256 then Some(n) else None
  }

  datatype Option<T> = None | Some(value: T)

  /** The offset `i * w + j` at which `operator()(i, j)` finds its cell. */
  function Index(w: int, i: int, j: int): int {
    i * w + j
  }

  /** Pixel `(i, j)` of a buffer of `w * h` pixels: the value `operator()(i, j)` reads. */
  function Cell(s: seq<Pixel>, w: int, h: int, i: int, j: int): Pixel
    requires |s| == w * h && 0 <= i < h && 0 <= j < w
  {
    IndexInRange(w, h, i, j);
    s[Index(w, i, j)]
  }

  /** Every in-range `(i, j)` lands inside the `w * h` cells. */
  lemma IndexInRange(w: int, h: int, i: int, j: int)
    requires 0 <= i < h && 0 <= j < w
    ensures 0 <= Index(w, i, j) < w * h
  {
    assert i * w <= (h - 1) * w by { MulLeq(i, h - 1, w); }
    assert (h - 1) * w == h * w - w;
  }

  /** Distinct in-range pairs land on distinct cells. */
  lemma IndexInjective(w: int, i1: int, j1: int, i2: int, j2: int)
    requires 0 <= j1 < w && 0 <= j2 < w
    requires Index(w, i1, j1) == Index(w, i2, j2)
    ensures i1 == i2 && j1 == j2
  {
    if i1 < i2 {
      MulLeq(i1 + 1, i2, w);
    } else if i2 < i1 {
      MulLeq(i2 + 1, i1, w);
    }
  }

  /** Every cell of a `w * h` buffer is the cell of exactly the pair `(k / w, k % w)`. */
  lemma IndexCovers(w: int, h: int, k: int)
    requires w >= 0 && 0 <= k < w * h
    ensures 0 <= k / w < h && 0 <= k % w < w
    ensures Index(w, k / w, k % w) == k
  {
    assert k == (k / w) * w + k % w;
    if k / w >= h {
      MulLeq(h, k / w, w);
    }
  }

  /** Dividing the offset of an in-range pair by w gives the pair back. */
  lemma IndexSplits(w: int, h: int, i: int, j: int)
    requires 0 <= i < h && 0 <= j < w
    ensures Index(w, i, j) / w == i && Index(w, i, j) % w == j
  {
    IndexInRange(w, h, i, j);
    var k := Index(w, i, j);
    IndexCovers(w, h, k);
    IndexInjective(w, k / w, k % w, i, j);
  }

  /** The offsets of all in-range pairs lie in the buffer and are pairwise distinct. */
  lemma IndexLayout(w: int, h: int)
    ensures forall i, j :: 0 <= i < h && 0 <= j < w ==> 0 <= Index(w, i, j) < w * h
    ensures forall i1, j1, i2, j2 :: 0 <= j1 < w && 0 <= j2 < w && Index(w, i1, j1) == Index(w, i2, j2) ==> i1 == i2 && j1 == j2
  {
    forall i, j | 0 <= i < h && 0 <= j < w
      ensures 0 <= Index(w, i, j) < w * h
    {
      IndexInRange(w, h, i, j);
    }
    forall i1, j1, i2, j2 | 0 <= j1 < w && 0 <= j2 < w && Index(w, i1, j1) == Index(w, i2, j2)
      ensures i1 == i2 && j1 == j2
    {
      IndexInjective(w, i1, j1, i2, j2);
    }
  }

  lemma MulLeq(a: int, b: int, w: int)
    requires a <= b && w >= 0
    ensures a * w <= b * w
  {
    assert b * w - a * w == (b - a) * w;
  }

  /**
   * Writing one cell through the reference that `operator()(i, j)` hands back
   * changes that cell and leaves every other in-range pair as it was.
   */
  lemma WriteTouchesOneCell(s: seq<Pixel>, w: int, h: int, i: int, j: int, p: Pixel, i2: int, j2: int)
    requires |s| == w * h
    requires 0 <= i < h && 0 <= j < w && 0 <= i2 < h && 0 <= j2 < w
    requires (i2, j2) != (i, j)
    ensures 0 <= Index(w, i, j) < |s| && 0 <= Index(w, i2, j2) < |s|
    ensures s[Index(w, i, j) := p][Index(w, i, j)] == p
    ensures s[Index(w, i, j) := p][Index(w, i2, j2)] == s[Index(w, i2, j2)]
  {
    IndexInRange(w, h, i, j);
    IndexInRange(w, h, i2, j2);
    if Index(w, i, j) == Index(w, i2, j2) {
      IndexInjective(w, i, j, i2, j2);
    }
  }

  /** `img_t`. After `img_destroy` its `data` is NULL. */
  class Img {
    var data: array?<Pixel>
    var w: int
    var h: int

    /** A live image: a buffer of exactly `w * h` cells for positive dimensions. */
    ghost predicate Valid()
      reads this
    {
      data != null && w > 0 && h > 0 && data.Length == w * h
    }

    /**
     * A buffer of exactly `w * h` cells, possibly none: the shape of any
     * image the in-place operations are given, including an empty one.
     */
    ghost predicate Sized()
      reads this
    {
      data != null && w >= 0 && h >= 0 && data.Length == w * h
    }

    /** The body of `img_init` once the dimensions are accepted: every cell zeroed. */
    constructor (w: int, h: int)
      requires w > 0 && h > 0
      ensures Valid() && this.w == w && this.h == h && fresh(data)
      ensures forall k :: 0 <= k < data.Length ==> data[k] == Black
    {
      this.w := w;
      this.h := h;
      data := new Pixel[w * h](_ => Black);
    }

    /** The const `operator()(i, j)`; the offset must fall inside the buffer. */
    function Get(i: int, j: int): Pixel
      reads this, data
      requires data != null && 0 <= Index(w, i, j) < data.Length
    {
      data[Index(w, i, j)]
    }

    /** A write through the reference-returning `operator()(i, j)`. */
    method Set(i: int, j: int, p: Pixel)
      requires data != null && 0 <= Index(w, i, j) < data.Length
      modifies data
      ensures data[..] == old(data[..])[Index(w, i, j) := p]
    {
      data[Index(w, i, j)] := p;
    }
  }

  /** `img_init(w, h)`: NULL unless both dimensions are positive, else a fresh all-zero image. */
  method ImgInit(w: int, h: int) returns (img: Img?)
    ensures img == null <==> !(w > 0 && h > 0)
    ensures img != null ==> fresh(img) && fresh(img.data) && img.Valid()
    ensures img != null ==> img.w == w && img.h == h
    ensures img != null ==> forall k :: 0 <= k < img.data.Length ==> img.data[k] == Black
  {
    if !(w > 0 && h > 0) {
      return null;
    }
    img := new Img(w, h);
  }

  /** The caller's `img_t *` variable that `img_destroy` receives the address of. */
  class ImgHandle {
    var img: Img?

    constructor (img: Img?)
      ensures this.img == img
    {
      this.img := img;
    }
  }

  /**
   * `img_destroy(&img)`: frees the buffer and the image, nulls `data` and
   * the caller's pointer, and returns the handle it was given (not NULL,
   * whatever the header comment says). `*img` must not be NULL.
   */
  method ImgDestroy(handle: ImgHandle) returns (r: ImgHandle)
    requires handle.img != null
    modifies handle, handle.img
    ensures r == handle
    ensures handle.img == null
    ensures old(handle.img).data == null
  {
    handle.img.data := null;
    handle.img := null;
    r := handle;
  }
}
