/**
 * The in-place image operations of im_op.cpp: `grayscale`, `flip` and `flop`.
 *
 * They work on an image whose pixel `(x, y)` is column x of row y; here the
 * image is an `Img` of ppm.h, so that pixel is `Get(y, x)`. Each operation
 * is a method that rewrites the pixel buffer in place and is proved against
 * a function on the buffer's contents (`Grayscaled`, `Flipped`, `Flopped`);
 * the properties of the operations are lemmas about those functions.
 */
module ImOp {
  import opened Ppm

  // ---------------------------------------------------------------------
  // grayscale
  // ---------------------------------------------------------------------

  /** `(int) (.299 * r + .587 * g + .114 * b)` */
  function Luma(p: Pixel): int {
    Trunc(0.299 * p.r as real + 0.587 * p.g as real + 0.114 * p.b as real)
  }

  function Min3(a: int, b: int, c: int): int {
    if a <= b && a <= c then a else if b <= c then b else c
  }

  function Max3(a: int, b: int, c: int): int {
    if a >= b && a >= c then a else if b >= c then b else c
  }

  /**
   * The weights sum to 1, so the luma lies between the smallest and the
   * largest channel; in particular it fits in an unsigned char, and the
   * `& 0xff` of `qRgb` never changes it.
   */
  lemma LumaBetween(p: Pixel)
    ensures Min3(p.r, p.g, p.b) <= Luma(p) <= Max3(p.r, p.g, p.b)
    ensures 0 <= Luma(p) < 256
  {
    var lo, hi := Min3(p.r, p.g, p.b) as real, Max3(p.r, p.g, p.b) as real;
    var v := 0.299 * p.r as real + 0.587 * p.g as real + 0.114 * p.b as real;
    assert lo <= v <= hi;
  }

  /** `qRgb(val, val, val)` with `val` the luma of the pixel. */
  function Gray(p: Pixel): Pixel {
    LumaBetween(p);
    var v := Luma(p);
    Pixel(v, v, v)
  }

  /** A gray pixel has three equal channels, and graying a gray pixel keeps it. */
  lemma GrayIsGray(p: Pixel)
    ensures Gray(p).r == Gray(p).g == Gray(p).b
    ensures p.r == p.g == p.b ==> Gray(p) == p
    ensures Gray(Gray(p)) == Gray(p)
  {
    var v := p.r as real;
    if p.r == p.g == p.b {
      assert 0.299 * v + 0.587 * v + 0.114 * v == v;
    }
    var g := Luma(p) as real;
    assert 0.299 * g + 0.587 * g + 0.114 * g == g;
  }

  /** The buffer after `grayscale`: every pixel replaced by its gray. */
  function Grayscaled(s: seq<Pixel>): (t: seq<Pixel>)
    ensures |t| == |s|
  {
    seq(|s|, k requires 0 <= k < |s| => Gray(s[k]))
  }

  /** After `grayscale` every pixel has r == g == b, and a second pass changes nothing. */
  lemma GrayscaledIsGray(s: seq<Pixel>)
    ensures forall k :: 0 <= k < |s| ==> Grayscaled(s)[k].r == Grayscaled(s)[k].g == Grayscaled(s)[k].b
    ensures Grayscaled(Grayscaled(s)) == Grayscaled(s)
  {
    forall k | 0 <= k < |s|
      ensures Grayscaled(s)[k].r == Grayscaled(s)[k].g == Grayscaled(s)[k].b
      ensures Grayscaled(Grayscaled(s))[k] == Grayscaled(s)[k]
    {
      GrayIsGray(s[k]);
    }
  }

  /** A buffer that holds the gray of s cell by cell is `Grayscaled(s)`. */
  lemma GrayscaledByCells(t: seq<Pixel>, s: seq<Pixel>, w: int, h: int)
    requires w >= 0 && |s| == w * h && |t| == |s|
    requires forall i, j {:trigger Cell(t, w, h, i, j)} :: 0 <= i < h && 0 <= j < w ==> Cell(t, w, h, i, j) == Gray(Cell(s, w, h, i, j))
    ensures t == Grayscaled(s)
  {
    forall k | 0 <= k < |s|
      ensures t[k] == Grayscaled(s)[k]
    {
      IndexCovers(w, h, k);
      assert Cell(t, w, h, k / w, k % w) == Gray(Cell(s, w, h, k / w, k % w));
    }
  }

  /** `grayscale(in)`: rows top to bottom, each left to right, replaces every pixel by its gray. */
  method Grayscale(img: Img)
    requires img.Sized()
    modifies img.data
    ensures img.data[..] == Grayscaled(old(img.data[..]))
  {
    var w, h := img.w, img.h;
    ghost var s := img.data[..];
    IndexLayout(w, h);
    var i := 0;
    while i < h
      invariant 0 <= i <= h
      invariant forall r, c :: 0 <= r < h && 0 <= c < w ==>
        Cell(img.data[..], w, h, r, c) == if r < i then Gray(Cell(s, w, h, r, c)) else Cell(s, w, h, r, c)
    {
      var j := 0;
      while j < w
        invariant 0 <= j <= w
        invariant forall r, c :: 0 <= r < h && 0 <= c < w ==>
          Cell(img.data[..], w, h, r, c) ==
            if r < i || (r == i && c < j) then Gray(Cell(s, w, h, r, c)) else Cell(s, w, h, r, c)
      {
        img.data[Index(w, i, j)] := Gray(img.data[Index(w, i, j)]);
        j := j + 1;
      }
      i := i + 1;
    }
    GrayscaledByCells(img.data[..], s, w, h);
  }

  // ---------------------------------------------------------------------
  // flip: mirror every row
  // ---------------------------------------------------------------------

  /** The buffer after `flip`: pixel (i, j) takes the old pixel (i, w - 1 - j). */
  function Flipped(s: seq<Pixel>, w: int, h: int): (t: seq<Pixel>)
    requires w >= 0 && |s| == w * h
    ensures |t| == |s|
  {
    seq(|s|, k requires 0 <= k < |s| => MirroredInRow(s, w, h, k))
  }

  /** The pixel that row-mirroring brings to offset k. */
  function MirroredInRow(s: seq<Pixel>, w: int, h: int, k: int): Pixel
    requires w >= 0 && |s| == w * h && 0 <= k < |s|
  {
    IndexCovers(w, h, k);
    Cell(s, w, h, k / w, w - 1 - k % w)
  }

  /** Cell by cell, `Flipped` mirrors each row. */
  lemma FlippedCell(s: seq<Pixel>, w: int, h: int, i: int, j: int)
    requires w >= 0 && |s| == w * h
    requires 0 <= i < h && 0 <= j < w
    ensures Cell(Flipped(s, w, h), w, h, i, j) == Cell(s, w, h, i, w - 1 - j)
  {
    var k := Index(w, i, j);
    IndexSplits(w, h, i, j);
    IndexInRange(w, h, i, j);
    var t := Flipped(s, w, h);
    assert Cell(t, w, h, i, j) == t[k];
    assert t[k] == MirroredInRow(s, w, h, k);
    var q, r := k / w, k % w;
    assert MirroredInRow(s, w, h, k) == Cell(s, w, h, q, w - 1 - r);
  }

  /** A buffer that is the row mirror of s cell by cell is `Flipped(s)`. */
  lemma FlippedByCells(t: seq<Pixel>, s: seq<Pixel>, w: int, h: int)
    requires w >= 0 && |s| == w * h && |t| == |s|
    requires forall i, j {:trigger Cell(t, w, h, i, j)} :: 0 <= i < h && 0 <= j < w ==> Cell(t, w, h, i, j) == Cell(s, w, h, i, w - 1 - j)
    ensures t == Flipped(s, w, h)
  {
    forall k | 0 <= k < |s|
      ensures t[k] == Flipped(s, w, h)[k]
    {
      IndexCovers(w, h, k);
      assert Cell(t, w, h, k / w, k % w) == Cell(s, w, h, k / w, w - 1 - k % w);
    }
  }

  /** Flipping twice restores the image. */
  lemma FlipTwice(s: seq<Pixel>, w: int, h: int)
    requires w >= 0 && |s| == w * h
    ensures Flipped(Flipped(s, w, h), w, h) == s
  {
    forall i, j | 0 <= i < h && 0 <= j < w
      ensures Cell(Flipped(Flipped(s, w, h), w, h), w, h, i, j) == Cell(s, w, h, i, j)
    {
      FlippedCell(Flipped(s, w, h), w, h, i, j);
      FlippedCell(s, w, h, i, w - 1 - j);
    }
    SameCells(Flipped(Flipped(s, w, h), w, h), s, w, h);
  }

  /** Two `w * h` buffers with the same pixel at every `(i, j)` are equal. */
  lemma SameCells(t: seq<Pixel>, s: seq<Pixel>, w: int, h: int)
    requires w >= 0 && |s| == w * h && |t| == |s|
    requires forall i, j {:trigger Cell(t, w, h, i, j)} :: 0 <= i < h && 0 <= j < w ==> Cell(t, w, h, i, j) == Cell(s, w, h, i, j)
    ensures t == s
  {
    forall k | 0 <= k < |s|
      ensures t[k] == s[k]
    {
      IndexCovers(w, h, k);
      assert Cell(t, w, h, k / w, k % w) == Cell(s, w, h, k / w, k % w);
    }
  }

  /** `flip` only swaps columns j < w / 2 with their mirrors: in an odd width the middle column does not move. */
  lemma FlipKeepsMiddleColumn(s: seq<Pixel>, w: int, h: int, i: int)
    requires w >= 0 && |s| == w * h && w % 2 == 1 && 0 <= i < h
    ensures Cell(Flipped(s, w, h), w, h, i, w / 2) == Cell(s, w, h, i, w / 2)
  {
    FlippedCell(s, w, h, i, w / 2);
  }

  /** Row i of a `w * h` buffer, left to right. */
  function RowOf(s: seq<Pixel>, w: int, h: int, i: int): (row: seq<Pixel>)
    requires w >= 0 && |s| == w * h && 0 <= i < h
    ensures |row| == w
  {
    seq(w, j requires 0 <= j < w => Cell(s, w, h, i, j))
  }

  /** The sequence read backwards. */
  function Reverse(x: seq<Pixel>): (r: seq<Pixel>)
    ensures |r| == |x|
    ensures forall k :: 0 <= k < |x| ==> r[k] == x[|x| - 1 - k]
  {
    if |x| == 0 then [] else Reverse(x[1..]) + [x[0]]
  }

  lemma {:induction false} ReverseKeepsMultiset(x: seq<Pixel>)
    ensures multiset(Reverse(x)) == multiset(x)
  {
    if |x| > 0 {
      ReverseKeepsMultiset(x[1..]);
      assert x == [x[0]] + x[1..];
    }
  }

  /** Each row of the flipped image is the old row reversed, so it holds the same pixels. */
  lemma FlipPermutesRows(s: seq<Pixel>, w: int, h: int, i: int)
    requires w >= 0 && |s| == w * h && 0 <= i < h
    ensures RowOf(Flipped(s, w, h), w, h, i) == Reverse(RowOf(s, w, h, i))
    ensures multiset(RowOf(Flipped(s, w, h), w, h, i)) == multiset(RowOf(s, w, h, i))
  {
    FlipReversesRow(s, w, h, i);
    ReverseKeepsMultiset(RowOf(s, w, h, i));
  }

  lemma FlipReversesRow(s: seq<Pixel>, w: int, h: int, i: int)
    requires w >= 0 && |s| == w * h && 0 <= i < h
    ensures RowOf(Flipped(s, w, h), w, h, i) == Reverse(RowOf(s, w, h, i))
  {
    var flipped, row := RowOf(Flipped(s, w, h), w, h, i), RowOf(s, w, h, i);
    forall j | 0 <= j < w
      ensures flipped[j] == Reverse(row)[j]
    {
      FlippedCell(s, w, h, i, j);
    }
  }

  /** Exchanging the contents of two in-range cells, as `tmp = a; a = b; b = tmp` does. */
  lemma SwapCells(t: seq<Pixel>, w: int, h: int, r1: int, c1: int, r2: int, c2: int)
    requires |t| == w * h
    requires 0 <= r1 < h && 0 <= c1 < w && 0 <= r2 < h && 0 <= c2 < w
    ensures 0 <= Index(w, r1, c1) < |t| && 0 <= Index(w, r2, c2) < |t|
    ensures var u := t[Index(w, r1, c1) := t[Index(w, r2, c2)]][Index(w, r2, c2) := t[Index(w, r1, c1)]];
      |u| == |t| &&
      Cell(u, w, h, r1, c1) == Cell(t, w, h, r2, c2) && Cell(u, w, h, r2, c2) == Cell(t, w, h, r1, c1) &&
      forall r, c {:trigger Cell(u, w, h, r, c)} :: 0 <= r < h && 0 <= c < w && (r, c) != (r1, c1) && (r, c) != (r2, c2) ==>
        Cell(u, w, h, r, c) == Cell(t, w, h, r, c)
  {
    IndexInRange(w, h, r1, c1);
    IndexInRange(w, h, r2, c2);
    var p, q := Index(w, r1, c1), Index(w, r2, c2);
    var u := t[p := t[q]][q := t[p]];
    if p == q {
      IndexInjective(w, r1, c1, r2, c2);
    }
    forall r, c | 0 <= r < h && 0 <= c < w && (r, c) != (r1, c1) && (r, c) != (r2, c2)
      ensures Cell(u, w, h, r, c) == Cell(t, w, h, r, c)
    {
      IndexInRange(w, h, r, c);
      var k := Index(w, r, c);
      if k == p {
        IndexInjective(w, r, c, r1, c1);
      }
      if k == q {
        IndexInjective(w, r, c, r2, c2);
      }
    }
  }

  /**
   * Where `flip` stands in row i, column pair j: rows above i and the pairs
   * before j of row i are mirrored, everything else is as it was.
   */
  ghost predicate FlipProgress(t: seq<Pixel>, s: seq<Pixel>, w: int, h: int, i: int, j: int)
    requires w >= 0 && |s| == w * h && |t| == |s|
  {
    forall r, c {:trigger Cell(t, w, h, r, c)} :: 0 <= r < h && 0 <= c < w ==>
      Cell(t, w, h, r, c) ==
        if r < i || (r == i && (c < j || w - 1 - j < c)) then Cell(s, w, h, r, w - 1 - c) else Cell(s, w, h, r, c)
  }

  /** One swap of `flip` mirrors the next column pair of row i. */
  lemma FlipSwapStep(t: seq<Pixel>, s: seq<Pixel>, w: int, h: int, i: int, j: int)
    requires w >= 0 && |s| == w * h && |t| == |s|
    requires 0 <= i < h && 0 <= j < w / 2
    requires FlipProgress(t, s, w, h, i, j)
    ensures 0 <= Index(w, i, j) < |t| && 0 <= Index(w, i, w - 1 - j) < |t|
    ensures FlipProgress(t[Index(w, i, j) := t[Index(w, i, w - 1 - j)]][Index(w, i, w - 1 - j) := t[Index(w, i, j)]], s, w, h, i, j + 1)
  {
    SwapCells(t, w, h, i, j, i, w - 1 - j);
    assert j < w - 1 - j;
    assert Cell(t, w, h, i, j) == Cell(s, w, h, i, j);
    assert Cell(t, w, h, i, w - 1 - j) == Cell(s, w, h, i, w - 1 - j);
  }

  /** Once every pair of row i is swapped, the rows up to i are mirrored. */
  lemma FlipRowDone(t: seq<Pixel>, s: seq<Pixel>, w: int, h: int, i: int)
    requires w >= 0 && |s| == w * h && |t| == |s| && 0 <= i < h
    requires FlipProgress(t, s, w, h, i, w / 2)
    ensures FlipProgress(t, s, w, h, i + 1, 0)
  {
    forall r, c | 0 <= r < h && 0 <= c < w
      ensures Cell(t, w, h, r, c) == if r < i + 1 then Cell(s, w, h, r, w - 1 - c) else Cell(s, w, h, r, c)
    {
      assert Cell(t, w, h, r, c) ==
        if r < i || (r == i && (c < w / 2 || w - 1 - w / 2 < c)) then Cell(s, w, h, r, w - 1 - c) else Cell(s, w, h, r, c);
      if r == i && w / 2 <= c <= w - 1 - w / 2 {
        assert c == w - 1 - c;
      }
    }
  }

  /**
   * `flip(in)`: in every row, swaps pixel j with pixel w - 1 - j for
   * j < w / 2, through a temporary.
   */
  method Flip(img: Img)
    requires img.Sized()
    modifies img.data
    ensures img.data[..] == Flipped(old(img.data[..]), img.w, img.h)
  {
    var w, h := img.w, img.h;
    ghost var s := img.data[..];
    var i := 0;
    while i < h
      invariant 0 <= i <= h
      invariant FlipProgress(img.data[..], s, w, h, i, 0)
    {
      var j := 0;
      while j < w / 2
        invariant 0 <= j <= w / 2
        invariant FlipProgress(img.data[..], s, w, h, i, j)
      {
        FlipSwapStep(img.data[..], s, w, h, i, j);
        var tmp := img.data[Index(w, i, j)];
        img.data[Index(w, i, j)] := img.data[Index(w, i, w - j - 1)];
        img.data[Index(w, i, w - j - 1)] := tmp;
        j := j + 1;
      }
      FlipRowDone(img.data[..], s, w, h, i);
      i := i + 1;
    }
    FlippedByCells(img.data[..], s, w, h);
  }

  // ---------------------------------------------------------------------
  // flop: mirror every column
  // ---------------------------------------------------------------------

  /** The buffer after `flop`: pixel (i, j) takes the old pixel (h - 1 - i, j). */
  function Flopped(s: seq<Pixel>, w: int, h: int): (t: seq<Pixel>)
    requires w >= 0 && |s| == w * h
    ensures |t| == |s|
  {
    seq(|s|, k requires 0 <= k < |s| => MirroredInColumn(s, w, h, k))
  }

  /** The pixel that column-mirroring brings to offset k. */
  function MirroredInColumn(s: seq<Pixel>, w: int, h: int, k: int): Pixel
    requires w >= 0 && |s| == w * h && 0 <= k < |s|
  {
    IndexCovers(w, h, k);
    Cell(s, w, h, h - 1 - k / w, k % w)
  }

  /** Cell by cell, `Flopped` mirrors each column. */
  lemma FloppedCell(s: seq<Pixel>, w: int, h: int, i: int, j: int)
    requires w >= 0 && |s| == w * h
    requires 0 <= i < h && 0 <= j < w
    ensures Cell(Flopped(s, w, h), w, h, i, j) == Cell(s, w, h, h - 1 - i, j)
  {
    var k := Index(w, i, j);
    IndexSplits(w, h, i, j);
    IndexInRange(w, h, i, j);
    var t := Flopped(s, w, h);
    assert Cell(t, w, h, i, j) == t[k];
    assert t[k] == MirroredInColumn(s, w, h, k);
    var q, r := k / w, k % w;
    assert MirroredInColumn(s, w, h, k) == Cell(s, w, h, h - 1 - q, r);
  }

  /** A buffer that is the column mirror of s cell by cell is `Flopped(s)`. */
  lemma FloppedByCells(t: seq<Pixel>, s: seq<Pixel>, w: int, h: int)
    requires w >= 0 && |s| == w * h && |t| == |s|
    requires forall i, j {:trigger Cell(t, w, h, i, j)} :: 0 <= i < h && 0 <= j < w ==> Cell(t, w, h, i, j) == Cell(s, w, h, h - 1 - i, j)
    ensures t == Flopped(s, w, h)
  {
    forall k | 0 <= k < |s|
      ensures t[k] == Flopped(s, w, h)[k]
    {
      IndexCovers(w, h, k);
      assert Cell(t, w, h, k / w, k % w) == Cell(s, w, h, h - 1 - k / w, k % w);
    }
  }

  /** Flopping twice restores the image. */
  lemma FlopTwice(s: seq<Pixel>, w: int, h: int)
    requires w >= 0 && |s| == w * h
    ensures Flopped(Flopped(s, w, h), w, h) == s
  {
    forall i, j | 0 <= i < h && 0 <= j < w
      ensures Cell(Flopped(Flopped(s, w, h), w, h), w, h, i, j) == Cell(s, w, h, i, j)
    {
      FloppedCell(Flopped(s, w, h), w, h, i, j);
      FloppedCell(s, w, h, h - 1 - i, j);
    }
    SameCells(Flopped(Flopped(s, w, h), w, h), s, w, h);
  }

  /** `flop` only swaps rows j < h / 2 with their mirrors: in an odd height the middle row does not move. */
  lemma FlopKeepsMiddleRow(s: seq<Pixel>, w: int, h: int, j: int)
    requires w >= 0 && |s| == w * h && h % 2 == 1 && 0 <= j < w
    ensures Cell(Flopped(s, w, h), w, h, h / 2, j) == Cell(s, w, h, h / 2, j)
  {
    FloppedCell(s, w, h, h / 2, j);
  }

  /** Column j of a `w * h` buffer, top to bottom. */
  function ColumnOf(s: seq<Pixel>, w: int, h: int, j: int): (col: seq<Pixel>)
    requires w >= 0 && h >= 0 && |s| == w * h && 0 <= j < w
    ensures |col| == h
  {
    seq(h, i requires 0 <= i < h => Cell(s, w, h, i, j))
  }

  /** Each column of the flopped image is the old column reversed, so it holds the same pixels. */
  lemma FlopPermutesColumns(s: seq<Pixel>, w: int, h: int, j: int)
    requires w >= 0 && h >= 0 && |s| == w * h && 0 <= j < w
    ensures ColumnOf(Flopped(s, w, h), w, h, j) == Reverse(ColumnOf(s, w, h, j))
    ensures multiset(ColumnOf(Flopped(s, w, h), w, h, j)) == multiset(ColumnOf(s, w, h, j))
  {
    forall i | 0 <= i < h
      ensures ColumnOf(Flopped(s, w, h), w, h, j)[i] == Reverse(ColumnOf(s, w, h, j))[i]
    {
      FloppedCell(s, w, h, i, j);
    }
    ReverseKeepsMultiset(ColumnOf(s, w, h, j));
  }

  /**
   * Where `flop` stands in column i, row pair j: columns left of i and the
   * pairs before j of column i are mirrored, everything else is as it was.
   */
  ghost predicate FlopProgress(t: seq<Pixel>, s: seq<Pixel>, w: int, h: int, i: int, j: int)
    requires w >= 0 && |s| == w * h && |t| == |s|
  {
    forall r, c {:trigger Cell(t, w, h, r, c)} :: 0 <= r < h && 0 <= c < w ==>
      Cell(t, w, h, r, c) ==
        if c < i || (c == i && (r < j || h - 1 - j < r)) then Cell(s, w, h, h - 1 - r, c) else Cell(s, w, h, r, c)
  }

  /** One swap of `flop` mirrors the next row pair of column i. */
  lemma FlopSwapStep(t: seq<Pixel>, s: seq<Pixel>, w: int, h: int, i: int, j: int)
    requires w >= 0 && |s| == w * h && |t| == |s|
    requires 0 <= i < w && 0 <= j < h / 2
    requires FlopProgress(t, s, w, h, i, j)
    ensures 0 <= Index(w, j, i) < |t| && 0 <= Index(w, h - 1 - j, i) < |t|
    ensures FlopProgress(t[Index(w, j, i) := t[Index(w, h - 1 - j, i)]][Index(w, h - 1 - j, i) := t[Index(w, j, i)]], s, w, h, i, j + 1)
  {
    SwapCells(t, w, h, j, i, h - 1 - j, i);
    assert j < h - 1 - j;
    assert Cell(t, w, h, j, i) == Cell(s, w, h, j, i);
    assert Cell(t, w, h, h - 1 - j, i) == Cell(s, w, h, h - 1 - j, i);
  }

  /** Once every pair of column i is swapped, the columns up to i are mirrored. */
  lemma FlopColumnDone(t: seq<Pixel>, s: seq<Pixel>, w: int, h: int, i: int)
    requires w >= 0 && |s| == w * h && |t| == |s| && 0 <= i < w
    requires FlopProgress(t, s, w, h, i, h / 2)
    ensures FlopProgress(t, s, w, h, i + 1, 0)
  {
    forall r, c | 0 <= r < h && 0 <= c < w
      ensures Cell(t, w, h, r, c) == if c < i + 1 then Cell(s, w, h, h - 1 - r, c) else Cell(s, w, h, r, c)
    {
      assert Cell(t, w, h, r, c) ==
        if c < i || (c == i && (r < h / 2 || h - 1 - h / 2 < r)) then Cell(s, w, h, h - 1 - r, c) else Cell(s, w, h, r, c);
      if c == i && h / 2 <= r <= h - 1 - h / 2 {
        assert r == h - 1 - r;
      }
    }
  }

  /**
   * `flop(in)`: in every column, swaps the pixel of row j with the one of
   * row h - 1 - j for j < h / 2, through a temporary.
   */
  method Flop(img: Img)
    requires img.Sized()
    modifies img.data
    ensures img.data[..] == Flopped(old(img.data[..]), img.w, img.h)
  {
    var w, h := img.w, img.h;
    ghost var s := img.data[..];
    var i := 0;
    while i < w
      invariant 0 <= i <= w
      invariant FlopProgress(img.data[..], s, w, h, i, 0)
    {
      var j := 0;
      while j < h / 2
        invariant 0 <= j <= h / 2
        invariant FlopProgress(img.data[..], s, w, h, i, j)
      {
        FlopSwapStep(img.data[..], s, w, h, i, j);
        var tmp := img.data[Index(w, j, i)];
        img.data[Index(w, j, i)] := img.data[Index(w, h - j - 1, i)];
        img.data[Index(w, h - j - 1, i)] := tmp;
        j := j + 1;
      }
      FlopColumnDone(img.data[..], s, w, h, i);
      i := i + 1;
    }
    FloppedByCells(img.data[..], s, w, h);
  }
}
