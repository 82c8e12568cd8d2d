/**
 * The patch picture format and its conversion to a linear (row-major)
 * bitmap, as performed by V_PatchToLinear.
 *
 * A patch blob starts with four signed 16-bit little-endian fields (width,
 * height, left offset, top offset) followed by `width` signed 32-bit byte
 * offsets, one per column.  A column is a list of posts
 * `{topdelta, length, pad, pixels[length], pad}` ended by a topdelta of 0xFF.
 *
 * Two views of decoding are given:
 *  - the column view (`WalkPosts`, `SourceColumn`): painting the posts of
 *    one column onto a column of fill colour, which is what a column of the
 *    picture means;
 *  - the flat view (`WalkFlat`, `DecodeColumns`, `Decoded`): the same writes
 *    applied in place to one w*h buffer in the order the converter performs
 *    them, which is what the method in PatchCodec is proved against.
 * `DecodedPixels` connects the two.
 */
module PatchDecode {
  import opened Bytes

  datatype Error =
    | Truncated   // a read would fall outside the blob
    | BadSize     // a negative width, or a negative height under a positive width

  datatype Result<T> = Ok(value: T) | Err(error: Error)

  /** A linear bitmap: pixel (x, y) is `pixels[y * width + x]`.  The height
      is the header's, which a zero-width picture may hold negative. */
  datatype Linear = Linear(pixels: seq<byte>, width: nat, height: int)

  const HEADER_SIZE: nat := 8
  const END_OF_COLUMN: byte := 0xFF

  /** Number of rows a post of `length` pixels starting at row `top` keeps
      after clipping to a column of height h (it may be zero or negative). */
  function ClippedCount(top: int, length: int, h: int): (n: int)
    ensures n <= length && n <= h - top
    ensures n == length || n == h - top
  {
    var diff := (length + top) - h;
    if diff > 0 then length - diff else length
  }

  /** Byte offset of column k's first post, as stored in the columnofs table. */
  function ColumnStart(p: seq<byte>, k: nat): (r: Result<int>)
    ensures r.Err? <==> |p| < HEADER_SIZE + 4 * k + 4
  {
    if HEADER_SIZE + 4 * k + 4 <= |p| then Ok(I32(p, HEADER_SIZE + 4 * k))
    else Err(Truncated)
  }

  /** Output column k shows source column `Mirror(flipped, w, k)`. */
  function Mirror(flipped: bool, w: int, k: int): int {
    if flipped then w - 1 - k else k
  }

  // ---------------------------------------------------------------------
  // Column view

  /** `run` painted over `col` from row `top` down. */
  function Paint(col: seq<byte>, top: nat, run: seq<byte>): (r: seq<byte>)
    requires top + |run| <= |col|
    ensures |r| == |col|
    ensures forall y :: 0 <= y < |col| ==>
              r[y] == if top <= y < top + |run| then run[y - top] else col[y]
  {
    col[..top] + run + col[top + |run|..]
  }

  /** The posts starting at byte offset c, painted in order onto `col`
      (whose length is the picture height).  A post left with no rows after
      clipping ends the column; the next post is read just after the last
      byte copied, i.e. at `c + 4 + count`. */
  function WalkPosts(p: seq<byte>, c: int, col: seq<byte>): (r: Result<seq<byte>>)
    ensures r.Ok? ==> |r.value| == |col|
    ensures r.Err? ==> r.error == Truncated
    decreases |p| - c
  {
    if c < 0 || c >= |p| then Err(Truncated)
    else if p[c] == END_OF_COLUMN then Ok(col)
    else if c + 1 >= |p| then Err(Truncated)
    else
      var count := ClippedCount(p[c], p[c + 1], |col|);
      if count <= 0 then Ok(col)
      else if c + 3 + count > |p| then Err(Truncated)
      else WalkPosts(p, c + 4 + count, Paint(col, p[c], p[c + 3..c + 3 + count]))
  }

  /** Source column k of a picture of height h over a background of `fill`. */
  function SourceColumn(p: seq<byte>, k: nat, h: nat, fill: byte): (r: Result<seq<byte>>)
    ensures r.Ok? ==> |r.value| == h
  {
    match ColumnStart(p, k)
    case Err(e) => Err(e)
    case Ok(c) => WalkPosts(p, c, seq(h, _ => fill))
  }

  // ---------------------------------------------------------------------
  // Flat view

  /** Pixel (x, y) of a w*h row-major buffer. */
  function At(img: seq<byte>, w: int, h: int, x: int, y: int): byte
    requires 0 <= x < w && 0 <= y < h && |img| >= w * h
  {
    CellInRange(y, x, w, h);
    img[y * w + x]
  }

  /** The buffer with pixel (x, y) replaced by v. */
  function SetAt(img: seq<byte>, w: int, h: int, x: int, y: int, v: byte): (r: seq<byte>)
    requires 0 <= x < w && 0 <= y < h && |img| == w * h
    ensures |r| == |img|
  {
    CellInRange(y, x, w, h);
    img[y * w + x := v]
  }

  /** Column x of a w*h row-major buffer. */
  function Column(img: seq<byte>, w: int, h: nat, x: int): (col: seq<byte>)
    requires 0 <= x < w && |img| >= w * h
    ensures |col| == h
    ensures forall y :: 0 <= y < h ==> col[y] == At(img, w, h, x, y)
  {
    seq(h, y requires 0 <= y < h => At(img, w, h, x, y))
  }

  /** A post's pixels stored one row apart in column x, from row `top` down. */
  function PaintFlat(buf: seq<byte>, w: int, h: int, x: int, top: nat, run: seq<byte>): (r: seq<byte>)
    requires 0 <= x < w && |buf| == w * h && top + |run| <= h
    ensures |r| == |buf|
    decreases |run|
  {
    if |run| == 0 then buf
    else
      PaintFlat(SetAt(buf, w, h, x, top, run[0]), w, h, x, top + 1, run[1..])
  }

  /** The posts starting at byte offset c, stored into column x of `buf`. */
  function WalkFlat(p: seq<byte>, c: int, w: int, h: nat, x: int, buf: seq<byte>): (r: Result<seq<byte>>)
    requires 0 <= x < w && |buf| == w * h
    ensures r.Ok? ==> |r.value| == |buf|
    ensures r.Err? ==> r.error == Truncated
    decreases |p| - c
  {
    if c < 0 || c >= |p| then Err(Truncated)
    else if p[c] == END_OF_COLUMN then Ok(buf)
    else if c + 1 >= |p| then Err(Truncated)
    else
      var count := ClippedCount(p[c], p[c + 1], h);
      if count <= 0 then Ok(buf)
      else if c + 3 + count > |p| then Err(Truncated)
      else WalkFlat(p, c + 4 + count, w, h, x, PaintFlat(buf, w, h, x, p[c], p[c + 3..c + 3 + count]))
  }

  /** Output columns k .. w-1, each filled from its mirrored source column. */
  function DecodeColumns(p: seq<byte>, flipped: bool, w: int, h: nat, k: nat, buf: seq<byte>): (r: Result<seq<byte>>)
    requires k <= w && |buf| == w * h
    ensures r.Ok? ==> |r.value| == |buf|
    ensures r.Err? ==> r.error == Truncated
    decreases w - k
  {
    if k == w then Ok(buf)
    else
      match ColumnStart(p, Mirror(flipped, w, k))
      case Err(e) => Err(e)
      case Ok(c) =>
        match WalkFlat(p, c, w, h, k, buf)
        case Err(e) => Err(e)
        case Ok(b) => DecodeColumns(p, flipped, w, h, k + 1, b)
  }

  /** A w*h buffer of one colour (the memset before the columns are read). */
  function FillBuffer(w: nat, h: nat, fill: byte): (b: seq<byte>)
    ensures |b| == w * h
  {
    MulNonneg(w, h);
    seq(w * h, _ => fill)
  }

  /** The header can be read, its width is not negative, and its height is
      not negative unless the width is zero (then `w * h` is zero and no
      column is read, whatever the height). */
  predicate HeaderOk(p: seq<byte>) {
    4 <= |p| && I16(p, 0) >= 0 && (I16(p, 0) == 0 || I16(p, 2) >= 0)
  }

  function Width(p: seq<byte>): nat
    requires HeaderOk(p)
  {
    I16(p, 0)
  }

  function Height(p: seq<byte>): int
    requires HeaderOk(p)
  {
    I16(p, 2)
  }

  /** The whole conversion: a w*h buffer of fill colour, then every column.
      A zero-width picture is the empty buffer with the header's height. */
  function Decoded(p: seq<byte>, flipped: bool, fill: byte): (r: Result<Linear>)
    ensures r.Err? ==> (r.error == BadSize <==> 4 <= |p| && !HeaderOk(p))
    ensures 4 <= |p| && I16(p, 0) == 0 ==> r == Ok(Linear([], 0, I16(p, 2)))
  {
    if !HeaderOk(p) then (if |p| < 4 then Err(Truncated) else Err(BadSize))
    else if Width(p) == 0 then Ok(Linear([], 0, Height(p)))
    else
      var w, h := Width(p), Height(p);
      match DecodeColumns(p, flipped, w, h, 0, FillBuffer(w, h, fill))
      case Err(e) => Err(e)
      case Ok(b) => Ok(Linear(b, w, h))
  }

  // ---------------------------------------------------------------------
  // From the flat view to the column view

  /** Writing one cell changes that cell and no other. */
  lemma UpdateAt(buf: seq<byte>, w: int, h: int, x: int, y: int, v: byte)
    requires 0 <= x < w && 0 <= y < h && |buf| == w * h
    ensures forall x', y' :: 0 <= x' < w && 0 <= y' < h ==>
              At(SetAt(buf, w, h, x, y, v), w, h, x', y') == if x' == x && y' == y then v else At(buf, w, h, x', y')
  {
    CellInRange(y, x, w, h);
    forall x', y' | 0 <= x' < w && 0 <= y' < h
      ensures At(SetAt(buf, w, h, x, y, v), w, h, x', y') == if x' == x && y' == y then v else At(buf, w, h, x', y')
    {
      CellInRange(y', x', w, h);
      if y' * w + x' == y * w + x {
        CellInjective(y', x', y, x, w);
      }
    }
  }

  lemma {:induction false} PaintFlatAt(buf: seq<byte>, w: int, h: int, x: int, top: nat, run: seq<byte>)
    requires 0 <= x < w && |buf| == w * h && top + |run| <= h
    ensures forall x', y' :: 0 <= x' < w && 0 <= y' < h ==>
              At(PaintFlat(buf, w, h, x, top, run), w, h, x', y') ==
              if x' == x && top <= y' < top + |run| then run[y' - top] else At(buf, w, h, x', y')
    decreases |run|
  {
    if |run| > 0 {
      var buf' := SetAt(buf, w, h, x, top, run[0]);
      UpdateAt(buf, w, h, x, top, run[0]);
      PaintFlatAt(buf', w, h, x, top + 1, run[1..]);
      forall x', y' | 0 <= x' < w && 0 <= y' < h
        ensures At(PaintFlat(buf, w, h, x, top, run), w, h, x', y') ==
                if x' == x && top <= y' < top + |run| then run[y' - top] else At(buf, w, h, x', y')
      {
        assert At(PaintFlat(buf', w, h, x, top + 1, run[1..]), w, h, x', y') ==
               if x' == x && top + 1 <= y' < top + |run| then run[1..][y' - top - 1] else At(buf', w, h, x', y');
      }
    }
  }

  lemma ColumnOfPaintFlat(buf: seq<byte>, w: int, h: nat, x: int, top: nat, run: seq<byte>)
    requires 0 <= x < w && |buf| == w * h && top + |run| <= h
    ensures Column(PaintFlat(buf, w, h, x, top, run), w, h, x) == Paint(Column(buf, w, h, x), top, run)
  {
    PaintFlatAt(buf, w, h, x, top, run);
  }

  /** Walking the posts in place in column x paints the column view of x and
      leaves every other column alone; both walks fail on the same blobs. */
  lemma {:induction false} WalkFlatColumn(p: seq<byte>, c: int, w: int, h: nat, x: int, buf: seq<byte>)
    requires 0 <= x < w && |buf| == w * h
    ensures WalkFlat(p, c, w, h, x, buf).Ok? == WalkPosts(p, c, Column(buf, w, h, x)).Ok?
    ensures WalkFlat(p, c, w, h, x, buf).Ok? ==>
              forall x', y' :: 0 <= x' < w && 0 <= y' < h ==>
                At(WalkFlat(p, c, w, h, x, buf).value, w, h, x', y') ==
                if x' == x then WalkPosts(p, c, Column(buf, w, h, x)).value[y'] else At(buf, w, h, x', y')
    decreases |p| - c
  {
    if c < 0 || c >= |p| || p[c] == END_OF_COLUMN || c + 1 >= |p| {
    } else {
      var count := ClippedCount(p[c], p[c + 1], h);
      if count > 0 && c + 3 + count <= |p| {
        var run := p[c + 3..c + 3 + count];
        var buf' := PaintFlat(buf, w, h, x, p[c], run);
        ColumnOfPaintFlat(buf, w, h, x, p[c], run);
        PaintFlatAt(buf, w, h, x, p[c], run);
        WalkFlatColumn(p, c + 4 + count, w, h, x, buf');
      }
    }
  }

  /** A column of the buffer that holds nothing but the fill colour. */
  ghost predicate FillFrom(buf: seq<byte>, w: int, h: int, k: int, fill: byte)
    requires |buf| == w * h
  {
    forall x, y :: k <= x < w && 0 <= y < h && 0 <= x ==> At(buf, w, h, x, y) == fill
  }

  lemma FillBufferIsFill(w: nat, h: nat, fill: byte)
    ensures FillFrom(FillBuffer(w, h, fill), w, h, 0, fill)
  {
    var b := FillBuffer(w, h, fill);
    forall x, y | 0 <= x < w && 0 <= y < h
      ensures At(b, w, h, x, y) == fill
    {
      CellInRange(y, x, w, h);
    }
  }

  lemma {:induction false} DecodeColumnsAt(p: seq<byte>, flipped: bool, w: int, h: nat, k: nat, buf: seq<byte>, fill: byte)
    requires k <= w && |buf| == w * h && FillFrom(buf, w, h, k, fill)
    ensures DecodeColumns(p, flipped, w, h, k, buf).Ok? <==>
              forall x {:trigger Mirror(flipped, w, x)} :: k <= x < w ==> SourceColumn(p, Mirror(flipped, w, x), h, fill).Ok?
    ensures DecodeColumns(p, flipped, w, h, k, buf).Ok? ==>
              forall x, y :: 0 <= x < w && 0 <= y < h ==>
                At(DecodeColumns(p, flipped, w, h, k, buf).value, w, h, x, y) ==
                if x < k then At(buf, w, h, x, y) else SourceColumn(p, Mirror(flipped, w, x), h, fill).value[y]
    decreases w - k
  {
    if k < w {
      assert Column(buf, w, h, k) == seq(h, _ => fill);
      match ColumnStart(p, Mirror(flipped, w, k))
      case Err(e) =>
      case Ok(c) =>
        WalkFlatColumn(p, c, w, h, k, buf);
        match WalkFlat(p, c, w, h, k, buf)
        case Err(e) =>
        case Ok(b) =>
          DecodeColumnsAt(p, flipped, w, h, k + 1, b, fill);
    }
  }

  /** Every source column an output column shows can be walked. */
  ghost predicate ColumnsOk(p: seq<byte>, flipped: bool, fill: byte)
    requires HeaderOk(p)
  {
    forall x :: 0 <= x < Width(p) ==> SourceColumn(p, Mirror(flipped, Width(p), x), Height(p), fill).Ok?
  }

  /** `img` is the picture `p` describes: the header's size, and pixel (x, y)
      is row y of the source column that output column x mirrors, painted
      over the fill colour. */
  ghost predicate Depicts(img: Linear, p: seq<byte>, flipped: bool, fill: byte)
    requires HeaderOk(p) && ColumnsOk(p, flipped, fill)
  {
    img.width == Width(p) && img.height == Height(p) &&
    |img.pixels| == img.width * img.height &&
    forall x, y :: 0 <= x < img.width && 0 <= y < img.height ==>
      At(img.pixels, img.width, img.height, x, y) ==
      SourceColumn(p, Mirror(flipped, img.width, x), img.height, fill).value[y]
  }

  /** The conversion succeeds exactly when the header is readable, its sizes
      pass `HeaderOk` and every column walk succeeds, and then its result is
      the picture the blob describes. */
  lemma DecodedPixels(p: seq<byte>, flipped: bool, fill: byte)
    ensures Decoded(p, flipped, fill).Ok? <==> HeaderOk(p) && ColumnsOk(p, flipped, fill)
    ensures Decoded(p, flipped, fill).Ok? ==> Depicts(Decoded(p, flipped, fill).value, p, flipped, fill)
  {
    if HeaderOk(p) && Width(p) > 0 {
      var w, h := Width(p), Height(p);
      var buf := FillBuffer(w, h, fill);
      FillBufferIsFill(w, h, fill);
      DecodeColumnsAt(p, flipped, w, h, 0, buf, fill);
      var r := DecodeColumns(p, flipped, w, h, 0, buf);
      assert Decoded(p, flipped, fill) == if r.Ok? then Ok(Linear(r.value, w, h)) else Err(r.error);
      if r.Ok? {
        assert ColumnsOk(p, flipped, fill);
        assert Depicts(Linear(r.value, w, h), p, flipped, fill);
      }
    }
  }

  // ---------------------------------------------------------------------
  // Properties

  /** Flipping mirrors the picture left to right: the flipped conversion
      succeeds exactly when the plain one does, and pixel (x, y) of the one is
      pixel (w-1-x, y) of the other. */
  lemma FlipMirrors(p: seq<byte>, fill: byte)
    ensures Decoded(p, true, fill).Ok? == Decoded(p, false, fill).Ok?
    ensures Decoded(p, true, fill).Ok? ==>
              var a, b := Decoded(p, true, fill).value, Decoded(p, false, fill).value;
              a.width == b.width && a.height == b.height &&
              forall x, y :: 0 <= x < a.width && 0 <= y < a.height ==>
                At(a.pixels, a.width, a.height, x, y) == At(b.pixels, b.width, b.height, a.width - 1 - x, y)
  {
    DecodedPixels(p, true, fill);
    DecodedPixels(p, false, fill);
    if HeaderOk(p) {
      var w := Width(p);
      if ColumnsOk(p, false, fill) {
        forall x | 0 <= x < w
          ensures SourceColumn(p, Mirror(true, w, x), Height(p), fill).Ok?
        {
          assert Mirror(true, w, x) == Mirror(false, w, w - 1 - x);
        }
      }
      if ColumnsOk(p, true, fill) {
        forall x | 0 <= x < w
          ensures SourceColumn(p, Mirror(false, w, x), Height(p), fill).Ok?
        {
          assert Mirror(false, w, x) == Mirror(true, w, w - 1 - x);
        }
      }
    }
  }

  /** Posts overwrite rows and leave the rest of the column as it was: walking
      the same posts over two backgrounds succeeds on both or neither, and
      every row either holds the same post pixel in both results or shows
      each background's own row. */
  lemma {:induction false} BackgroundShowsThroughGaps(p: seq<byte>, c: int, col1: seq<byte>, col2: seq<byte>)
    requires |col1| == |col2|
    ensures WalkPosts(p, c, col1).Ok? == WalkPosts(p, c, col2).Ok?
    ensures WalkPosts(p, c, col1).Ok? ==>
              forall y :: 0 <= y < |col1| ==>
                WalkPosts(p, c, col1).value[y] == WalkPosts(p, c, col2).value[y] ||
                (WalkPosts(p, c, col1).value[y] == col1[y] && WalkPosts(p, c, col2).value[y] == col2[y])
    decreases |p| - c
  {
    if c < 0 || c >= |p| || p[c] == END_OF_COLUMN || c + 1 >= |p| {
    } else {
      var count := ClippedCount(p[c], p[c + 1], |col1|);
      if count > 0 && c + 3 + count <= |p| {
        var run := p[c + 3..c + 3 + count];
        BackgroundShowsThroughGaps(p, c + 4 + count, Paint(col1, p[c], run), Paint(col2, p[c], run));
      }
    }
  }

  /** Row y is painted by one of the posts walked from byte offset c. */
  predicate Covers(p: seq<byte>, c: int, h: nat, y: int)
    decreases |p| - c
  {
    if c < 0 || c >= |p| || p[c] == END_OF_COLUMN || c + 1 >= |p| then false
    else
      var count := ClippedCount(p[c], p[c + 1], h);
      if count <= 0 || c + 3 + count > |p| then false
      else (p[c] <= y < p[c] + count) || Covers(p, c + 4 + count, h, y)
  }

  /** A row no post covers keeps its background colour. */
  lemma {:induction false} UncoveredKeepsBackground(p: seq<byte>, c: int, col: seq<byte>, y: int)
    requires 0 <= y < |col| && !Covers(p, c, |col|, y)
    ensures WalkPosts(p, c, col).Ok? ==> WalkPosts(p, c, col).value[y] == col[y]
    decreases |p| - c
  {
    if c < 0 || c >= |p| || p[c] == END_OF_COLUMN || c + 1 >= |p| {
    } else {
      var count := ClippedCount(p[c], p[c + 1], |col|);
      if count > 0 && c + 3 + count <= |p| {
        var col' := Paint(col, p[c], p[c + 3..c + 3 + count]);
        UncoveredKeepsBackground(p, c + 4 + count, col', y);
      }
    }
  }
}
