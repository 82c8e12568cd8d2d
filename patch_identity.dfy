/**
 * Drawing at 1:1 scale shows the picture the converter decodes.
 *
 * On an unscaled buffer, with the plain writer, a patch placed at (0, 0)
 * whose offsets are zero is copied post by post: screen column x shows
 * texture column x, screen row y texture row y.  For a patch whose posts
 * each hold at least one pixel and end inside the picture (the posts that
 * neither the converter's clip nor its zero-count stop touches), every
 * screen pixel a post covers ends up holding the pixel V_PatchToLinear
 * puts at the same place, and every other byte is left alone.
 */
module PatchIdentity {
  import opened Bytes
  import opened Blend
  import opened ColumnDraw
  import opened PatchDraw
  import PatchDecode

  /** The posts from byte offset c on each hold 1 .. h - topdelta pixels
      inside the blob, and the column ends with its 0xFF marker. */
  predicate PostsFit(p: seq<byte>, c: int, h: int)
    decreases |p| - c
  {
    0 <= c < |p| &&
    (p[c] == PatchDecode.END_OF_COLUMN ||
     (c + 1 < |p| && 1 <= p[c + 1] && p[c] + p[c + 1] <= h && c + 3 + p[c + 1] <= |p| &&
      PostsFit(p, c + 4 + p[c + 1], h)))
  }

  /** Column k's offset entry lies in the blob and its posts fit. */
  predicate ColumnFits(p: seq<byte>, k: int, h: int) {
    0 <= k && PatchDecode.HEADER_SIZE + 4 * k + 4 <= |p| &&
    PostsFit(p, I32(p, PatchDecode.HEADER_SIZE + 4 * k), h)
  }

  /** A patch with zero offsets, no larger than the buffer, whose columns
      all fit. */
  ghost predicate Tidy(p: seq<byte>, b: VBuffer)
    requires b.Valid()
  {
    PatchDecode.HEADER_SIZE <= |p| && I16(p, 4) == 0 && I16(p, 6) == 0 &&
    0 <= I16(p, 0) <= b.width && 0 <= I16(p, 2) <= b.height &&
    forall k :: 0 <= k < I16(p, 0) ==> ColumnFits(p, k, I16(p, 2))
  }

  /** An unscaled buffer and the plain writer. */
  ghost predicate Plain(pen: Pen, b: VBuffer) {
    b.Valid() && !b.scaled && Fits(pen) && pen.style == Normal
  }

  /** Byte (x, y) of the buffer. */
  function PixelAt(buf: seq<byte>, b: VBuffer, x: int, y: int): byte
    requires b.Valid() && |buf| == b.data.Length && 0 <= x < b.width && 0 <= y < b.height
  {
    CellInRange(y, x, b.pitch, b.height);
    buf[y * b.pitch + x]
  }

  /** Rows 0 .. h-1 of column x of the buffer. */
  function BufCol(buf: seq<byte>, b: VBuffer, x: int, h: nat): (col: seq<byte>)
    requires b.Valid() && |buf| == b.data.Length && 0 <= x < b.width && h <= b.height
    ensures |col| == h
  {
    seq(h, y requires 0 <= y < h => PixelAt(buf, b, x, y))
  }

  /** Nothing but rows 0 .. h-1 of columns lo .. hi-1 changed. */
  ghost predicate OnlyRect(before: seq<byte>, after: seq<byte>, b: VBuffer, lo: int, hi: int, h: int)
    requires b.Valid()
  {
    |after| == |before| &&
    forall idx :: 0 <= idx < |before| && !(lo <= idx % b.pitch < hi && idx / b.pitch < h) ==> after[idx] == before[idx]
  }

  /** Columns that a change confined to other columns leaves untouched
      read the same. */
  lemma OtherColumnKept(before: seq<byte>, after: seq<byte>, b: VBuffer, lo: int, hi: int, h: nat, x: int)
    requires b.Valid() && |before| == b.data.Length && OnlyRect(before, after, b, lo, hi, h)
    requires 0 <= x < b.width && h <= b.height && !(lo <= x < hi)
    ensures BufCol(after, b, x, h) == BufCol(before, b, x, h)
  {
    forall y | 0 <= y < h
      ensures BufCol(after, b, x, h)[y] == BufCol(before, b, x, h)[y]
    {
      var idx := y * b.pitch + x;
      CellInRange(y, x, b.pitch, b.height);
      DivMod(y, x, b.pitch);
      assert after[idx] == before[idx];
    }
  }

  /** One post of a fitting column is handed to the writer unclipped, from
      texture row 0. */
  lemma PostClip(b: VBuffer, h: nat, p: seq<byte>, c: int)
    requires b.Valid() && !b.scaled && h <= b.height
    requires PostsFit(p, c, h) && p[c] != PatchDecode.END_OF_COLUMN
    ensures var top, len: int := p[c], p[c + 1];
            UnscaledPost(b, 0, p, c) == Draw(top, top + len - 1, 0, c + 4 + len)
  {
  }

  /** The plain writer on rows top .. top + len - 1 from texture row 0
      copies the len bytes at `start` there and changes nothing else. */
  lemma PlainCopy(buf: seq<byte>, pen: Pen, b: VBuffer, x: int, top: nat, len: nat, p: seq<byte>, start: nat)
    requires Plain(pen, b) && |buf| == b.data.Length && 0 <= x < b.width
    requires 1 <= len && top + len <= b.height && start + len <= |p|
    ensures var d := Column(buf, pen, b, x, top, top + len - 1, 0, FRACUNIT, p, start);
            d.outcome == Drawn &&
            forall idx :: 0 <= idx < |buf| ==>
              d.pixels[idx] == if idx % b.pitch == x && top <= idx / b.pitch < top + len
                               then p[start + idx / b.pitch - top] else buf[idx]
  {
    var f0 := 0 + LowBits16(top * FRACUNIT);
    assert f0 == 0;
    assert top + len - 1 - top + 1 == len;
    PlainSamples(p, start, len);
    assert ReadsIn(p, start, f0, FRACUNIT, len);
    var d := Column(buf, pen, b, x, top, top + len - 1, 0, FRACUNIT, p, start);
    assert d.outcome == Drawn;
    ColumnEffect(buf, pen, b, x, top, top + len - 1, 0, FRACUNIT, p, start);
    forall idx | 0 <= idx < |buf| && idx % b.pitch == x && top <= idx / b.pitch < top + len
      ensures d.pixels[idx] == p[start + idx / b.pitch - top]
    {
      var i := idx / b.pitch - top;
      assert Sample(p, start, 0, FRACUNIT, len, i) == p[start + i];
      OpaqueStyles(pen, p[start + i], buf[idx]);
    }
  }

  /** ... and so paints its pixels on rows topdelta .. topdelta + length - 1
      of column x, inside rows 0 .. h-1. */
  lemma PostPaints(buf: seq<byte>, pen: Pen, b: VBuffer, x: int, h: nat, p: seq<byte>, c: int)
    requires Plain(pen, b) && |buf| == b.data.Length && 0 <= x < b.width && h <= b.height
    requires PostsFit(p, c, h) && p[c] != PatchDecode.END_OF_COLUMN
    ensures var top, len: int := p[c], p[c + 1];
            var d := Column(buf, pen, b, x, top, top + len - 1, 0, FRACUNIT, p, c + 3);
            d.outcome == Drawn && OnlyRect(buf, d.pixels, b, x, x + 1, h) &&
            BufCol(d.pixels, b, x, h) == PatchDecode.Paint(BufCol(buf, b, x, h), top, p[c + 3..c + 3 + len])
  {
    var top, len: nat := p[c], p[c + 1];
    var start := c + 3;
    var run := p[start..start + len];
    PlainCopy(buf, pen, b, x, top, len, p, start);
    var d := Column(buf, pen, b, x, top, top + len - 1, 0, FRACUNIT, p, start);
    forall y | 0 <= y < h
      ensures BufCol(d.pixels, b, x, h)[y] == PatchDecode.Paint(BufCol(buf, b, x, h), top, run)[y]
    {
      CellInRange(y, x, b.pitch, b.height);
      DivMod(y, x, b.pitch);
    }
  }

  /** Stepping one texture row per screen row from texture row 0, row i of
      a run reads the run's byte i. */
  lemma PlainSamples(p: seq<byte>, start: int, len: int)
    requires 0 <= start && start + len <= |p|
    ensures ReadsIn(p, start, 0, FRACUNIT, len)
    ensures forall i :: 0 <= i < len ==> Sample(p, start, 0, FRACUNIT, len, i) == p[start + i]
  {
    forall i | 0 <= i < len
      ensures FixedToInt(Lin(0, FRACUNIT, i)) == i
    {
    }
  }

  /** The draw of a fitting column succeeds, changes only rows 0 .. h-1 of
      column x, and leaves there what the converter's walk over the same
      posts paints onto the column's old contents. */
  lemma {:induction false} WalkPaints(buf: seq<byte>, pen: Pen, b: VBuffer, x: int, h: nat, p: seq<byte>, c: int)
    requires Plain(pen, b) && |buf| == b.data.Length && 0 <= x < b.width && h <= b.height
    requires PostsFit(p, c, h)
    ensures var d := Walk(false, buf, pen, b, x, 0, FRACUNIT, p, c);
            var col := PatchDecode.WalkPosts(p, c, BufCol(buf, b, x, h));
            d.outcome == Drawn && col.Ok? && OnlyRect(buf, d.pixels, b, x, x + 1, h) &&
            BufCol(d.pixels, b, x, h) == col.value
    decreases |p| - c
  {
    if p[c] != PatchDecode.END_OF_COLUMN {
      var top, len: int := p[c], p[c + 1];
      var next := c + 4 + len;
      PostClip(b, h, p, c);
      PostPaints(buf, pen, b, x, h, p, c);
      var d := Column(buf, pen, b, x, top, top + len - 1, 0, FRACUNIT, p, c + 3);
      assert PatchDecode.ClippedCount(top, len, h) == len;
      WalkPaints(d.pixels, pen, b, x, h, p, next);
      assert Walk(false, buf, pen, b, x, 0, FRACUNIT, p, c) == Walk(false, d.pixels, pen, b, x, 0, FRACUNIT, p, next);
    }
  }

  /** Where column k's posts start (-1 when its offset entry is missing). */
  function ColumnOffset(p: seq<byte>, k: int): int {
    if 0 <= k && PatchDecode.HEADER_SIZE + 4 * k + 4 <= |p| then I32(p, PatchDecode.HEADER_SIZE + 4 * k) else -1
  }

  /** A change inside columns lo .. mid-1 followed by one inside columns
      mid .. hi-1 is one inside columns lo .. hi-1. */
  lemma OnlyRectJoin(b1: seq<byte>, b2: seq<byte>, b3: seq<byte>, b: VBuffer, lo: int, mid: int, hi: int, h: int)
    requires b.Valid() && lo <= mid <= hi
    requires OnlyRect(b1, b2, b, lo, mid, h) && OnlyRect(b2, b3, b, mid, hi, h)
    ensures OnlyRect(b1, b3, b, lo, hi, h)
  {
  }

  /** Screen column px with the counter at px * FRACUNIT draws texture
      column px, and the loop goes on at px + 1 with the counter one
      FRACUNIT further. */
  lemma ColumnStep(buf: seq<byte>, pen: Pen, b: VBuffer, p: seq<byte>, w: int, px: nat)
    requires Fits(pen) && b.Valid() && |buf| == b.data.Length && px < w
    requires PatchDecode.HEADER_SIZE + 4 * px + 4 <= |p|
    ensures var one := ColumnAt(buf, pen, b, p, w, 0, FRACUNIT, px, px * FRACUNIT);
            one == Walk(b.scaled, buf, pen, b, px, 0, FRACUNIT, p, ColumnOffset(p, px)) &&
            (one.outcome == Drawn ==>
               Columns(buf, pen, b, p, w, 0, FRACUNIT, px, w - 1, px * FRACUNIT, FRACUNIT) ==
               Columns(one.pixels, pen, b, p, w, 0, FRACUNIT, px + 1, w - 1, (px + 1) * FRACUNIT, FRACUNIT))
  {
    assert FixedToInt(px * FRACUNIT) == px;
    assert (px + 1) * FRACUNIT == px * FRACUNIT + FRACUNIT;
  }

  /** The column loop from screen column px to w - 1, with the texture
      column counter at px: every column gets its own posts, and nothing
      outside rows 0 .. h-1 of those columns changes. */
  lemma {:induction false} ColumnsPaint(buf: seq<byte>, pen: Pen, b: VBuffer, p: seq<byte>, w: int, h: nat, px: nat)
    requires Plain(pen, b) && |buf| == b.data.Length && w <= b.width && h <= b.height && px <= w
    requires forall k :: 0 <= k < w ==> ColumnFits(p, k, h)
    ensures var d := Columns(buf, pen, b, p, w, 0, FRACUNIT, px, w - 1, px * FRACUNIT, FRACUNIT);
            d.outcome == Drawn && OnlyRect(buf, d.pixels, b, px, w, h) &&
            forall x :: px <= x < w ==>
              PatchDecode.WalkPosts(p, ColumnOffset(p, x), BufCol(buf, b, x, h)).Ok? &&
              BufCol(d.pixels, b, x, h) == PatchDecode.WalkPosts(p, ColumnOffset(p, x), BufCol(buf, b, x, h)).value
    decreases w - px
  {
    if px < w {
      assert ColumnFits(p, px, h);
      ColumnStep(buf, pen, b, p, w, px);
      var one := Walk(false, buf, pen, b, px, 0, FRACUNIT, p, ColumnOffset(p, px));
      WalkPaints(buf, pen, b, px, h, p, ColumnOffset(p, px));
      ColumnsPaint(one.pixels, pen, b, p, w, h, px + 1);
      var d := Columns(one.pixels, pen, b, p, w, 0, FRACUNIT, px + 1, w - 1, (px + 1) * FRACUNIT, FRACUNIT);
      OnlyRectJoin(buf, one.pixels, d.pixels, b, px, px + 1, w, h);
      forall x | px <= x < w
        ensures PatchDecode.WalkPosts(p, ColumnOffset(p, x), BufCol(buf, b, x, h)).Ok?
        ensures BufCol(d.pixels, b, x, h) == PatchDecode.WalkPosts(p, ColumnOffset(p, x), BufCol(buf, b, x, h)).value
      {
        if x == px {
          OtherColumnKept(one.pixels, d.pixels, b, px + 1, w, h, x);
        } else {
          OtherColumnKept(buf, one.pixels, b, px, px + 1, h, x);
        }
      }
    }
  }

  /** A fitting column's walk succeeds over any background. */
  lemma {:induction false} FitWalks(p: seq<byte>, c: int, col: seq<byte>)
    requires PostsFit(p, c, |col|)
    ensures PatchDecode.WalkPosts(p, c, col).Ok?
    decreases |p| - c
  {
    if p[c] != PatchDecode.END_OF_COLUMN {
      var top, len: int := p[c], p[c + 1];
      assert PatchDecode.ClippedCount(top, len, |col|) == len;
      FitWalks(p, c + 4 + len, PatchDecode.Paint(col, top, p[c + 3..c + 3 + len]));
    }
  }

  /** Two backgrounds that agree on row y give walks that agree on row y. */
  lemma {:induction false} SameRowKept(p: seq<byte>, c: int, col1: seq<byte>, col2: seq<byte>, y: int)
    requires |col1| == |col2| && 0 <= y < |col1| && col1[y] == col2[y]
    requires PatchDecode.WalkPosts(p, c, col1).Ok?
    ensures PatchDecode.WalkPosts(p, c, col2).Ok?
    ensures PatchDecode.WalkPosts(p, c, col1).value[y] == PatchDecode.WalkPosts(p, c, col2).value[y]
    decreases |p| - c
  {
    PatchDecode.BackgroundShowsThroughGaps(p, c, col1, col2);
  }

  /** A row some post covers shows the same pixel over any background. */
  lemma {:induction false} CoveredSame(p: seq<byte>, c: int, col1: seq<byte>, col2: seq<byte>, y: int)
    requires |col1| == |col2| && 0 <= y < |col1| && PatchDecode.Covers(p, c, |col1|, y)
    requires PatchDecode.WalkPosts(p, c, col1).Ok?
    ensures PatchDecode.WalkPosts(p, c, col2).Ok?
    ensures PatchDecode.WalkPosts(p, c, col1).value[y] == PatchDecode.WalkPosts(p, c, col2).value[y]
    decreases |p| - c
  {
    var count := PatchDecode.ClippedCount(p[c], p[c + 1], |col1|);
    var run := p[c + 3..c + 3 + count];
    var col1', col2' := PatchDecode.Paint(col1, p[c], run), PatchDecode.Paint(col2, p[c], run);
    if p[c] <= y < p[c] + count {
      SameRowKept(p, c + 4 + count, col1', col2', y);
    } else {
      CoveredSame(p, c + 4 + count, col1', col2', y);
    }
  }

  /** The converter decodes a tidy patch, and pixel (x, y) of the result
      is the walk of column x's posts over the fill colour. */
  lemma TidyDecodes(p: seq<byte>, b: VBuffer, fill: byte)
    requires b.Valid() && Tidy(p, b)
    ensures var img := PatchDecode.Decoded(p, false, fill);
            var w, h := I16(p, 0), I16(p, 2);
            img.Ok? && img.value.width == w && img.value.height == h && |img.value.pixels| == w * h &&
            forall x, y :: 0 <= x < w && 0 <= y < h ==>
              PatchDecode.WalkPosts(p, ColumnOffset(p, x), seq(h, _ => fill)).Ok? &&
              PatchDecode.At(img.value.pixels, w, h, x, y) ==
              PatchDecode.WalkPosts(p, ColumnOffset(p, x), seq(h, _ => fill)).value[y]
  {
    var w, h := I16(p, 0), I16(p, 2);
    forall x | 0 <= x < w
      ensures PatchDecode.SourceColumn(p, PatchDecode.Mirror(false, w, x), h, fill) ==
              PatchDecode.WalkPosts(p, ColumnOffset(p, x), seq(h, _ => fill))
      ensures PatchDecode.WalkPosts(p, ColumnOffset(p, x), seq(h, _ => fill)).Ok?
    {
      assert ColumnFits(p, x, h);
      FitWalks(p, ColumnOffset(p, x), seq(h, _ => fill));
    }
    assert PatchDecode.HeaderOk(p);
    assert PatchDecode.ColumnsOk(p, false, fill);
    PatchDecode.DecodedPixels(p, false, fill);
  }

  /** V_DrawPatchInt of a tidy patch at (0, 0), unscaled and plain,
      succeeds; column x shows the walk of its posts over its old
      contents, and nothing outside the patch's rectangle changes. */
  lemma TidyDraws(buf: seq<byte>, tables: Pen, b: VBuffer, p: seq<byte>)
    requires Plain(tables.(style := Normal), b) && |buf| == b.data.Length && Tidy(p, b)
    ensures var d := DrawnPatch(buf, tables, b, PatchInfo(0, 0, p, false, Normal));
            var w, h := I16(p, 0), I16(p, 2);
            d.outcome == Drawn && OnlyRect(buf, d.pixels, b, 0, w, h) &&
            forall x :: 0 <= x < w ==>
              PatchDecode.WalkPosts(p, ColumnOffset(p, x), BufCol(buf, b, x, h)).Ok? &&
              BufCol(d.pixels, b, x, h) == PatchDecode.WalkPosts(p, ColumnOffset(p, x), BufCol(buf, b, x, h)).value
  {
    var w, h := I16(p, 0), I16(p, 2);
    var pen := tables.(style := Normal);
    if w == 0 {
      assert PlanOf(b, false, 0, 0, 0) == Skip;
    } else {
      assert PlanOf(b, false, 0, 0, w) == Visit(0, w - 1, 0, FRACUNIT);
      ColumnsPaint(buf, pen, b, p, w, h, 0);
      assert DrawnPatch(buf, tables, b, PatchInfo(0, 0, p, false, Normal)) ==
             Columns(buf, pen, b, p, w, 0, FRACUNIT, 0, w - 1, 0 * FRACUNIT, FRACUNIT);
    }
  }

  /** V_DrawPatchInt at 1:1 scale with the plain writer, of a tidy patch
      at (0, 0): it succeeds, the converter decodes the same patch, every
      pixel a post covers shows the decoded pixel, every other pixel of
      the patch's rectangle keeps its old byte, and nothing outside the
      rectangle changes. */
  lemma UnscaledShowsDecoded(buf: seq<byte>, tables: Pen, b: VBuffer, p: seq<byte>, fill: byte)
    requires Plain(tables.(style := Normal), b) && |buf| == b.data.Length && Tidy(p, b)
    ensures var d := DrawnPatch(buf, tables, b, PatchInfo(0, 0, p, false, Normal));
            var img := PatchDecode.Decoded(p, false, fill);
            var w, h := I16(p, 0), I16(p, 2);
            d.outcome == Drawn && img.Ok? && img.value.width == w && img.value.height == h &&
            |img.value.pixels| == w * h && |d.pixels| == |buf| &&
            (forall x, y :: 0 <= x < w && 0 <= y < h ==>
               PixelAt(d.pixels, b, x, y) ==
                 if PatchDecode.Covers(p, ColumnOffset(p, x), h, y)
                 then PatchDecode.At(img.value.pixels, w, h, x, y)
                 else PixelAt(buf, b, x, y)) &&
            (forall idx :: 0 <= idx < |buf| && !(idx % b.pitch < w && idx / b.pitch < h) ==> d.pixels[idx] == buf[idx])
  {
    var w, h := I16(p, 0), I16(p, 2);
    var d := DrawnPatch(buf, tables, b, PatchInfo(0, 0, p, false, Normal));
    TidyDecodes(p, b, fill);
    TidyDraws(buf, tables, b, p);
    var img := PatchDecode.Decoded(p, false, fill).value;
    forall x, y | 0 <= x < w && 0 <= y < h
      ensures PixelAt(d.pixels, b, x, y) ==
                if PatchDecode.Covers(p, ColumnOffset(p, x), h, y)
                then PatchDecode.At(img.pixels, w, h, x, y)
                else PixelAt(buf, b, x, y)
    {
      var c := ColumnOffset(p, x);
      var back := BufCol(buf, b, x, h);
      var fillcol: seq<byte> := seq(h, _ => fill);
      assert PixelAt(d.pixels, b, x, y) == BufCol(d.pixels, b, x, h)[y];
      if PatchDecode.Covers(p, c, h, y) {
        CoveredSame(p, c, back, fillcol, y);
      } else {
        PatchDecode.UncoveredKeepsBackground(p, c, back, y);
      }
    }
    forall idx | 0 <= idx < |buf| && !(idx % b.pitch < w && idx / b.pitch < h)
      ensures d.pixels[idx] == buf[idx]
    {
      assert 0 <= idx % b.pitch;
    }
  }

  /** A column whose first byte is the end marker draws nothing, on any
      buffer and with any writer. */
  lemma EmptyColumnDrawsNothing(scaled: bool, buf: seq<byte>, pen: Pen, b: VBuffer, x: int, ytop: int, step: int, p: seq<byte>, c: int)
    requires Fits(pen) && b.Valid() && (scaled ==> b.scaled) && |buf| == b.data.Length
    requires 0 <= c < |p| && p[c] == PatchDecode.END_OF_COLUMN
    ensures Walk(scaled, buf, pen, b, x, ytop, step, p, c) == Drawing(buf, Drawn)
  {
  }
}
