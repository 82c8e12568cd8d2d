/**
 * The destination buffer and the patch column context, and the six column
 * writers V_DrawPatchColumn … V_DrawPatchColumnAddTR.  The writers share
 * one loop: from row y1 to row y2 of column x they store, two rows per
 * pass, the shade of the patch byte at `frac >> 16` over the byte already
 * there, stepping `dest` by the pitch and `frac` by the vertical step.
 * The loop is proved equal to `Rows`, which paints the sampled bytes one
 * row at a time.
 */
module ColumnDraw {
  import opened Bytes
  import opened Blend

  /** How a draw ended: completely, or on the first condition that would
      abort it (a RANGECHECK I_Error) or make it read or write memory it
      does not own. */
  datatype Outcome = Drawn | RangeCheckFailed | ReadOutsidePatch | WriteOutsideBuffer | BadTextureColumn | LookupOutOfRange

  /** The destination contents after a draw, with how it ended. */
  datatype Drawing = Drawing(pixels: seq<byte>, outcome: Outcome)

  /** A VBuffer: a pitched byte buffer with its row and column address
      tables and, when scaled, the lookups from the 320x200 virtual screen
      to real coordinates. */
  class VBuffer {
    const data: array<byte>
    const width: int
    const height: int
    const pitch: int
    const ylut: seq<int>
    const xlut: seq<int>
    const scaled: bool
    const unscaledw: int
    const unscaledh: int
    const ixscale: int
    const iyscale: int
    const x1lookup: seq<int>
    const x2lookup: seq<int>
    const y1lookup: seq<int>
    const y2lookup: seq<int>

    constructor (data: array<byte>, width: int, height: int, pitch: int, ylut: seq<int>, xlut: seq<int>,
                 scaled: bool, unscaledw: int, unscaledh: int, ixscale: int, iyscale: int,
                 x1lookup: seq<int>, x2lookup: seq<int>, y1lookup: seq<int>, y2lookup: seq<int>)
      ensures this.data == data && this.width == width && this.height == height && this.pitch == pitch
      ensures this.ylut == ylut && this.xlut == xlut && this.scaled == scaled
      ensures this.unscaledw == unscaledw && this.unscaledh == unscaledh
      ensures this.ixscale == ixscale && this.iyscale == iyscale
      ensures this.x1lookup == x1lookup && this.x2lookup == x2lookup
      ensures this.y1lookup == y1lookup && this.y2lookup == y2lookup
    {
      this.data, this.width, this.height, this.pitch := data, width, height, pitch;
      this.ylut, this.xlut, this.scaled := ylut, xlut, scaled;
      this.unscaledw, this.unscaledh, this.ixscale, this.iyscale := unscaledw, unscaledh, ixscale, iyscale;
      this.x1lookup, this.x2lookup, this.y1lookup, this.y2lookup := x1lookup, x2lookup, y1lookup, y2lookup;
    }

    /** The shape of a set-up buffer: `ylut[y]` is the offset of row y and
        `xlut[x]` that of column x within it, the rows fit the data, and
        the scaling lookups cover the virtual screen. */
    ghost predicate Valid() {
      0 < width <= pitch && 0 <= height && pitch * height <= data.Length &&
      |ylut| == height && |xlut| == width &&
      (forall y :: 0 <= y < height ==> ylut[y] == y * pitch) &&
      (forall x :: 0 <= x < width ==> xlut[x] == x) &&
      (scaled ==> 0 < unscaledw && |x1lookup| == unscaledw && |x2lookup| == unscaledw &&
                  0 < unscaledh && |y1lookup| == unscaledh && |y2lookup| == unscaledh)
    }
  }

  /** The fixed-point value a after i steps of d. */
  function Lin(a: int, d: int, i: int): int {
    a + i * d
  }

  /** Every one of the n rows of a run reads inside the patch blob:
      `source[frac >> 16]` with `source` at offset `start`. */
  predicate ReadsIn(src: seq<byte>, start: int, frac: int, step: int, n: int) {
    forall i :: 0 <= i < n ==> 0 <= start + FixedToInt(Lin(frac, step, i)) < |src|
  }

  /** The patch byte read on row i of a run. */
  function Sample(src: seq<byte>, start: int, frac: int, step: int, n: int, i: int): byte
    requires ReadsIn(src, start, frac, step, n) && 0 <= i < n
  {
    src[start + FixedToInt(Lin(frac, step, i))]
  }

  lemma LinNext(a: int, d: int, i: int)
    ensures Lin(a + d, d, i) == Lin(a, d, i + 1)
  {
  }

  lemma ReadsTail(src: seq<byte>, start: int, frac: int, step: int, n: int)
    requires 1 <= n && ReadsIn(src, start, frac, step, n)
    ensures 0 <= start + FixedToInt(frac) < |src|
    ensures ReadsIn(src, start, frac + step, step, n - 1)
  {
    assert Lin(frac, step, 0) == frac;
    var next := frac + step;
    forall i | 0 <= i < n - 1
      ensures 0 <= start + FixedToInt(Lin(next, step, i)) < |src|
    {
      LinNext(frac, step, i);
    }
  }

  /** The patch bytes a run of n rows reads, top to bottom. */
  function Samples(src: seq<byte>, start: int, frac: int, step: int, n: nat): (r: seq<byte>)
    requires ReadsIn(src, start, frac, step, n)
    ensures |r| == n
    decreases n
  {
    if n == 0 then []
    else
      ReadsTail(src, start, frac, step, n);
      [src[start + FixedToInt(frac)]] + Samples(src, start, frac + step, step, n - 1)
  }

  /** Row i of a run reads `source[(frac + i * step) >> 16]`. */
  lemma {:induction false} SamplesAt(src: seq<byte>, start: int, frac: int, step: int, n: nat, i: int)
    requires ReadsIn(src, start, frac, step, n) && 0 <= i < n
    ensures Samples(src, start, frac, step, n)[i] == Sample(src, start, frac, step, n, i)
    decreases n
  {
    ReadsTail(src, start, frac, step, n);
    if i == 0 {
      assert Lin(frac, step, 0) == frac;
    } else {
      var next := frac + step;
      SamplesAt(src, start, next, step, n - 1, i - 1);
      LinNext(frac, step, i - 1);
      assert Sample(src, start, next, step, n - 1, i - 1) == Sample(src, start, frac, step, n, i);
    }
  }

  /** A writer's per-pixel operation: patch byte, old byte, new byte. */
  function Shader(pen: Pen): (byte, byte) -> byte
    requires Fits(pen)
  {
    (s: byte, d: byte) => Shade(pen, s, d)
  }

  /** The writers' loop one row at a time: the bytes of `ink` painted on
      column x from row y down, each shaded over the byte it replaces. */
  function Rows(buf: seq<byte>, shade: (byte, byte) -> byte, b: VBuffer, x: int, y: int, ink: seq<byte>): (r: seq<byte>)
    requires b.Valid() && |buf| == b.data.Length
    requires 0 <= x < b.width && 0 <= y && y + |ink| <= b.height
    ensures |r| == |buf|
    decreases |ink|
  {
    if ink == [] then buf
    else
      CellInRange(y, x, b.pitch, b.height);
      var i := y * b.pitch + x;
      Rows(buf[i := shade(ink[0], buf[i])], shade, b, x, y + 1, ink[1..])
  }

  /** `Rows` leaves every offset off rows y .. y+|ink|-1 of column x alone. */
  lemma {:induction false} RowsOutside(buf: seq<byte>, shade: (byte, byte) -> byte, b: VBuffer, x: int, y: int, ink: seq<byte>, idx: int)
    requires b.Valid() && |buf| == b.data.Length
    requires 0 <= x < b.width && 0 <= y && y + |ink| <= b.height
    requires 0 <= idx < |buf| && !(idx % b.pitch == x && y <= idx / b.pitch < y + |ink|)
    ensures Rows(buf, shade, b, x, y, ink)[idx] == buf[idx]
    decreases |ink|
  {
    if ink != [] {
      CellInRange(y, x, b.pitch, b.height);
      var c := y * b.pitch + x;
      if idx == c {
        DivMod(y, x, b.pitch);
        assert false;
      }
      RowsOutside(buf[c := shade(ink[0], buf[c])], shade, b, x, y + 1, ink[1..], idx);
    }
  }

  /** `Rows` leaves on row y + k of column x the shade of `ink[k]` over the
      old byte. */
  lemma {:induction false} RowsOn(buf: seq<byte>, shade: (byte, byte) -> byte, b: VBuffer, x: int, y: int, ink: seq<byte>, k: nat)
    requires b.Valid() && |buf| == b.data.Length
    requires 0 <= x < b.width && 0 <= y && y + |ink| <= b.height && k < |ink|
    ensures var t := (y + k) * b.pitch + x;
            0 <= t < |buf| && Rows(buf, shade, b, x, y, ink)[t] == shade(ink[k], buf[t])
    decreases |ink|
  {
    CellInRange(y, x, b.pitch, b.height);
    CellInRange(y + k, x, b.pitch, b.height);
    var c := y * b.pitch + x;
    var buf' := buf[c := shade(ink[0], buf[c])];
    if k == 0 {
      DivMod(y, x, b.pitch);
      RowsOutside(buf', shade, b, x, y + 1, ink[1..], c);
    } else {
      var t := (y + k) * b.pitch + x;
      if t == c {
        CellInjective(y + k, x, y, x, b.pitch);
        assert false;
      }
      assert ink[1..][k - 1] == ink[k] && buf'[t] == buf[t];
      RowsOn(buf', shade, b, x, y + 1, ink[1..], k - 1);
    }
  }

  /** Nothing outside columns lo .. hi of the buffer's rows changed. */
  ghost predicate Confined(before: seq<byte>, after: seq<byte>, b: VBuffer, lo: int, hi: int)
    requires b.Valid()
  {
    |after| == |before| &&
    forall idx :: 0 <= idx < |before| && !(lo <= idx % b.pitch <= hi && idx / b.pitch < b.height) ==> after[idx] == before[idx]
  }

  lemma ConfinedTrans(b1: seq<byte>, b2: seq<byte>, b3: seq<byte>, b: VBuffer, lo: int, hi: int)
    requires b.Valid() && Confined(b1, b2, b, lo, hi) && Confined(b2, b3, b, lo, hi)
    ensures Confined(b1, b3, b, lo, hi)
  {
  }

  lemma ConfinedWiden(b1: seq<byte>, b2: seq<byte>, b: VBuffer, lo: int, hi: int, lo': int, hi': int)
    requires b.Valid() && Confined(b1, b2, b, lo, hi) && lo' <= lo && hi <= hi'
    ensures Confined(b1, b2, b, lo', hi')
  {
  }

  /** One column writer (V_DrawPatchColumn … V_DrawPatchColumnAddTR, the
      style picks which) on the context's y1, y2, x, frac and step. */
  function Column(buf: seq<byte>, pen: Pen, b: VBuffer, x: int, y1: int, y2: int, frac: int, step: int, src: seq<byte>, start: int): (d: Drawing)
    requires Fits(pen) && b.Valid() && |buf| == b.data.Length
    ensures |d.pixels| == |buf|
    ensures y2 < y1 ==> d == Drawing(buf, Drawn)
  {
    var count := y2 - y1 + 1;
    if count <= 0 then Drawing(buf, Drawn)
    else if x < 0 || x >= b.width || y1 < 0 || y1 >= b.height then Drawing(buf, RangeCheckFailed)
    else if y2 >= b.height then Drawing(buf, WriteOutsideBuffer)
    else
      var f0 := frac + LowBits16(y1 * step);
      if !ReadsIn(src, start, f0, step, count) then Drawing(buf, ReadOutsidePatch)
      else Drawing(Rows(buf, Shader(pen), b, x, y1, Samples(src, start, f0, step, count)), Drawn)
  }

  /** What a run of n sampled rows from row y leaves at offset idx. */
  lemma RunAt(buf: seq<byte>, pen: Pen, b: VBuffer, x: int, y: int, src: seq<byte>, start: int, frac: int, step: int, n: nat, idx: int)
    requires Fits(pen) && b.Valid() && |buf| == b.data.Length
    requires 0 <= x < b.width && 0 <= y && y + n <= b.height
    requires ReadsIn(src, start, frac, step, n) && 0 <= idx < |buf|
    ensures Rows(buf, Shader(pen), b, x, y, Samples(src, start, frac, step, n))[idx] ==
            if idx % b.pitch == x && y <= idx / b.pitch < y + n
            then Shade(pen, Sample(src, start, frac, step, n, idx / b.pitch - y), buf[idx])
            else buf[idx]
  {
    var ink := Samples(src, start, frac, step, n);
    if idx % b.pitch == x && y <= idx / b.pitch < y + n {
      var k := idx / b.pitch - y;
      Split(idx, b.pitch);
      assert (y + k) * b.pitch + x == idx;
      RowsOn(buf, Shader(pen), b, x, y, ink, k);
      SamplesAt(src, start, frac, step, n, k);
      assert Shader(pen)(ink[k], buf[idx]) == Shade(pen, Sample(src, start, frac, step, n, k), buf[idx]);
    } else {
      RowsOutside(buf, Shader(pen), b, x, y, ink, idx);
    }
  }

  /** A writer that completes changes exactly rows y1 .. y2 of column x:
      row y1 + i gets the shade of the patch byte at
      `(frac + ((y1 * step) & 0xFFFF) + i * step) >> 16` over its old
      byte.  A writer that stops changes nothing. */
  lemma ColumnEffect(buf: seq<byte>, pen: Pen, b: VBuffer, x: int, y1: int, y2: int, frac: int, step: int, src: seq<byte>, start: int)
    requires Fits(pen) && b.Valid() && |buf| == b.data.Length
    ensures var d := Column(buf, pen, b, x, y1, y2, frac, step, src, start);
            var f0 := frac + LowBits16(y1 * step);
            (d.outcome != Drawn ==> d.pixels == buf) &&
            (d.outcome == Drawn && y1 <= y2 ==>
               0 <= x < b.width && 0 <= y1 && y2 < b.height && ReadsIn(src, start, f0, step, y2 - y1 + 1) &&
               forall idx :: 0 <= idx < |buf| ==>
                 d.pixels[idx] == if idx % b.pitch == x && y1 <= idx / b.pitch <= y2
                                  then Shade(pen, Sample(src, start, f0, step, y2 - y1 + 1, idx / b.pitch - y1), buf[idx])
                                  else buf[idx])
  {
    var d := Column(buf, pen, b, x, y1, y2, frac, step, src, start);
    if d.outcome == Drawn && y1 <= y2 {
      var f0 := frac + LowBits16(y1 * step);
      forall idx | 0 <= idx < |buf| {
        RunAt(buf, pen, b, x, y1, src, start, f0, step, y2 - y1 + 1, idx);
      }
    }
  }

  /** A writer changes nothing outside column x. */
  lemma ColumnConfined(buf: seq<byte>, pen: Pen, b: VBuffer, x: int, y1: int, y2: int, frac: int, step: int, src: seq<byte>, start: int)
    requires Fits(pen) && b.Valid() && |buf| == b.data.Length
    ensures Confined(buf, Column(buf, pen, b, x, y1, y2, frac, step, src, start).pixels, b, x, x)
  {
    ColumnEffect(buf, pen, b, x, y1, y2, frac, step, src, start);
  }

  /** One store `*dest = shade` on row y, as one step of `Rows`. */
  method Plot(data: array<byte>, pen: Pen, b: VBuffer, src: seq<byte>, start: int, x: int, ghost y: int, dest: int, frac: int, step: int, ghost n: nat)
    requires data == b.data && Fits(pen) && b.Valid()
    requires 0 <= x < b.width && 0 <= y && y + n <= b.height && 1 <= n
    requires ReadsIn(src, start, frac, step, n) && dest == y * b.pitch + x
    modifies data
    ensures ReadsIn(src, start, frac + step, step, n - 1)
    ensures Rows(data[..], Shader(pen), b, x, y + 1, Samples(src, start, frac + step, step, n - 1)) ==
            Rows(old(data[..]), Shader(pen), b, x, y, Samples(src, start, frac, step, n))
  {
    ReadsTail(src, start, frac, step, n);
    CellInRange(y, x, b.pitch, b.height);
    ghost var ink := Samples(src, start, frac, step, n);
    assert ink[1..] == Samples(src, start, frac + step, step, n - 1);
    data[dest] := Shade(pen, src[start + FixedToInt(frac)], data[dest]);
  }

  /** One pass of the writers' loop: two stores, a pitch apart. */
  method PlotTwo(data: array<byte>, pen: Pen, b: VBuffer, src: seq<byte>, start: int, x: int, ghost y: int, dest: int, frac: int, step: int, ghost n: nat)
    requires data == b.data && Fits(pen) && b.Valid()
    requires 0 <= x < b.width && 0 <= y && y + n <= b.height && 2 <= n
    requires ReadsIn(src, start, frac, step, n) && dest == y * b.pitch + x
    modifies data
    ensures ReadsIn(src, start, frac + step + step, step, n - 2)
    ensures Rows(data[..], Shader(pen), b, x, y + 2, Samples(src, start, frac + step + step, step, n - 2)) ==
            Rows(old(data[..]), Shader(pen), b, x, y, Samples(src, start, frac, step, n))
  {
    Plot(data, pen, b, src, start, x, y, dest, frac, step, n);
    NextRow(y, b.pitch, x);
    Plot(data, pen, b, src, start, x, y + 1, dest + b.pitch, frac + step, step, n - 1);
  }

  /** The writers' inner loop: `count` rows from row y down, two per
      pass while `(count -= 2) >= 0`, then one more if `count & 1`. */
  method Run(data: array<byte>, pen: Pen, b: VBuffer, src: seq<byte>, start: int, x: int, ghost y0: int, dest0: int, frac0: int, fracstep: int, count0: int)
    requires data == b.data && Fits(pen) && b.Valid()
    requires 0 <= x < b.width && 0 <= y0 && 1 <= count0 && y0 + count0 <= b.height
    requires ReadsIn(src, start, frac0, fracstep, count0) && dest0 == y0 * b.pitch + x
    modifies data
    ensures data[..] == Rows(old(data[..]), Shader(pen), b, x, y0, Samples(src, start, frac0, fracstep, count0))
  {
    ghost var goal := Rows(data[..], Shader(pen), b, x, y0, Samples(src, start, frac0, fracstep, count0));
    ghost var y, left := y0, count0;
    var dest, f := dest0, frac0;
    var count := count0 - 2;
    while count >= 0
      invariant left == count + 2 && -2 <= count && y0 <= y && y + left == y0 + count0 && dest == y * b.pitch + x
      invariant ReadsIn(src, start, f, fracstep, left)
      invariant Rows(data[..], Shader(pen), b, x, y, Samples(src, start, f, fracstep, left)) == goal
      decreases count
    {
      PlotTwo(data, pen, b, src, start, x, y, dest, f, fracstep, left);
      assert Rows(data[..], Shader(pen), b, x, y + 2, Samples(src, start, f + fracstep + fracstep, fracstep, left - 2)) == goal;
      NextRow(y, b.pitch, x);
      NextRow(y + 1, b.pitch, x);
      dest, f, y, left := dest + b.pitch + b.pitch, f + fracstep + fracstep, y + 2, left - 2;
      count := count - 2;
    }
    // `count & 1` on the negative count the loop leaves
    if count % 2 == 1 {
      Plot(data, pen, b, src, start, x, y, dest, f, fracstep, left);
    }
  }

  /** The body of the six column writers on the context's values: the
      checks, the first destination offset and source position, and the
      two-rows-per-pass loop. */
  method WriteColumn(b: VBuffer, pen: Pen, x: int, y1: int, y2: int, frac: int, step: int, src: seq<byte>, start: int)
    returns (o: Outcome)
    requires b.Valid() && Fits(pen)
    modifies b.data
    ensures var d := Column(old(b.data[..]), pen, b, x, y1, y2, frac, step, src, start);
            b.data[..] == d.pixels && o == d.outcome
  {
    var count := y2 - y1 + 1;
    if count <= 0 {
      return Drawn;
    }
    if x < 0 || x >= b.width || y1 < 0 || y1 >= b.height {
      return RangeCheckFailed;
    }
    if y2 >= b.height {
      return WriteOutsideBuffer;
    }
    var dest := b.ylut[y1] + b.xlut[x];
    // Determine scaling, which is the only mapping to be done.
    var fracstep := step;
    var f := frac + LowBits16(y1 * fracstep);
    if !ReadsIn(src, start, f, fracstep, count) {
      return ReadOutsidePatch;
    }
    Run(b.data, pen, b, src, start, x, y1, dest, f, fracstep, count);
    return Drawn;
  }

  /** A snapshot of the column context's fields. */
  datatype Fields = Fields(buffer: VBuffer?, x: int, y1: int, y2: int, frac: int, step: int,
                           source: seq<byte>, sourceStart: int, translation: seq<byte>,
                           fg2rgb: seq<bv32>, bg2rgb: seq<bv32>, style: Style, ytop: int)

  /** The static `patchcol` context (a cb_patch_column_t) that the drawing
      routines fill field by field before calling the column writer, and
      the file's static `ytop` beside it.  `source` is the patch blob and
      `sourceStart` the offset in it that the C `source` pointer holds;
      `style` stands for the writer installed in `colfunc`. */
  class PatchCol {
    var buffer: VBuffer?
    var x: int
    var y1: int
    var y2: int
    var frac: int
    var step: int
    var source: seq<byte>
    var sourceStart: int
    var translation: seq<byte>
    var fg2rgb: seq<bv32>
    var bg2rgb: seq<bv32>
    var style: Style
    var ytop: int

    /** Static storage starts zeroed: no buffer, no tables. */
    constructor ()
      ensures Snapshot() == Fields(null, 0, 0, 0, 0, 0, [], 0, [], [], [], Normal, 0)
    {
      buffer, x, y1, y2, frac, step := null, 0, 0, 0, 0, 0;
      source, sourceStart, translation, fg2rgb, bg2rgb := [], 0, [], [], [];
      style, ytop := Normal, 0;
    }

    function Snapshot(): Fields
      reads this
    {
      Fields(buffer, x, y1, y2, frac, step, source, sourceStart, translation, fg2rgb, bg2rgb, style, ytop)
    }

    /** The tables the installed writer looks pixels up in. */
    function PenOf(rgb32k: seq<byte>): Pen
      reads this`style, this`translation, this`fg2rgb, this`bg2rgb
    {
      Pen(style, translation, fg2rgb, bg2rgb, rgb32k)
    }

    /** V_SetPatchColrng: install the translation table. */
    method SetColrng(colrng: seq<byte>)
      modifies this
      ensures Snapshot() == old(Snapshot()).(translation := colrng)
    {
      translation := colrng;
    }

    /** V_SetPatchTL: install the two translucency tables. */
    method SetTL(fg: seq<bv32>, bg: seq<bv32>)
      modifies this
      ensures Snapshot() == old(Snapshot()).(fg2rgb := fg, bg2rgb := bg)
    {
      fg2rgb := fg;
      bg2rgb := bg;
    }

    /** The installed column writer: the result is `Column`'s on the
        context's fields. */
    method DrawColumn(rgb32k: seq<byte>) returns (o: Outcome)
      requires buffer != null && buffer.Valid() && Fits(PenOf(rgb32k))
      modifies buffer.data
      ensures var d := Column(old(buffer.data[..]), PenOf(rgb32k), buffer, x, y1, y2, frac, step, source, sourceStart);
              buffer.data[..] == d.pixels && o == d.outcome
    {
      o := WriteColumn(buffer, PenOf(rgb32k), x, y1, y2, frac, step, source, sourceStart);
    }
  }
}
