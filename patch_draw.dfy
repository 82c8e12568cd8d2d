/**
 * Drawing a patch into a VBuffer: V_DrawPatchInt works out which screen
 * columns the shape covers, rejects shapes entirely off the buffer, and
 * walks the covered columns with a 16.16 texture-column counter; for each
 * one, V_DrawMaskedColumn (scaled buffers) or V_DrawMaskedColumnUnscaled
 * walks the column's posts, clips each against the buffer and hands the
 * visible rows to the installed column writer.
 */
module PatchDraw {
  import opened Bytes
  import opened Blend
  import opened ColumnDraw
  import PatchDecode

  /** How a pass of the post loop treats the post at byte offset c. */
  datatype Post =
    | Done                                          // the walk ends normally
    | Broken                                        // the post header lies outside the blob
    | Pass(next: int)                               // nothing of the post is drawn
    | Draw(y1: int, y2: int, frac: int, next: int)  // rows y1 .. y2 are drawn, from texture row frac

  /** V_DrawMaskedColumn's clip of one post against a scaled buffer:
      the end marker ends the walk, and so does a post starting at or below
      the bottom of the virtual screen; a post ending above row 0 is
      skipped; a post starting above row 0 is drawn from row 0 with its
      texture row advanced by the rows cut off. */
  function ScaledPost(b: VBuffer, ytop: int, patch: seq<byte>, c: int): (p: Post)
    requires b.Valid() && b.scaled
    ensures (p.Pass? || p.Draw?) ==> 0 <= c && c + 1 < |patch| && p.next == c + patch[c + 1] + 4
    ensures p.Draw? ==> p.y1 <= p.y2 < b.height
    ensures p.Draw? ==>
              0 <= c < |patch| &&
              (var columntop := ytop + patch[c];
               if columntop < 0 then p.y1 == 0 && p.frac == -columntop * FRACUNIT
               else columntop < b.unscaledh && p.y1 == b.y1lookup[columntop] && p.frac == 0)
  {
    if c < 0 || c >= |patch| then Broken
    else if patch[c] == PatchDecode.END_OF_COLUMN then Done
    else
      var columntop := ytop + patch[c];
      if columntop >= 0 && columntop >= b.unscaledh then Done
      else if c + 1 >= |patch| then Broken
      else
        var length := patch[c + 1];
        var next := c + length + 4;
        var y1 := if columntop >= 0 then b.y1lookup[columntop] else 0;
        var frac := if columntop >= 0 then 0 else (-columntop) * FRACUNIT;
        var bottom := columntop + length - 1;
        if bottom < 0 then Pass(next)
        else
          var y2a := if bottom < b.unscaledh then b.y2lookup[bottom] else b.y2lookup[b.unscaledh - 1];
          var y2 := if (length > 0 && y2a < y1) || y2a >= b.height then b.height - 1 else y2a;
          if y1 <= y2 < b.height then Draw(y1, y2, frac, next) else Pass(next)
  }

  /** V_DrawMaskedColumnUnscaled's clip: screen rows are texture rows,
      cut to rows 0 .. height-1 of the buffer. */
  function UnscaledPost(b: VBuffer, ytop: int, patch: seq<byte>, c: int): (p: Post)
    requires b.Valid()
    ensures (p.Pass? || p.Draw?) ==> 0 <= c && c + 1 < |patch| && p.next == c + patch[c + 1] + 4
    ensures p.Draw? ==> 0 <= p.y1 <= p.y2 < b.height
    ensures p.Draw? ==> p.frac == (if ytop + patch[c] >= 0 then 0 else -(ytop + patch[c]) * FRACUNIT)
  {
    if c < 0 || c >= |patch| then Broken
    else if patch[c] == PatchDecode.END_OF_COLUMN then Done
    else
      var columntop := ytop + patch[c];
      var y1 := if columntop >= 0 then columntop else 0;
      var frac := if columntop >= 0 then 0 else (-columntop) * FRACUNIT;
      if c + 1 >= |patch| then Broken
      else
        var length := patch[c + 1];
        var next := c + length + 4;
        var y2 := if columntop + length - 1 < b.height then columntop + length - 1 else b.height - 1;
        if y1 <= y2 < b.height then Draw(y1, y2, frac, next) else Pass(next)
  }

  function PostAt(scaled: bool, b: VBuffer, ytop: int, patch: seq<byte>, c: int): (p: Post)
    requires b.Valid() && (scaled ==> b.scaled)
    ensures (p.Pass? || p.Draw?) ==> 0 <= c && c + 1 < |patch| && p.next == c + patch[c + 1] + 4
    ensures p.Draw? ==> p.y1 <= p.y2 < b.height
  {
    if scaled then ScaledPost(b, ytop, patch, c) else UnscaledPost(b, ytop, patch, c)
  }

  /** The post walk from byte offset c on at screen column x, with the
      scaled clip or the unscaled one; each drawn post is handed to the
      column writer with its pixels at c + 3, and the walk steps
      `length + 4` bytes from post to post. */
  function Walk(scaled: bool, buf: seq<byte>, pen: Pen, b: VBuffer, x: int, ytop: int, step: int, patch: seq<byte>, c: int): (d: Drawing)
    requires Fits(pen) && b.Valid() && (scaled ==> b.scaled) && |buf| == b.data.Length
    ensures |d.pixels| == |buf|
    decreases |patch| - c
  {
    match PostAt(scaled, b, ytop, patch, c)
    case Done => Drawing(buf, Drawn)
    case Broken => Drawing(buf, ReadOutsidePatch)
    case Pass(next) => Walk(scaled, buf, pen, b, x, ytop, step, patch, next)
    case Draw(y1, y2, frac, next) =>
      var d := Column(buf, pen, b, x, y1, y2, frac, step, patch, c + 3);
      if d.outcome != Drawn then d else Walk(scaled, d.pixels, pen, b, x, ytop, step, patch, next)
  }

  /** A post walk writes nothing outside screen column x, and nothing below
      the buffer's last row. */
  lemma {:induction false} WalkConfined(scaled: bool, buf: seq<byte>, pen: Pen, b: VBuffer, x: int, ytop: int, step: int, patch: seq<byte>, c: int)
    requires Fits(pen) && b.Valid() && (scaled ==> b.scaled) && |buf| == b.data.Length
    ensures Confined(buf, Walk(scaled, buf, pen, b, x, ytop, step, patch, c).pixels, b, x, x)
    decreases |patch| - c
  {
    match PostAt(scaled, b, ytop, patch, c)
    case Done =>
    case Broken =>
    case Pass(next) =>
      WalkConfined(scaled, buf, pen, b, x, ytop, step, patch, next);
    case Draw(y1, y2, frac, next) =>
      var d := Column(buf, pen, b, x, y1, y2, frac, step, patch, c + 3);
      ColumnConfined(buf, pen, b, x, y1, y2, frac, step, patch, c + 3);
      if d.outcome == Drawn {
        WalkConfined(scaled, d.pixels, pen, b, x, ytop, step, patch, next);
        ConfinedTrans(buf, d.pixels, Walk(scaled, d.pixels, pen, b, x, ytop, step, patch, next).pixels, b, x, x);
      }
  }

  /** What V_DrawPatchInt is asked to draw (a PatchInfo). */
  datatype PatchInfo = PatchInfo(x: int, y: int, patch: seq<byte>, flipped: bool, style: Style)

  /** A range of screen columns. */
  datatype Span = Span(x1: int, x2: int)

  /** The screen columns a patch of width w covers when its origin is at
      screen column x; a flipped patch's left offset counts from its right
      edge. */
  function Edges(flipped: bool, x: int, leftoffset: int, w: int): Span {
    if flipped then Span(x + leftoffset - (w - 1), x + leftoffset)
    else Span(x - leftoffset, x - leftoffset + w - 1)
  }

  /** Both extents are w columns wide, and the flipped one is the unflipped
      one reflected about the origin column. */
  lemma EdgesMirror(x: int, leftoffset: int, w: int)
    ensures var e := Edges(false, x, leftoffset, w);
            var f := Edges(true, x, leftoffset, w);
            e.x2 - e.x1 == w - 1 && f.x2 - f.x1 == w - 1 &&
            f.x1 == 2 * x - e.x2 && f.x2 == 2 * x - e.x1
  {
  }

  /** What V_DrawPatchInt decides before drawing any column: nothing to
      draw, a lookup it cannot make, or the screen columns first .. last
      to visit with the texture-column counter's start and step. */
  datatype Plan = Skip | Stop(why: Outcome) | Visit(first: int, last: int, startfrac: int, xiscale: int)

  function PlanOf(b: VBuffer, flipped: bool, x: int, leftoffset: int, w: int): (p: Plan)
    requires b.Valid()
    ensures p.Visit? ==> 0 <= p.first
  {
    var e := Edges(flipped, x, leftoffset, w);
    var iscale := if b.scaled then b.ixscale else FRACUNIT;
    var maxw := if b.scaled then b.unscaledw else b.width;
    if e.x2 < 0 || e.x1 >= maxw then Skip
    else if b.scaled && e.x1 < 0 && -e.x1 - 1 >= |b.x2lookup| then Stop(LookupOutOfRange)
    else
      var xiscale := if flipped then -iscale else iscale;
      var x1 := if !b.scaled then e.x1 else if e.x1 >= 0 then b.x1lookup[e.x1] else -b.x2lookup[-e.x1 - 1];
      var x2 := if !b.scaled then e.x2 else if e.x2 < b.unscaledw then b.x2lookup[e.x2] else b.x2lookup[b.unscaledw - 1];
      var first := if x1 < 0 then 0 else x1;
      if x2 < x1 then Skip
      else
        var sf := if flipped then w * FRACUNIT - LowBits16(x1 * iscale) - 1 else LowBits16(x1 * iscale);
        Visit(first, x2, if first > x1 then sf + xiscale * (first - x1) else sf, xiscale)
  }

  /** On an unscaled buffer the columns visited are those of the extent
      that lie right of column 0, and screen column first + k shows
      texture column first + k - x1, or its mirror image w - 1 - (first +
      k - x1) when flipped: the counter steps exactly one texture column
      per screen column. */
  lemma UnscaledPlan(b: VBuffer, flipped: bool, x: int, leftoffset: int, w: int, k: int)
    requires b.Valid() && !b.scaled
    requires PlanOf(b, flipped, x, leftoffset, w).Visit?
    ensures var e := Edges(flipped, x, leftoffset, w);
            var p := PlanOf(b, flipped, x, leftoffset, w);
            p.first == (if e.x1 < 0 then 0 else e.x1) && p.last == e.x2 &&
            FixedToInt(p.startfrac + k * p.xiscale) ==
              if flipped then w - 1 - (p.first + k - e.x1) else p.first + k - e.x1
  {
    var e := Edges(flipped, x, leftoffset, w);
    var p := PlanOf(b, flipped, x, leftoffset, w);
    var j := p.first + k - e.x1;
    assert LowBits16(e.x1 * FRACUNIT) == 0;
    if flipped {
      assert p.startfrac + k * p.xiscale == (w - 1 - j) * FRACUNIT + (FRACUNIT - 1);
    } else {
      assert p.startfrac + k * p.xiscale == j * FRACUNIT;
    }
  }

  /** One pass of V_DrawPatchInt's column loop: screen column px shows
      texture column `frac >> 16`, whose posts are walked from the offset
      its `columnofs` entry gives. */
  function ColumnAt(buf: seq<byte>, pen: Pen, b: VBuffer, patch: seq<byte>, w: int, ytop: int, step: int,
                    px: int, frac: int): (d: Drawing)
    requires Fits(pen) && b.Valid() && |buf| == b.data.Length
    ensures |d.pixels| == |buf|
  {
    var texturecolumn := FixedToInt(frac);
    if texturecolumn < 0 || texturecolumn >= w then Drawing(buf, BadTextureColumn)
    else if |patch| < PatchDecode.HEADER_SIZE + 4 * texturecolumn + 4 then Drawing(buf, ReadOutsidePatch)
    else Walk(b.scaled, buf, pen, b, px, ytop, step, patch, I32(patch, PatchDecode.HEADER_SIZE + 4 * texturecolumn))
  }

  /** The column loop of V_DrawPatchInt from screen column px to last. */
  function Columns(buf: seq<byte>, pen: Pen, b: VBuffer, patch: seq<byte>, w: int, ytop: int, step: int,
                   px: int, last: int, frac: int, xiscale: int): (d: Drawing)
    requires Fits(pen) && b.Valid() && |buf| == b.data.Length
    ensures |d.pixels| == |buf|
    decreases last - px + 1
  {
    if px > last then Drawing(buf, Drawn)
    else
      var d := ColumnAt(buf, pen, b, patch, w, ytop, step, px, frac);
      if d.outcome != Drawn then d
      else Columns(d.pixels, pen, b, patch, w, ytop, step, px + 1, last, frac + xiscale, xiscale)
  }

  lemma {:induction false} ColumnsConfined(buf: seq<byte>, pen: Pen, b: VBuffer, patch: seq<byte>, w: int, ytop: int, step: int,
                                           px: int, last: int, frac: int, xiscale: int)
    requires Fits(pen) && b.Valid() && |buf| == b.data.Length
    ensures Confined(buf, Columns(buf, pen, b, patch, w, ytop, step, px, last, frac, xiscale).pixels, b, px, last)
    decreases last - px + 1
  {
    if px <= last {
      var d := ColumnAt(buf, pen, b, patch, w, ytop, step, px, frac);
      var texturecolumn := FixedToInt(frac);
      if 0 <= texturecolumn < w && |patch| >= PatchDecode.HEADER_SIZE + 4 * texturecolumn + 4 {
        WalkConfined(b.scaled, buf, pen, b, px, ytop, step, patch, I32(patch, PatchDecode.HEADER_SIZE + 4 * texturecolumn));
      }
      ConfinedWiden(buf, d.pixels, b, px, px, px, last);
      if d.outcome == Drawn {
        var rest := Columns(d.pixels, pen, b, patch, w, ytop, step, px + 1, last, frac + xiscale, xiscale);
        ColumnsConfined(d.pixels, pen, b, patch, w, ytop, step, px + 1, last, frac + xiscale, xiscale);
        ConfinedWiden(d.pixels, rest.pixels, b, px + 1, last, px, last);
        ConfinedTrans(buf, d.pixels, rest.pixels, b, px, last);
      }
    }
  }

  /** V_DrawPatchInt: `tables` holds the context's translation and
      translucency tables, and the patch is drawn in its own style. */
  function DrawnPatch(buf: seq<byte>, tables: Pen, b: VBuffer, pi: PatchInfo): (d: Drawing)
    requires Fits(tables.(style := pi.style)) && b.Valid() && |buf| == b.data.Length
    ensures |d.pixels| == |buf|
  {
    var patch := pi.patch;
    if |patch| < 6 then Drawing(buf, ReadOutsidePatch)
    else DrawnPlan(buf, tables, b, pi, PlanOf(b, pi.flipped, pi.x, I16(patch, 4), I16(patch, 0)))
  }

  /** What V_DrawPatchInt draws once it has made its plan. */
  function DrawnPlan(buf: seq<byte>, tables: Pen, b: VBuffer, pi: PatchInfo, plan: Plan): (d: Drawing)
    requires Fits(tables.(style := pi.style)) && b.Valid() && |buf| == b.data.Length
    requires |pi.patch| >= 6 && (plan.Visit? ==> 0 <= plan.first)
    ensures |d.pixels| == |buf|
  {
    var patch := pi.patch;
    match plan
    case Skip => Drawing(buf, Drawn)
    case Stop(why) => Drawing(buf, why)
    case Visit(first, last, startfrac, xiscale) =>
      if |patch| < PatchDecode.HEADER_SIZE then Drawing(buf, ReadOutsidePatch)
      else
        var step := if b.scaled then b.iyscale else FRACUNIT;
        Columns(buf, tables.(style := pi.style), b, patch, I16(patch, 0), pi.y - I16(patch, 6), step, first, last, startfrac, xiscale)
  }

  /** V_DrawPatchInt changes only the screen columns it plans to visit, and
      nothing at all when it plans none. */
  lemma DrawnPatchConfined(buf: seq<byte>, tables: Pen, b: VBuffer, pi: PatchInfo)
    requires Fits(tables.(style := pi.style)) && b.Valid() && |buf| == b.data.Length
    ensures var d := DrawnPatch(buf, tables, b, pi);
            var p := pi.patch;
            if |p| >= 6 && PlanOf(b, pi.flipped, pi.x, I16(p, 4), I16(p, 0)).Visit?
            then Confined(buf, d.pixels, b, PlanOf(b, pi.flipped, pi.x, I16(p, 4), I16(p, 0)).first,
                          PlanOf(b, pi.flipped, pi.x, I16(p, 4), I16(p, 0)).last)
            else d.pixels == buf
  {
    var p := pi.patch;
    if |p| >= PatchDecode.HEADER_SIZE {
      match PlanOf(b, pi.flipped, pi.x, I16(p, 4), I16(p, 0))
      case Skip =>
      case Stop(_) =>
      case Visit(first, last, startfrac, xiscale) =>
        var step := if b.scaled then b.iyscale else FRACUNIT;
        ColumnsConfined(buf, tables.(style := pi.style), b, p, I16(p, 0), pi.y - I16(p, 6), step, first, last, startfrac, xiscale);
    }
  }

  /** The fields of the context that a post walk leaves as it found them
      (all but the per-post y1, y2, frac and source). */
  function Kept(f: Fields): Fields {
    f.(y1 := 0, y2 := 0, frac := 0, source := [], sourceStart := 0)
  }

  /** The fields the column loop leaves as it found them (all but x and
      the per-post ones). */
  function KeptByColumns(f: Fields): Fields {
    Kept(f).(x := 0)
  }

  /** The clipping half of one pass of V_DrawMaskedColumn's loop: the
      context's y1, frac and y2 are set as the source sets them. */
  method ClipScaled(pc: PatchCol, patch: seq<byte>, column: int) returns (p: Post)
    requires pc.buffer != null && pc.buffer.Valid() && pc.buffer.scaled
    modifies pc
    ensures Kept(pc.Snapshot()) == Kept(old(pc.Snapshot()))
    ensures pc.buffer == old(pc.buffer) && pc.x == old(pc.x) && pc.ytop == old(pc.ytop) && pc.step == old(pc.step)
    ensures p == ScaledPost(pc.buffer, pc.ytop, patch, column)
    ensures p.Draw? ==> pc.y1 == p.y1 && pc.y2 == p.y2 && pc.frac == p.frac
  {
    var b := pc.buffer;
    if column < 0 || column >= |patch| {
      return Broken;
    }
    if patch[column] == PatchDecode.END_OF_COLUMN {
      return Done;
    }
    // calculate unclipped screen coordinates for post
    var columntop := pc.ytop + patch[column];
    var y1, frac;
    if columntop >= 0 {
      // the lut is never referenced out of range
      if columntop >= b.unscaledh {
        return Done;
      }
      y1, frac := b.y1lookup[columntop], 0;
    } else {
      frac, y1 := (-columntop) * FRACUNIT, 0;
    }
    pc.y1, pc.frac := y1, frac;
    if column + 1 >= |patch| {
      return Broken;
    }
    var length := patch[column + 1];
    var next := column + length + 4;
    if columntop + length - 1 < 0 {
      return Pass(next);
    }
    var y2;
    if columntop + length - 1 < b.unscaledh {
      y2 := b.y2lookup[columntop + length - 1];
    } else {
      y2 := b.y2lookup[b.unscaledh - 1];
    }
    if (length > 0 && y2 < y1) || y2 >= b.height {
      y2 := b.height - 1;
    }
    pc.y2 := y2;
    // failsafe against overflow
    if y1 <= y2 && y2 < b.height {
      return Draw(y1, y2, frac, next);
    }
    return Pass(next);
  }

  /** The clipping half of one pass of V_DrawMaskedColumnUnscaled's loop. */
  method ClipUnscaled(pc: PatchCol, patch: seq<byte>, column: int) returns (p: Post)
    requires pc.buffer != null && pc.buffer.Valid()
    modifies pc
    ensures Kept(pc.Snapshot()) == Kept(old(pc.Snapshot()))
    ensures pc.buffer == old(pc.buffer) && pc.x == old(pc.x) && pc.ytop == old(pc.ytop) && pc.step == old(pc.step)
    ensures p == UnscaledPost(pc.buffer, pc.ytop, patch, column)
    ensures p.Draw? ==> pc.y1 == p.y1 && pc.y2 == p.y2 && pc.frac == p.frac
  {
    var b := pc.buffer;
    if column < 0 || column >= |patch| {
      return Broken;
    }
    if patch[column] == PatchDecode.END_OF_COLUMN {
      return Done;
    }
    // calculate unclipped screen coordinates for post
    var columntop := pc.ytop + patch[column];
    var y1, frac;
    if columntop >= 0 {
      y1, frac := columntop, 0;
    } else {
      frac, y1 := (-columntop) * FRACUNIT, 0;
    }
    pc.y1, pc.frac := y1, frac;
    if column + 1 >= |patch| {
      return Broken;
    }
    var length := patch[column + 1];
    var y2 := if columntop + length - 1 < b.height then columntop + length - 1 else b.height - 1;
    pc.y2 := y2;
    // failsafe against overflow
    if y1 <= y2 && y2 < b.height {
      return Draw(y1, y2, frac, column + length + 4);
    }
    return Pass(column + length + 4);
  }

  /** V_DrawMaskedColumn (scaled) or V_DrawMaskedColumnUnscaled: clip each
      post from offset `column0` on and hand the visible rows to the
      installed writer, until the walk ends or a draw stops. */
  method DrawMasked(scaled: bool, pc: PatchCol, rgb32k: seq<byte>, patch: seq<byte>, column0: int) returns (o: Outcome)
    requires pc.buffer != null && pc.buffer.Valid() && (scaled ==> pc.buffer.scaled) && Fits(pc.PenOf(rgb32k))
    modifies pc, pc.buffer.data
    ensures Kept(pc.Snapshot()) == Kept(old(pc.Snapshot()))
    ensures var d := Walk(scaled, old(pc.buffer.data[..]), old(pc.PenOf(rgb32k)), pc.buffer, pc.x, pc.ytop, pc.step, patch, column0);
            pc.buffer.data[..] == d.pixels && o == d.outcome
  {
    var b := pc.buffer;
    ghost var kept := Kept(pc.Snapshot());
    ghost var pen, x, ytop, step := pc.PenOf(rgb32k), pc.x, pc.ytop, pc.step;
    ghost var goal := Walk(scaled, b.data[..], pen, b, x, ytop, step, patch, column0);
    var column := column0;
    while true
      invariant pc.buffer == b && Kept(pc.Snapshot()) == kept && pc.PenOf(rgb32k) == pen
      invariant pc.x == x && pc.ytop == ytop && pc.step == step
      invariant Walk(scaled, b.data[..], pen, b, x, ytop, step, patch, column) == goal
      decreases |patch| - column
    {
      ghost var before := b.data[..];
      var post;
      if scaled {
        post := ClipScaled(pc, patch, column);
      } else {
        post := ClipUnscaled(pc, patch, column);
      }
      assert post == PostAt(scaled, b, ytop, patch, column);
      match post
      case Done =>
        return Drawn;
      case Broken =>
        return ReadOutsidePatch;
      case Pass(next) =>
        column := next;
      case Draw(y1, y2, frac, next) =>
        pc.source, pc.sourceStart := patch, column + 3;
        var r := pc.DrawColumn(rgb32k);
        ghost var d := Column(before, pen, b, x, y1, y2, frac, step, patch, column + 3);
        assert b.data[..] == d.pixels && r == d.outcome;
        if r != Drawn {
          return r;
        }
        column := next;
    }
  }

  /** The body of V_DrawPatchInt's column loop, at the context's x. */
  method DrawColumnAt(pc: PatchCol, rgb32k: seq<byte>, patch: seq<byte>, w: int, startfrac: int) returns (o: Outcome)
    requires pc.buffer != null && pc.buffer.Valid() && Fits(pc.PenOf(rgb32k))
    modifies pc, pc.buffer.data
    ensures Kept(pc.Snapshot()) == Kept(old(pc.Snapshot()))
    ensures pc.buffer == old(pc.buffer) && pc.x == old(pc.x) && pc.ytop == old(pc.ytop) && pc.step == old(pc.step)
    ensures pc.PenOf(rgb32k) == old(pc.PenOf(rgb32k))
    ensures var d := ColumnAt(old(pc.buffer.data[..]), old(pc.PenOf(rgb32k)), pc.buffer, patch, w, pc.ytop, pc.step, pc.x, startfrac);
            pc.buffer.data[..] == d.pixels && o == d.outcome
  {
    var texturecolumn := FixedToInt(startfrac);
    if texturecolumn < 0 || texturecolumn >= w {
      return BadTextureColumn;
    }
    if |patch| < PatchDecode.HEADER_SIZE + 4 * texturecolumn + 4 {
      return ReadOutsidePatch;
    }
    var column := I32(patch, PatchDecode.HEADER_SIZE + 4 * texturecolumn);
    o := DrawMasked(pc.buffer.scaled, pc, rgb32k, patch, column);
  }

  /** One pass of V_DrawPatchInt's column loop, with its `patchcol.x++`:
      the rest of the loop after it draws what the rest before it would. */
  method NextColumn(pc: PatchCol, rgb32k: seq<byte>, patch: seq<byte>, w: int, x2: int, startfrac: int, xiscale: int) returns (o: Outcome)
    requires pc.buffer != null && pc.buffer.Valid() && Fits(pc.PenOf(rgb32k)) && pc.x <= x2
    modifies pc, pc.buffer.data
    ensures KeptByColumns(pc.Snapshot()) == KeptByColumns(old(pc.Snapshot()))
    ensures pc.buffer == old(pc.buffer) && pc.ytop == old(pc.ytop) && pc.step == old(pc.step)
    ensures pc.PenOf(rgb32k) == old(pc.PenOf(rgb32k))
    ensures var d := Columns(old(pc.buffer.data[..]), old(pc.PenOf(rgb32k)), pc.buffer, patch, w, pc.ytop, pc.step, old(pc.x), x2, startfrac, xiscale);
            if o == Drawn
            then pc.x == old(pc.x) + 1 &&
                 Columns(pc.buffer.data[..], pc.PenOf(rgb32k), pc.buffer, patch, w, pc.ytop, pc.step, pc.x, x2, startfrac + xiscale, xiscale) == d
            else pc.buffer.data[..] == d.pixels && o == d.outcome
  {
    o := DrawColumnAt(pc, rgb32k, patch, w, startfrac);
    if o == Drawn {
      pc.x := pc.x + 1;
    }
  }

  /** V_DrawPatchInt's column loop: `patchcol.x` runs to x2 while
      `startfrac` advances by `xiscale`. */
  method DrawColumns(pc: PatchCol, rgb32k: seq<byte>, patch: seq<byte>, w: int, x2: int, startfrac0: int, xiscale: int) returns (o: Outcome)
    requires pc.buffer != null && pc.buffer.Valid() && Fits(pc.PenOf(rgb32k))
    modifies pc, pc.buffer.data
    ensures KeptByColumns(pc.Snapshot()) == KeptByColumns(old(pc.Snapshot()))
    ensures var d := Columns(old(pc.buffer.data[..]), old(pc.PenOf(rgb32k)), pc.buffer, patch, w, pc.ytop, pc.step, old(pc.x), x2, startfrac0, xiscale);
            pc.buffer.data[..] == d.pixels && o == d.outcome
  {
    var b := pc.buffer;
    ghost var kept := KeptByColumns(pc.Snapshot());
    ghost var pen, ytop, step := pc.PenOf(rgb32k), pc.ytop, pc.step;
    ghost var goal := Columns(b.data[..], pen, b, patch, w, ytop, step, pc.x, x2, startfrac0, xiscale);
    var startfrac := startfrac0;
    while pc.x <= x2
      invariant pc.buffer == b && KeptByColumns(pc.Snapshot()) == kept
      invariant pc.PenOf(rgb32k) == pen && pc.ytop == ytop && pc.step == step
      invariant Columns(b.data[..], pen, b, patch, w, ytop, step, pc.x, x2, startfrac, xiscale) == goal
      decreases x2 - pc.x + 1
    {
      var r := NextColumn(pc, rgb32k, patch, w, x2, startfrac, xiscale);
      if r != Drawn {
        return r;
      }
      startfrac := startfrac + xiscale;
    }
    return Drawn;
  }

  /** The first half of V_DrawPatchInt: the extents of the shape, the
      rejection of shapes off the buffer, the remapping of a scaled
      buffer's virtual columns to real ones, and the start of the
      texture-column counter. Sets the context's step, and its x to the
      first column to draw. */
  method PlanColumns(pc: PatchCol, buffer: VBuffer, flipped: bool, x: int, leftoffset: int, w: int, ghost rgb32k: seq<byte>) returns (plan: Plan)
    requires buffer.Valid()
    modifies pc
    ensures plan == PlanOf(buffer, flipped, x, leftoffset, w)
    ensures plan.Visit? ==> pc.x == plan.first
    ensures pc.step == if buffer.scaled then buffer.iyscale else FRACUNIT
    ensures pc.Snapshot() == old(pc.Snapshot()).(x := pc.x, step := pc.step)
    ensures pc.buffer == old(pc.buffer) && pc.PenOf(rgb32k) == old(pc.PenOf(rgb32k))
  {
    // calculate edges of the shape
    var x1, x2;
    if flipped {
      x2 := x + leftoffset;
      x1 := x2 - (w - 1);
    } else {
      x1 := x - leftoffset;
      x2 := x1 + w - 1;
    }
    var iscale, maxw;
    if buffer.scaled {
      iscale, pc.step, maxw := buffer.ixscale, buffer.iyscale, buffer.unscaledw;
    } else {
      iscale, pc.step, maxw := FRACUNIT, FRACUNIT, buffer.width;
    }
    // off the left or right side?
    if x2 < 0 || x1 >= maxw {
      return Skip;
    }
    var xiscale := if flipped then -iscale else iscale;
    if buffer.scaled {
      if x1 >= 0 {
        x1 := buffer.x1lookup[x1];
      } else {
        if -x1 - 1 >= |buffer.x2lookup| {
          return Stop(LookupOutOfRange);
        }
        x1 := -buffer.x2lookup[-x1 - 1];
      }
      if x2 < buffer.unscaledw {
        x2 := buffer.x2lookup[x2];
      } else {
        x2 := buffer.x2lookup[buffer.unscaledw - 1];
      }
    }
    pc.x := if x1 < 0 then 0 else x1;
    if x2 < x1 {
      return Skip;
    }
    var startfrac;
    if flipped {
      startfrac := w * FRACUNIT - LowBits16(x1 * iscale) - 1;
    } else {
      startfrac := LowBits16(x1 * iscale);
    }
    if pc.x > x1 {
      startfrac := startfrac + xiscale * (pc.x - x1);
    }
    return Visit(pc.x, x2, startfrac, xiscale);
  }

  /** V_DrawPatchInt: the patch drawn as `DrawnPatch` says: plan the
      columns, install the writer for the style, find the patch's top row
      and run the column loop. */
  method DrawPatchInt(pc: PatchCol, pi: PatchInfo, buffer: VBuffer, rgb32k: seq<byte>) returns (o: Outcome)
    requires buffer.Valid() && Fits(pc.PenOf(rgb32k).(style := pi.style))
    modifies pc, buffer.data
    ensures pc.buffer == buffer
    ensures pc.translation == old(pc.translation) && pc.fg2rgb == old(pc.fg2rgb) && pc.bg2rgb == old(pc.bg2rgb)
    ensures var d := DrawnPatch(old(buffer.data[..]), old(pc.PenOf(rgb32k)), buffer, pi);
            buffer.data[..] == d.pixels && o == d.outcome
  {
    var patch := pi.patch;
    pc.buffer := buffer;
    if |patch| < 6 {
      return ReadOutsidePatch;
    }
    var w := I16(patch, 0);
    var plan := PlanColumns(pc, buffer, pi.flipped, pi.x, I16(patch, 4), w, rgb32k);
    if plan.Visit? {
      o := DrawVisible(pc, pi, rgb32k, w, plan);
    } else {
      o := if plan.Skip? then Drawn else plan.why;
    }
  }

  /** The part of V_DrawPatchInt after the plan: install the writer for
      the style, find the patch's top row and run the column loop from the
      context's x to `last`. */
  method DrawVisible(pc: PatchCol, pi: PatchInfo, rgb32k: seq<byte>, w: int, plan: Plan) returns (o: Outcome)
    requires pc.buffer != null && pc.buffer.Valid() && Fits(pc.PenOf(rgb32k).(style := pi.style))
    requires |pi.patch| >= 6 && w == I16(pi.patch, 0)
    requires plan.Visit? && pc.x == plan.first && 0 <= plan.first
    requires pc.step == if pc.buffer.scaled then pc.buffer.iyscale else FRACUNIT
    modifies pc, pc.buffer.data
    ensures pc.buffer == old(pc.buffer)
    ensures pc.translation == old(pc.translation) && pc.fg2rgb == old(pc.fg2rgb) && pc.bg2rgb == old(pc.bg2rgb)
    ensures var d := DrawnPlan(old(pc.buffer.data[..]), old(pc.PenOf(rgb32k)), pc.buffer, pi, plan);
            pc.buffer.data[..] == d.pixels && o == d.outcome
  {
    var patch := pi.patch;
    ghost var tables := pc.PenOf(rgb32k);
    pc.style := pi.style;
    if |patch| < PatchDecode.HEADER_SIZE {
      return ReadOutsidePatch;
    }
    pc.ytop := pi.y - I16(patch, 6);
    assert pc.PenOf(rgb32k) == tables.(style := pi.style);
    o := DrawColumns(pc, rgb32k, patch, w, plan.last, plan.startfrac, plan.xiscale);
  }
}
