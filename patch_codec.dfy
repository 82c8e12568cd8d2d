/**
 * The two converters between patches and linear bitmaps, written as the
 * loops that perform them: V_PatchToLinear walks each column's posts and
 * copies their pixels into a w*h buffer four rows at a time, and
 * V_LinearToPatch writes the header, the offset table and one post per
 * column into a freshly allocated blob.  Each is proved to compute the
 * specification function of PatchDecode or PatchEncode.
 */
module PatchCodec {
  import opened Bytes
  import opened PatchDecode
  import opened PatchEncode

  /** One pixel store `*dest = run[k]` at row top + k of column x: one step
      of painting `run` from row `top` down. */
  method StoreRow(buffer: array<byte>, w: int, h: int, x: int, top: nat, ghost k: nat, dest: int, v: byte, ghost run: seq<byte>)
    requires 0 <= x < w && buffer.Length == w * h && top + |run| <= h
    requires k < |run| && run[k] == v && dest == (top + k) * w + x
    modifies buffer
    ensures PaintFlat(buffer[..], w, h, x, top + k + 1, run[k + 1..]) ==
            PaintFlat(old(buffer[..]), w, h, x, top + k, run[k..])
  {
    CellInRange(top + k, x, w, h);
    buffer[dest] := v;
    assert buffer[..] == SetAt(old(buffer[..]), w, h, x, top + k, run[k..][0]);
    assert run[k..][1..] == run[k + 1..];
  }

  /** One round of the unrolled copy: rows top + j .. top + j + 3, read
      two bytes at a time. */
  method CopyFour(buffer: array<byte>, w: int, h: int, x: int, top: nat, patch: seq<byte>, start: nat, count: nat,
                  ghost j: nat, source: int, dest: int)
    requires 0 <= x < w && buffer.Length == w * h && top + count <= h && start + count <= |patch|
    requires j + 4 <= count && source == start + j && dest == (top + j) * w + x
    modifies buffer
    ensures PaintFlat(buffer[..], w, h, x, top + j + 4, patch[start..start + count][j + 4..]) ==
            PaintFlat(old(buffer[..]), w, h, x, top + j, patch[start..start + count][j..])
  {
    ghost var run := patch[start..start + count];
    var s0, s1 := patch[source], patch[source + 1];
    StoreRow(buffer, w, h, x, top, j, dest, s0, run);
    NextRow(top + j, w, x);
    StoreRow(buffer, w, h, x, top, j + 1, dest + w, s1, run);
    NextRow(top + j + 1, w, x);
    var d := dest + w * 2;
    s0, s1 := patch[source + 2], patch[source + 3];
    StoreRow(buffer, w, h, x, top, j + 2, d, s0, run);
    NextRow(top + j + 2, w, x);
    StoreRow(buffer, w, h, x, top, j + 3, d + w, s1, run);
  }

  /** One post's pixels copied into column `x` of `buffer` from row `top`
      down, by the unrolled copy: four rows per round, then the rest. */
  method CopyPost(buffer: array<byte>, w: int, h: int, x: int, top: nat, patch: seq<byte>, start: nat, count: nat)
    requires 0 <= x < w && buffer.Length == w * h && top + count <= h && start + count <= |patch|
    modifies buffer
    ensures buffer[..] == PaintFlat(old(buffer[..]), w, h, x, top, patch[start..start + count])
  {
    ghost var run := patch[start..start + count];
    ghost var target := PaintFlat(buffer[..], w, h, x, top, run);
    ghost var j := 0;
    var source := start;
    var dest := top * w + x;
    var n := count - 4;
    while n >= 0
      invariant 0 <= j <= count && n == count - j - 4
      invariant source == start + j && dest == (top + j) * w + x
      invariant PaintFlat(buffer[..], w, h, x, top + j, run[j..]) == target
      decreases n + 4
    {
      CopyFour(buffer, w, h, x, top, patch, start, count, j, source, dest);
      NextRow(top + j, w, x);
      NextRow(top + j + 1, w, x);
      NextRow(top + j + 2, w, x);
      NextRow(top + j + 3, w, x);
      dest := dest + w * 2;
      source := source + 4;
      dest := dest + w * 2;
      j := j + 4;
      n := n - 4;
    }
    n := n + 4;
    while n != 0
      invariant 0 <= n == count - j && j <= count
      invariant source == start + j && dest == (top + j) * w + x
      invariant PaintFlat(buffer[..], w, h, x, top + j, run[j..]) == target
      decreases n
    {
      StoreRow(buffer, w, h, x, top, j, dest, patch[source], run);
      NextRow(top + j, w, x);
      source := source + 1;
      dest := dest + w;
      j := j + 1;
      n := n - 1;
    }
    assert run[j..] == [];
  }

  /** The posts of one column, starting at byte offset c, stored into
      output column `desttop`; false when a read would leave the blob. */
  method CopyColumn(buffer: array<byte>, w: int, h: nat, desttop: int, patch: seq<byte>, c: int) returns (ok: bool)
    requires 0 <= desttop < w && buffer.Length == w * h
    modifies buffer
    ensures ok == WalkFlat(patch, c, w, h, desttop, old(buffer[..])).Ok?
    ensures ok ==> buffer[..] == WalkFlat(patch, c, w, h, desttop, old(buffer[..])).value
  {
    ghost var goal := WalkFlat(patch, c, w, h, desttop, buffer[..]);
    var column := c;
    while true
      invariant WalkFlat(patch, column, w, h, desttop, buffer[..]) == goal
      decreases |patch| - column
    {
      if column < 0 || column >= |patch| {
        return false;
      }
      if patch[column] == END_OF_COLUMN {
        return true;
      }
      if column + 1 >= |patch| {
        return false;
      }
      var count := patch[column + 1];
      var diff := (count + patch[column]) - h;
      if diff > 0 {
        count := count - diff;
      }
      if count <= 0 {
        return true;
      }
      if column + 3 + count > |patch| {
        return false;
      }
      CopyPost(buffer, w, h, desttop, patch[column], patch, column + 3, count);
      column := column + 3 + count + 1;
    }
  }

  /** V_PatchToLinear's column loop: output column `desttop` is filled
      from source column `col`, which runs backwards when flipped; false
      when a read would leave the blob. */
  method CopyColumns(buffer: array<byte>, patch: seq<byte>, flipped: bool, w: nat, h: nat) returns (ok: bool)
    requires buffer.Length == w * h
    modifies buffer
    ensures ok == DecodeColumns(patch, flipped, w, h, 0, old(buffer[..])).Ok?
    ensures ok ==> buffer[..] == DecodeColumns(patch, flipped, w, h, 0, old(buffer[..])).value
  {
    ghost var whole := DecodeColumns(patch, flipped, w, h, 0, buffer[..]);
    var col: int, colstop: int, colstep: int := w - 1, -1, -1;
    if !flipped {
      col, colstop, colstep := 0, w, 1;
    }
    var desttop := 0;
    while col != colstop
      invariant 0 <= desttop <= w
      invariant col == Mirror(flipped, w, desttop) && colstop == Mirror(flipped, w, w)
      invariant colstep == if flipped then -1 else 1
      invariant DecodeColumns(patch, flipped, w, h, desttop, buffer[..]) == whole
      decreases w - desttop
    {
      ghost var before := buffer[..];
      if |patch| < HEADER_SIZE + 4 * col + 4 {
        assert ColumnStart(patch, col).Err?;
        return false;
      }
      var c := I32(patch, HEADER_SIZE + 4 * col);
      assert ColumnStart(patch, col) == Ok(c);
      // step through the posts in a column
      ok := CopyColumn(buffer, w, h, desttop, patch, c);
      if !ok {
        return false;
      }
      assert DecodeColumns(patch, flipped, w, h, desttop, before) ==
             DecodeColumns(patch, flipped, w, h, desttop + 1, buffer[..]);
      col := col + colstep;
      desttop := desttop + 1;
    }
    return true;
  }

  /** V_PatchToLinear: the picture as a w*h bitmap over `fillcolor`,
      optionally mirrored; the result is the one `Decoded` specifies, so a
      read outside the blob or a size whose product would be negative is
      reported instead of reading or allocating out of bounds. */
  method PatchToLinear(patch: seq<byte>, flipped: bool, fillcolor: byte) returns (r: Result<Linear>)
    ensures r == Decoded(patch, flipped, fillcolor)
  {
    if |patch| < 4 {
      return Err(Truncated);
    }
    var w := I16(patch, 0);
    var h := I16(patch, 2);
    if w < 0 || (w != 0 && h < 0) {
      return Err(BadSize);
    }
    if w == 0 {
      // malloc(0) and an empty memset; the column loop starts at its stop
      var empty := new byte[0];
      assert empty[..] == [];
      return Ok(Linear(empty[..], 0, h));
    }
    MulNonneg(w, h);
    var buffer := new byte[w * h](_ => fillcolor);
    assert buffer[..] == FillBuffer(w, h, fillcolor);
    var ok := CopyColumns(buffer, patch, flipped, w, h);
    if !ok {
      return Err(Truncated);
    }
    return Ok(Linear(buffer[..], w, h));
  }

  /** A 16-bit field stored at offset i. */
  method PutShort(out: array<byte>, i: nat, v: int)
    requires i + 2 <= out.Length
    modifies out
    ensures out[..] == Store16(old(out[..]), i, v)
  {
    var e := LE16(v);
    out[i] := e[0];
    out[i + 1] := e[1];
  }

  /** A 32-bit field stored at offset i. */
  method PutInt(out: array<byte>, i: nat, v: int)
    requires i + 4 <= out.Length
    modifies out
    ensures out[..] == Store32(old(out[..]), i, v)
  {
    var e := LE32(v);
    out[i] := e[0];
    out[i + 1] := e[1];
    out[i + 2] := e[2];
    out[i + 3] := e[3];
  }

  /** One column of V_LinearToPatch's loop, with `dest` at the column's
      post: its offset table entry, post header, pixels and end marker. */
  method EmitColumn(out: array<byte>, linear: seq<byte>, w: nat, h: nat, x: nat, dest: nat)
    requires x < w && out.Length == TotalSize(w, h) && |linear| >= w * h && dest == ColumnBase(w, h, x)
    modifies out
    ensures out[..] == WriteColumn(old(out[..]), linear, w, h, x)
  {
    ColumnFits(w, h, x);
    // set entry in columnofs table
    PutInt(out, HEADER_SIZE + 4 * x, dest);
    // set basic column properties
    out[dest + 1] := h % 256;
    out[dest] := 0;
    var d := dest + 3;
    ghost var posted := out[..];
    var y, src := 0, x;
    while y < h
      invariant 0 <= y <= h && d == dest + 3 + y && src == y * w + x
      invariant CopyRun(out[..], linear, w, h, x, d, y) == CopyRun(posted, linear, w, h, x, dest + 3, 0)
      decreases h - y
    {
      CellInRange(y, x, w, h);
      NextRow(y, w, x);
      out[d] := linear[src];
      d := d + 1;
      y := y + 1;
      src := src + w;
    }
    // create end post
    out[d + 1] := END_OF_COLUMN;
  }

  /** The header fields: width, height, top offset, left offset. */
  method WriteHeader(out: array<byte>, w: nat, h: nat)
    requires out.Length == TotalSize(w, h) && HEADER_SIZE <= out.Length
    modifies out
    ensures out[..] == Header(old(out[..]), w, h)
  {
    PutShort(out, 0, w);
    PutShort(out, 2, h);
    PutShort(out, 6, 0);
    PutShort(out, 4, 0);
  }

  /** V_LinearToPatch: `junk` is what the allocator returned for the blob.
      The blob is `Encoded` (whose layout and round trip PatchEncode
      proves) and `memsize` the allocation size 8 + w * (h + 9). */
  method LinearToPatch(linear: seq<byte>, w: nat, h: nat, junk: seq<byte>) returns (out: array<byte>, memsize: nat)
    requires |linear| >= w * h && |junk| == 8 + w * (h + 9)
    ensures fresh(out)
    ensures memsize == 8 + w * (h + 9) == TotalSize(w, h)
    ensures out[..] == Encoded(linear, w, h, junk)
  {
    TotalSizeIs(w, h);
    var total_size := 8 + w * (h + 9);
    out := new byte[total_size](i requires 0 <= i < total_size => junk[i]);
    assert out[..] == junk;
    WriteHeader(out, w, h);
    EmitColumns(out, linear, w, h);
    memsize := total_size;
  }

  /** V_LinearToPatch's column loop, with `dest` walking the posts. */
  method EmitColumns(out: array<byte>, linear: seq<byte>, w: nat, h: nat)
    requires out.Length == TotalSize(w, h) && |linear| >= w * h
    modifies out
    ensures out[..] == EncodeColumns(old(out[..]), linear, w, h, 0)
  {
    ghost var goal := EncodeColumns(out[..], linear, w, h, 0);
    var dest := HEADER_SIZE + 4 * w;
    var x := 0;
    while x < w
      invariant 0 <= x <= w && dest == ColumnBase(w, h, x)
      invariant EncodeColumns(out[..], linear, w, h, x) == goal
      decreases w - x
    {
      EmitColumn(out, linear, w, h, x, dest);
      ColumnFits(w, h, x);
      dest := dest + 3 + h + 2;
      x := x + 1;
    }
  }
}
