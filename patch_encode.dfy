/**
 * Conversion of a linear (row-major) bitmap into a patch, as performed by
 * V_LinearToPatch: every column becomes one post holding all h pixels.
 *
 * `Encoded` applies the converter's writes, in its order, to the freshly
 * allocated buffer (whose initial contents `junk` are whatever the allocator
 * returned); `EncodedLayout` states the resulting byte layout, and
 * `RoundTrip` proves that decoding the result gives the bitmap back.
 */
module PatchEncode {
  import opened Bytes
  import opened PatchDecode

  /** Byte offset of column x's post: the posts follow the header and the
      offset table, and each takes h + 5 bytes (post header, h pixels, two
      pads, end-of-column marker). */
  function ColumnBase(w: nat, h: nat, x: nat): (b: nat)
    ensures HEADER_SIZE + 4 * w <= b
    decreases x
  {
    if x == 0 then HEADER_SIZE + 4 * w else ColumnBase(w, h, x - 1) + h + 5
  }

  /** Bytes in a converted patch: everything up to the end of the last post. */
  function TotalSize(w: nat, h: nat): nat {
    ColumnBase(w, h, w)
  }

  lemma {:induction false} ColumnBaseIs(w: nat, h: nat, x: nat)
    ensures ColumnBase(w, h, x) == 8 + 4 * w + x * (h + 5)
    decreases x
  {
    if x > 0 {
      ColumnBaseIs(w, h, x - 1);
    }
  }

  /** The allocation size the converter computes, 8 + w * (h + 9), is
      exactly the bytes the layout uses. */
  lemma TotalSizeIs(w: nat, h: nat)
    ensures TotalSize(w, h) == 8 + w * (h + 9)
  {
    ColumnBaseIs(w, h, w);
  }

  lemma {:induction false} ColumnBaseMono(w: nat, h: nat, x: nat, x': nat)
    requires x < x'
    ensures ColumnBase(w, h, x) + h + 5 <= ColumnBase(w, h, x')
    decreases x'
  {
    if x + 1 < x' {
      ColumnBaseMono(w, h, x, x' - 1);
    }
  }

  lemma ColumnFits(w: nat, h: nat, x: nat)
    requires x < w
    ensures HEADER_SIZE + 4 * w <= ColumnBase(w, h, x)
    ensures ColumnBase(w, h, x) + h + 5 <= TotalSize(w, h)
  {
    ColumnBaseMono(w, h, x, w);
    if x > 0 {
      ColumnBaseMono(w, h, 0, x);
    }
  }

  /** A 16-bit field stored at offset i, low byte first. */
  function Store16(buf: seq<byte>, i: nat, v: int): (r: seq<byte>)
    requires i + 2 <= |buf|
    ensures |r| == |buf|
  {
    var e := LE16(v);
    buf[i := e[0]][i + 1 := e[1]]
  }

  /** A 32-bit field stored at offset i, low byte first. */
  function Store32(buf: seq<byte>, i: nat, v: int): (r: seq<byte>)
    requires i + 4 <= |buf|
    ensures |r| == |buf|
  {
    var e := LE32(v);
    buf[i := e[0]][i + 1 := e[1]][i + 2 := e[2]][i + 3 := e[3]]
  }

  /** Rows y .. h-1 of column x of the bitmap, copied to offsets d, d+1, ... */
  function CopyRun(out: seq<byte>, linear: seq<byte>, w: nat, h: nat, x: nat, d: nat, y: nat): (r: seq<byte>)
    requires x < w && y <= h && |linear| >= w * h && d + (h - y) <= |out|
    ensures |r| == |out|
    decreases h - y
  {
    if y == h then out
    else CopyRun(out[d := At(linear, w, h, x, y)], linear, w, h, x, d + 1, y + 1)
  }

  /** Column x: the offset table entry, the post header (length, then
      topdelta), the pixels, and the end-of-column marker. */
  function WriteColumn(out: seq<byte>, linear: seq<byte>, w: nat, h: nat, x: nat): (r: seq<byte>)
    requires x < w && |out| == TotalSize(w, h) && |linear| >= w * h
    ensures |r| == |out|
  {
    var b := ColumnBase(w, h, x);
    ColumnFits(w, h, x);
    var o1 := Store32(out, HEADER_SIZE + 4 * x, b);
    var o2 := o1[b + 1 := h % 256][b := 0];
    var o3 := CopyRun(o2, linear, w, h, x, b + 3, 0);
    o3[b + 4 + h := END_OF_COLUMN]
  }

  /** Columns x .. w-1. */
  function EncodeColumns(out: seq<byte>, linear: seq<byte>, w: nat, h: nat, x: nat): (r: seq<byte>)
    requires x <= w && |out| == TotalSize(w, h) && |linear| >= w * h
    ensures |r| == |out|
    decreases w - x
  {
    if x == w then out
    else EncodeColumns(WriteColumn(out, linear, w, h, x), linear, w, h, x + 1)
  }

  /** The header: width, height, top offset, left offset. */
  function Header(junk: seq<byte>, w: nat, h: nat): (r: seq<byte>)
    requires |junk| == TotalSize(w, h)
    ensures |r| == |junk|
    ensures r[0..2] == LE16(w) && r[2..4] == LE16(h) && r[4..6] == LE16(0) && r[6..8] == LE16(0)
    ensures forall i :: HEADER_SIZE <= i < |junk| ==> r[i] == junk[i]
  {
    Store16(Store16(Store16(Store16(junk, 0, w), 2, h), 6, 0), 4, 0)
  }

  /** The converted patch: header (width, height, zero offsets), then every
      column, all written over the allocator's contents `junk`. */
  function Encoded(linear: seq<byte>, w: nat, h: nat, junk: seq<byte>): (r: seq<byte>)
    requires |junk| == TotalSize(w, h) && |linear| >= w * h
    ensures |r| == TotalSize(w, h)
  {
    EncodeColumns(Header(junk, w, h), linear, w, h, 0)
  }

  // ---------------------------------------------------------------------
  // Layout

  /** Column x is one post from row 0 holding the column's h pixels (its
      length byte is h modulo 256), followed by the end-of-column marker, and
      the offset table points at it. */
  ghost predicate ColumnLaidOut(r: seq<byte>, linear: seq<byte>, w: nat, h: nat, x: nat)
    requires x < w && |r| == TotalSize(w, h) && |linear| >= w * h
  {
    ColumnFits(w, h, x);
    var b := ColumnBase(w, h, x);
    r[HEADER_SIZE + 4 * x..HEADER_SIZE + 4 * x + 4] == LE32(b) &&
    r[b] == 0 && r[b + 1] == h % 256 &&
    r[b + 3..b + 3 + h] == Column(linear, w, h, x) &&
    r[b + 4 + h] == END_OF_COLUMN
  }

  lemma {:induction false} CopyRunAt(out: seq<byte>, linear: seq<byte>, w: nat, h: nat, x: nat, d: nat, y: nat)
    requires x < w && y <= h && |linear| >= w * h && d + (h - y) <= |out|
    ensures forall i :: 0 <= i < |out| && !(d <= i < d + (h - y)) ==> CopyRun(out, linear, w, h, x, d, y)[i] == out[i]
    ensures forall j :: y <= j < h ==> CopyRun(out, linear, w, h, x, d, y)[d + (j - y)] == At(linear, w, h, x, j)
    decreases h - y
  {
    if y < h {
      CopyRunAt(out[d := At(linear, w, h, x, y)], linear, w, h, x, d + 1, y + 1);
    }
  }

  /** a and b agree on offsets lo .. hi-1. */
  ghost predicate SameOn(a: seq<byte>, b: seq<byte>, lo: int, hi: int)
    requires |a| == |b|
  {
    forall i :: 0 <= lo <= i < hi <= |a| ==> a[i] == b[i]
  }

  /** Byte i after column x's writes. */
  function ColumnByte(out: seq<byte>, linear: seq<byte>, w: nat, h: nat, x: nat, i: nat): byte
    requires x < w && |linear| >= w * h && i < |out|
  {
    var b := ColumnBase(w, h, x);
    if HEADER_SIZE + 4 * x <= i < HEADER_SIZE + 4 * x + 4 then LE32(b)[i - HEADER_SIZE - 4 * x]
    else if i == b then 0
    else if i == b + 1 then h % 256
    else if b + 3 <= i < b + 3 + h then At(linear, w, h, x, i - b - 3)
    else if i == b + 4 + h then END_OF_COLUMN
    else out[i]
  }

  lemma WriteColumnAt(out: seq<byte>, linear: seq<byte>, w: nat, h: nat, x: nat)
    requires x < w && |out| == TotalSize(w, h) && |linear| >= w * h
    ensures forall i :: 0 <= i < |out| ==> WriteColumn(out, linear, w, h, x)[i] == ColumnByte(out, linear, w, h, x, i)
  {
    ColumnFits(w, h, x);
    var b := ColumnBase(w, h, x);
    var o1 := Store32(out, HEADER_SIZE + 4 * x, b);
    var o2 := o1[b + 1 := h % 256][b := 0];
    CopyRunAt(o2, linear, w, h, x, b + 3, 0);
    var o3 := CopyRun(o2, linear, w, h, x, b + 3, 0);
    forall i | 0 <= i < |out|
      ensures WriteColumn(out, linear, w, h, x)[i] == ColumnByte(out, linear, w, h, x, i)
    {
      if b + 3 <= i < b + 3 + h {
        assert o3[b + 3 + (i - b - 3 - 0)] == At(linear, w, h, x, i - b - 3);
      }
    }
  }

  /** One column's writes lay that column out. */
  lemma OneColumnLaidOut(out: seq<byte>, linear: seq<byte>, w: nat, h: nat, x: nat)
    requires x < w && |out| == TotalSize(w, h) && |linear| >= w * h
    ensures ColumnLaidOut(WriteColumn(out, linear, w, h, x), linear, w, h, x)
  {
    ColumnFits(w, h, x);
    var b := ColumnBase(w, h, x);
    var o := WriteColumn(out, linear, w, h, x);
    WriteColumnAt(out, linear, w, h, x);
    assert o[HEADER_SIZE + 4 * x..HEADER_SIZE + 4 * x + 4] == LE32(b);
    forall y | 0 <= y < h
      ensures o[b + 3..b + 3 + h][y] == Column(linear, w, h, x)[y]
    {
      assert ColumnByte(out, linear, w, h, x, b + 3 + y) == At(linear, w, h, x, y);
    }
  }

  /** One column's writes touch nothing outside the column's table entry
      and its post, and leave the post's two pad bytes alone. */
  lemma OneColumnFrame(out: seq<byte>, linear: seq<byte>, w: nat, h: nat, x: nat)
    requires x < w && |out| == TotalSize(w, h) && |linear| >= w * h
    ensures ColumnBase(w, h, x) + h + 5 <= |out|
    ensures SameOn(WriteColumn(out, linear, w, h, x), out, 0, HEADER_SIZE + 4 * x)
    ensures SameOn(WriteColumn(out, linear, w, h, x), out, HEADER_SIZE + 4 * x + 4, ColumnBase(w, h, x))
    ensures SameOn(WriteColumn(out, linear, w, h, x), out, ColumnBase(w, h, x) + h + 5, |out|)
    ensures WriteColumn(out, linear, w, h, x)[ColumnBase(w, h, x) + 2] == out[ColumnBase(w, h, x) + 2]
    ensures WriteColumn(out, linear, w, h, x)[ColumnBase(w, h, x) + 3 + h] == out[ColumnBase(w, h, x) + 3 + h]
  {
    ColumnFits(w, h, x);
    WriteColumnAt(out, linear, w, h, x);
  }

  /** A laid-out column stays laid out under any change away from its
      table entry and its post. */
  lemma LaidOutKept(a: seq<byte>, r: seq<byte>, linear: seq<byte>, w: nat, h: nat, x: nat)
    requires x < w && |a| == TotalSize(w, h) && |r| == |a| && |linear| >= w * h
    requires ColumnLaidOut(a, linear, w, h, x)
    requires SameOn(r, a, HEADER_SIZE + 4 * x, HEADER_SIZE + 4 * x + 4)
    requires ColumnBase(w, h, x) + h + 5 <= |a|
    requires SameOn(r, a, ColumnBase(w, h, x), ColumnBase(w, h, x) + h + 5)
    ensures ColumnLaidOut(r, linear, w, h, x)
  {
    ColumnFits(w, h, x);
    var b := ColumnBase(w, h, x);
    assert r[HEADER_SIZE + 4 * x..HEADER_SIZE + 4 * x + 4] == a[HEADER_SIZE + 4 * x..HEADER_SIZE + 4 * x + 4];
    assert r[b + 3..b + 3 + h] == a[b + 3..b + 3 + h];
  }

  /** Writing columns x .. w-1 leaves the header, the table entries and
      posts of the earlier columns alone. */
  lemma {:induction false} EncodeColumnsFrame(out: seq<byte>, linear: seq<byte>, w: nat, h: nat, x: nat)
    requires x <= w && |out| == TotalSize(w, h) && |linear| >= w * h
    ensures SameOn(EncodeColumns(out, linear, w, h, x), out, 0, HEADER_SIZE + 4 * x)
    ensures SameOn(EncodeColumns(out, linear, w, h, x), out, 8 + 4 * w, ColumnBase(w, h, x))
    decreases w - x
  {
    if x < w {
      var o := WriteColumn(out, linear, w, h, x);
      var r := EncodeColumns(o, linear, w, h, x + 1);
      assert EncodeColumns(out, linear, w, h, x) == r;
      OneColumnFrame(out, linear, w, h, x);
      EncodeColumnsFrame(o, linear, w, h, x + 1);
      ColumnFits(w, h, x);
      var b := ColumnBase(w, h, x);
      assert ColumnBase(w, h, x + 1) == b + h + 5;
      assert SameOn(r, o, 0, HEADER_SIZE + 4 * x + 4);
      assert SameOn(r, out, 0, HEADER_SIZE + 4 * x);
      assert SameOn(r, o, 8 + 4 * w, b + h + 5);
      assert SameOn(o, out, HEADER_SIZE + 4 * x + 4, b);
    }
  }

  /** The two pad bytes of column x's post: after the post header, and
      after the pixels. */
  function Pads(r: seq<byte>, w: nat, h: nat, x: nat): (byte, byte)
    requires x < w && |r| == TotalSize(w, h)
  {
    ColumnFits(w, h, x);
    (r[ColumnBase(w, h, x) + 2], r[ColumnBase(w, h, x) + 3 + h])
  }

  /** Writing columns x .. w-1 leaves the pad bytes of column x alone. */
  lemma OwnPadsKept(out: seq<byte>, linear: seq<byte>, w: nat, h: nat, x: nat)
    requires x < w && |out| == TotalSize(w, h) && |linear| >= w * h
    ensures Pads(EncodeColumns(out, linear, w, h, x), w, h, x) == Pads(out, w, h, x)
  {
    var o := WriteColumn(out, linear, w, h, x);
    var r := EncodeColumns(o, linear, w, h, x + 1);
    assert EncodeColumns(out, linear, w, h, x) == r;
    OneColumnFrame(out, linear, w, h, x);
    EncodeColumnsFrame(o, linear, w, h, x + 1);
    ColumnFits(w, h, x);
    var b := ColumnBase(w, h, x);
    assert ColumnBase(w, h, x + 1) == b + h + 5;
    assert r[b + 2] == o[b + 2] && r[b + 3 + h] == o[b + 3 + h];
  }

  /** Writing columns x .. w-1 leaves every pad byte of theirs alone. */
  lemma {:induction false} EncodeColumnsPads(out: seq<byte>, linear: seq<byte>, w: nat, h: nat, x: nat, x': nat)
    requires x <= x' < w && |out| == TotalSize(w, h) && |linear| >= w * h
    ensures Pads(EncodeColumns(out, linear, w, h, x), w, h, x') == Pads(out, w, h, x')
    decreases w - x
  {
    if x < x' {
      var o := WriteColumn(out, linear, w, h, x);
      assert EncodeColumns(out, linear, w, h, x) == EncodeColumns(o, linear, w, h, x + 1);
      EncodeColumnsPads(o, linear, w, h, x + 1, x');
      OneColumnFrame(out, linear, w, h, x);
      ColumnFits(w, h, x');
      ColumnBaseMono(w, h, x, x');
    } else {
      OwnPadsKept(out, linear, w, h, x);
    }
  }

  /** The first column written stays laid out while the rest are written. */
  lemma FirstColumnLaidOut(out: seq<byte>, linear: seq<byte>, w: nat, h: nat, x: nat)
    requires x < w && |out| == TotalSize(w, h) && |linear| >= w * h
    ensures ColumnLaidOut(EncodeColumns(out, linear, w, h, x), linear, w, h, x)
  {
    var o := WriteColumn(out, linear, w, h, x);
    assert EncodeColumns(out, linear, w, h, x) == EncodeColumns(o, linear, w, h, x + 1);
    OneColumnLaidOut(out, linear, w, h, x);
    EncodeColumnsFrame(o, linear, w, h, x + 1);
    ColumnFits(w, h, x);
    LaidOutKept(o, EncodeColumns(o, linear, w, h, x + 1), linear, w, h, x);
  }

  /** After writing columns x .. w-1, each of them is laid out. */
  lemma {:induction false} EncodeColumnsLaidOut(out: seq<byte>, linear: seq<byte>, w: nat, h: nat, x: nat, x': nat)
    requires x <= x' < w && |out| == TotalSize(w, h) && |linear| >= w * h
    ensures ColumnLaidOut(EncodeColumns(out, linear, w, h, x), linear, w, h, x')
    decreases w - x
  {
    if x < x' {
      var o := WriteColumn(out, linear, w, h, x);
      assert EncodeColumns(out, linear, w, h, x) == EncodeColumns(o, linear, w, h, x + 1);
      EncodeColumnsLaidOut(o, linear, w, h, x + 1, x');
    } else {
      FirstColumnLaidOut(out, linear, w, h, x);
    }
  }

  /** The byte layout of a converted patch: the header holds the width and
      height (as 16-bit fields) and zero offsets, the offset table points at
      one post per column holding that column's pixels, and the pad bytes
      are whatever the allocator left. */
  lemma EncodedLayout(linear: seq<byte>, w: nat, h: nat, junk: seq<byte>)
    requires |junk| == TotalSize(w, h) && |linear| >= w * h
    ensures var r := Encoded(linear, w, h, junk);
            r[0..2] == LE16(w) && r[2..4] == LE16(h) && r[4..6] == LE16(0) && r[6..8] == LE16(0)
    ensures forall x :: 0 <= x < w ==> ColumnLaidOut(Encoded(linear, w, h, junk), linear, w, h, x)
    ensures forall x :: 0 <= x < w ==> Pads(Encoded(linear, w, h, junk), w, h, x) == Pads(junk, w, h, x)
  {
    var o := Header(junk, w, h);
    EncodeColumnsFrame(o, linear, w, h, 0);
    var r := EncodeColumns(o, linear, w, h, 0);
    assert r[0..2] == o[0..2] && r[2..4] == o[2..4] && r[4..6] == o[4..6] && r[6..8] == o[6..8];
    forall x | 0 <= x < w
      ensures ColumnLaidOut(r, linear, w, h, x)
      ensures Pads(r, w, h, x) == Pads(junk, w, h, x)
    {
      ColumnFits(w, h, x);
      EncodeColumnsLaidOut(o, linear, w, h, 0, x);
      EncodeColumnsPads(o, linear, w, h, 0, x);
    }
  }

  // ---------------------------------------------------------------------
  // Round trip

  /** Two w*h buffers that agree on every pixel are equal. */
  lemma AtExtensional(a: seq<byte>, b: seq<byte>, w: nat, h: nat)
    requires |a| == w * h && |b| == w * h
    requires forall x, y :: 0 <= x < w && 0 <= y < h ==> At(a, w, h, x, y) == At(b, w, h, x, y)
    ensures a == b
  {
    forall i | 0 <= i < |a|
      ensures a[i] == b[i]
    {
      var y, x := i / w, i % w;
      if y >= h {
        MulMono(h, y, w);
      }
      assert At(a, w, h, x, y) == At(b, w, h, x, y);
    }
  }

  /** The offsets a converted patch stores fit its signed 32-bit table when
      the width fits its 16-bit field and the height its length byte. */
  lemma OffsetsFit(w: nat, h: nat)
    requires w < 0x8000 && h < 256
    ensures TotalSize(w, h) < 0x8000_0000
  {
    TotalSizeIs(w, h);
    MulMono(w, 0x8000, h + 9);
    MulMono(h + 9, 265, 0x8000);
  }

  /** A laid-out column decodes to the bitmap's column. */
  lemma LaidOutColumnDecodes(e: seq<byte>, linear: seq<byte>, w: nat, h: nat, fill: byte, x: nat)
    requires |linear| == w * h && |e| == TotalSize(w, h) && w < 0x8000 && h < 256 && x < w
    requires ColumnLaidOut(e, linear, w, h, x)
    ensures SourceColumn(e, x, h, fill) == Ok(Column(linear, w, h, x))
  {
    ColumnFits(w, h, x);
    OffsetsFit(w, h);
    var b := ColumnBase(w, h, x);
    I32OfLE32(b, e, HEADER_SIZE + 4 * x);
    assert ColumnStart(e, x) == Ok(b);
    var background := seq(h, _ => fill);
    assert e[b] == 0 && e[b + 1] == h;
    assert ClippedCount(e[b], e[b + 1], h) == h;
    if h > 0 {
      var col := Paint(background, 0, e[b + 3..b + 3 + h]);
      assert col == Column(linear, w, h, x);
      assert e[b + 4 + h] == END_OF_COLUMN;
      assert WalkPosts(e, b + 4 + h, col) == Ok(col);
      assert WalkPosts(e, b, background) == WalkPosts(e, b + 4 + h, col);
    } else {
      assert background == Column(linear, w, h, x);
    }
  }

  /** Decoding a converted bitmap gives the bitmap back, provided its width
      fits the 16-bit width field and its height the 8-bit post length. */
  lemma RoundTrip(linear: seq<byte>, w: nat, h: nat, junk: seq<byte>, fill: byte)
    requires |linear| == w * h && |junk| == TotalSize(w, h)
    requires w < 0x8000 && h < 256
    ensures Decoded(Encoded(linear, w, h, junk), false, fill) == Ok(Linear(linear, w, h))
  {
    var e := Encoded(linear, w, h, junk);
    EncodedLayout(linear, w, h, junk);
    I16OfLE16(w, e, 0);
    I16OfLE16(h, e, 2);
    assert HeaderOk(e) && Width(e) == w && Height(e) == h;
    forall x | 0 <= x < w
      ensures SourceColumn(e, Mirror(false, w, x), h, fill) == Ok(Column(linear, w, h, x))
    {
      LaidOutColumnDecodes(e, linear, w, h, fill, x);
    }
    assert ColumnsOk(e, false, fill);
    DecodedPixels(e, false, fill);
    var img := Decoded(e, false, fill).value;
    assert Depicts(img, e, false, fill);
    forall x, y | 0 <= x < w && 0 <= y < h
      ensures At(img.pixels, w, h, x, y) == At(linear, w, h, x, y)
    {
      assert SourceColumn(e, Mirror(false, w, x), h, fill).value[y] == Column(linear, w, h, x)[y];
    }
    AtExtensional(img.pixels, linear, w, h);
  }
}
