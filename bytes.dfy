/**
 * Byte-level helpers shared by the patch codec and the renderer: the byte
 * type, explicit little-endian readers and writers for the 16- and 32-bit
 * fields of the patch format, 16.16 fixed-point constants, and the two
 * arithmetic facts about multiplication and division the layout proofs need.
 */
module Bytes {

  type byte = x: int | 0 <= x < 256

  /** Fixed-point constants of the renderer (16.16). */
  const FRACBITS: nat := 16
  const FRACUNIT: nat := 0x1_0000

  /** `v >> FRACBITS` on a two's-complement fixed_t: an arithmetic shift,
      which is floor division by 2^16 (Dafny's `/` with a positive divisor). */
  function FixedToInt(v: int): int {
    v / FRACUNIT
  }

  /** `v & 0xFFFF` on a two's-complement int: the low 16 bits, which is the
      Euclidean remainder modulo 2^16 for negative values too. */
  function LowBits16(v: int): (r: int)
    ensures 0 <= r < FRACUNIT
  {
    v % FRACUNIT
  }

  /** The signed 16-bit little-endian field at offset i (SwapShort of a short). */
  function I16(p: seq<byte>, i: int): (v: int)
    requires 0 <= i && i + 2 <= |p|
    ensures -0x8000 <= v < 0x8000
  {
    var b0: int, b1: int := p[i], p[i + 1];
    var u := b0 + 256 * b1;
    if u < 0x8000 then u else u - 0x1_0000
  }

  /** The signed 32-bit little-endian field at offset i (SwapLong of an int). */
  function I32(p: seq<byte>, i: int): (v: int)
    requires 0 <= i && i + 4 <= |p|
    ensures -0x8000_0000 <= v < 0x8000_0000
  {
    var b0: int, b1: int, b2: int, b3: int := p[i], p[i + 1], p[i + 2], p[i + 3];
    var u := b0 + 256 * b1 + 0x1_0000 * b2 + 0x100_0000 * b3;
    if u < 0x8000_0000 then u else u - 0x1_0000_0000
  }

  /** Storing an int into a 16-bit field: the value is reduced modulo 2^16
      (two's complement) and laid out low byte first. */
  function LE16(v: int): (b: seq<byte>)
    ensures |b| == 2
  {
    var u := v % 0x1_0000;
    [u % 256, u / 256]
  }

  /** Storing an int into a 32-bit field, modulo 2^32, low byte first. */
  function LE32(v: int): (b: seq<byte>)
    ensures |b| == 4
  {
    var u := v % 0x1_0000_0000;
    [u % 256, (u / 256) % 256, (u / 256 / 256) % 256, u / 256 / 256 / 256]
  }

  lemma I16OfLE16(v: int, p: seq<byte>, i: nat)
    requires -0x8000 <= v < 0x8000
    requires i + 2 <= |p| && p[i..i + 2] == LE16(v)
    ensures I16(p, i) == v
  {
    assert p[i] == LE16(v)[0] && p[i + 1] == LE16(v)[1];
  }

  lemma I32OfLE32(v: int, p: seq<byte>, i: nat)
    requires -0x8000_0000 <= v < 0x8000_0000
    requires i + 4 <= |p| && p[i..i + 4] == LE32(v)
    ensures I32(p, i) == v
  {
    var u := v % 0x1_0000_0000;
    var q1 := u / 256;
    var q2 := q1 / 256;
    var q3 := q2 / 256;
    assert u == 256 * q1 + u % 256;
    assert q1 == 256 * q2 + q1 % 256;
    assert q2 == 256 * q3 + q2 % 256;
    assert p[i] == u % 256 && p[i + 1] == q1 % 256 && p[i + 2] == q2 % 256 && p[i + 3] == q3 by {
      assert p[i..i + 4][0] == p[i] && p[i..i + 4][1] == p[i + 1];
      assert p[i..i + 4][2] == p[i + 2] && p[i..i + 4][3] == p[i + 3];
    }
    assert u == u % 256 + 256 * (q1 % 256) + 0x1_0000 * (q2 % 256) + 0x100_0000 * q3;
  }

  lemma MulNonneg(a: int, b: int)
    requires 0 <= a && 0 <= b
    ensures 0 <= a * b
  {
  }

  /** Row-major cell indices: `y * w + x` splits back into y and x. */
  lemma DivMod(y: int, x: int, w: int)
    requires 0 <= x < w && 0 <= y
    ensures (y * w + x) / w == y && (y * w + x) % w == x
  {
    var n := y * w + x;
    var q, r := n / w, n % w;
    assert n == q * w + r;
    assert (q - y) * w == x - r;
    if q > y {
      MulNonneg(q - y - 1, w);
    } else if q < y {
      MulNonneg(y - q - 1, w);
    }
  }

  /** An offset is its row times the row length plus its column. */
  lemma Split(n: int, w: int)
    requires 0 < w
    ensures n == (n / w) * w + n % w
  {
  }

  /** Every cell (x, y) of a w-by-h image lies inside [0, w*h). */
  lemma CellInRange(y: int, x: int, w: int, h: int)
    requires 0 <= x < w && 0 <= y < h
    ensures 0 <= y * w + x < w * h
  {
    MulNonneg(y, w);
    MulNonneg(h - y - 1, w);
    assert (h - y - 1) * w == h * w - y * w - w;
  }

  /** Distinct cells have distinct row-major indices. */
  lemma CellInjective(y1: int, x1: int, y2: int, x2: int, w: int)
    requires 0 <= x1 < w && 0 <= x2 < w && 0 <= y1 && 0 <= y2
    requires y1 * w + x1 == y2 * w + x2
    ensures y1 == y2 && x1 == x2
  {
    DivMod(y1, x1, w);
    DivMod(y2, x2, w);
  }

  /** The cell below (x, y) is one row further on. */
  lemma NextRow(y: int, w: int, x: int)
    ensures (y + 1) * w + x == y * w + x + w
  {
  }

  /** Multiplying by a non-negative factor is monotone. */
  lemma MulMono(a: int, b: int, c: int)
    requires a <= b && 0 <= c
    ensures a * c <= b * c
  {
    MulNonneg(b - a, c);
    assert (b - a) * c == b * c - a * c;
  }
}
