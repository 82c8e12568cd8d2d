/**
 * The per-pixel arithmetic of the six patch column writers.  A writer
 * reads one patch byte `s` and, for the blending styles, the byte `d`
 * already in the destination, and stores `Shade(pen, s, d)`.  The two
 * blends are the integer bit tricks of the DosDoom/zdoom translucency
 * tables: `fg2rgb` and `bg2rgb` map a palette index to a packed 32-bit
 * colour whose sum is folded back into an index of the 32*32*32 RGB32k
 * table.  All of it is unsigned 32-bit arithmetic, so it is written in
 * `bv32`.
 */
module Blend {
  import opened Bytes

  /** The drawing styles of a patch (PSTYLE_NORMAL … PSTYLE_TLADD). */
  datatype Style = Normal | Translated | Translucent | TranslatedTranslucent | Additive | TranslatedAdditive

  /** RGB32k is `byte RGB32k[32][32][32]`, indexed as one flat table. */
  const RGB32K_SIZE: nat := 0x8000

  /** Everything a writer looks pixels up in: the style chosen by the
      caller, the colour translation set by V_SetPatchColrng, the two
      translucency tables set by V_SetPatchTL and the global RGB32k. */
  datatype Pen = Pen(style: Style, translation: seq<byte>, fg2rgb: seq<bv32>, bg2rgb: seq<bv32>, rgb32k: seq<byte>)

  predicate Translates(s: Style) {
    s == Translated || s == TranslatedTranslucent || s == TranslatedAdditive
  }

  predicate Blends(s: Style) {
    s == Translucent || s == TranslatedTranslucent || s == Additive || s == TranslatedAdditive
  }

  predicate IsAdditive(s: Style) {
    s == Additive || s == TranslatedAdditive
  }

  /** The translucent fold: `fg = (fg + bg) | 0x1f07c1f; fg & (fg >> 15)`. */
  function TKey(fg: bv32, bg: bv32): (k: bv32)
    ensures k < 0x2_0000
  {
    var v := (fg + bg) | 0x1f07c1f;
    v & (v >> 15)
  }

  /** The additive fold: the carries out of the three colour fields
      (bits 10, 20 and 30 of the sum) are smeared over the fields below
      them before the same fold as the translucent blend. */
  function AKey(fg: bv32, bg: bv32): (k: bv32)
    ensures k < 0x8000
  {
    var a := fg + bg;
    var b := a & 0x4010_0400;
    var a1 := (a | 0x01f0_7c1f) & 0x3fff_ffff;
    var b1 := b - (b >> 5);
    var a2 := a1 | b1;
    a2 & (a2 >> 15)
  }

  function Key(style: Style, fg: bv32, bg: bv32): bv32 {
    if IsAdditive(style) then AKey(fg, bg) else TKey(fg, bg)
  }

  /** Blending palette index s over d looks up a key inside RGB32k. */
  predicate KeyFits(p: Pen, s: byte, d: byte)
    requires |p.fg2rgb| >= 256 && |p.bg2rgb| >= 256
  {
    Key(p.style, p.fg2rgb[s], p.bg2rgb[d]) < 0x8000
  }

  /** The tables are big enough for the style, and every blend key lands
      inside RGB32k: what the writers rely on their caller having set up. */
  ghost predicate Fits(p: Pen) {
    |p.rgb32k| == RGB32K_SIZE &&
    (Translates(p.style) ==> |p.translation| >= 256) &&
    (Blends(p.style) ==>
       |p.fg2rgb| >= 256 && |p.bg2rgb| >= 256 &&
       forall s: byte, d: byte {:trigger KeyFits(p, s, d)} :: KeyFits(p, s, d))
  }

  /** The byte a writer stores for patch byte `s` over destination byte `d`. */
  function Shade(p: Pen, s: byte, d: byte): byte
    requires Fits(p)
  {
    var c: byte := if Translates(p.style) then p.translation[s] else s;
    if Blends(p.style) then
      assert KeyFits(p, c, d);
      var k := Key(p.style, p.fg2rgb[c], p.bg2rgb[d]);
      p.rgb32k[k]
    else c
  }

  /** The style without its translation. */
  function Untranslated(s: Style): (r: Style)
    ensures !Translates(r) && (Blends(r) <==> Blends(s)) && (IsAdditive(r) <==> IsAdditive(s))
  {
    match s
    case Translated => Normal
    case TranslatedTranslucent => Translucent
    case TranslatedAdditive => Additive
    case _ => s
  }

  /** The plain and translated styles ignore the destination: the plain
      writer copies the patch byte, the translated one maps it. */
  lemma OpaqueStyles(p: Pen, s: byte, d: byte)
    requires Fits(p) && !Blends(p.style)
    ensures p.style == Normal ==> Shade(p, s, d) == s
    ensures p.style == Translated ==> Shade(p, s, d) == p.translation[s]
  {
  }

  /** Each translated style is its untranslated style applied to the
      translated byte: `translation[]` is looked up before `fg2rgb`. */
  lemma TranslationFirst(p: Pen, s: byte, d: byte)
    requires Fits(p) && Translates(p.style)
    ensures Fits(p.(style := Untranslated(p.style)))
    ensures Shade(p, s, d) == Shade(p.(style := Untranslated(p.style)), p.translation[s], d)
  {
    if Blends(p.style) {
      var u := p.(style := Untranslated(p.style));
      forall s': byte, d': byte
        ensures KeyFits(u, s', d')
      {
        assert KeyFits(p, s', d');
      }
    }
  }

  /** Adding two colours whose fields leave the top three bits clear
      cannot carry out of the 30-bit packing, and the fold then stays
      inside RGB32k. */
  lemma TranslucentKeyFits(fg: bv32, bg: bv32)
    requires fg < 0x2000_0000 && bg < 0x2000_0000
    ensures TKey(fg, bg) < 0x8000
  {
  }

  /** Tables of such colours fit every style; the additive styles fit
      with any tables, since their key is always below 0x8000. */
  lemma CarrySafeTablesFit(p: Pen)
    requires |p.rgb32k| == RGB32K_SIZE
    requires Translates(p.style) ==> |p.translation| >= 256
    requires Blends(p.style) ==> |p.fg2rgb| >= 256 && |p.bg2rgb| >= 256
    requires !IsAdditive(p.style) && Blends(p.style) ==>
               forall i :: 0 <= i < 256 ==> p.fg2rgb[i] < 0x2000_0000 && p.bg2rgb[i] < 0x2000_0000
    ensures Fits(p)
  {
    if Blends(p.style) {
      forall s: byte, d: byte
        ensures KeyFits(p, s, d)
      {
        if !IsAdditive(p.style) {
          TranslucentKeyFits(p.fg2rgb[s], p.bg2rgb[d]);
        }
      }
    }
  }
}
