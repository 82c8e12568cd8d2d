# Patch drawing, EDF sound tables, frag sorting and CTF flags

A Dafny model of four pieces of a Doom source port (the Eternity Engine code base):

- **The patch layer** (`source/v_patch.c`). A patch is the column/post sprite
  format: an 8-byte header, a 32-bit `columnofs` table and, per column, a run of
  posts `{topdelta, length, pad, pixels, pad}` ended by `0xFF`.
  - The codec `V_PatchToLinear` / `V_LinearToPatch`.
  - The vertical clipping of a masked column, scaled and unscaled.
  - The horizontal extents and fixed-point stepping of `V_DrawPatchInt`.
  - The six column writers (plain, translated, translucent, translated
    translucent, additive, translated additive) with their bit-exact blends.
  - The 1:1-scale identity (`PatchIdentity`): a patch drawn unscaled with the
    plain writer shows, wherever a post covers the screen, the pixel the
    converter decodes there.
- **The EDF sound tables** (`eternity/source/e_sound.c`):
  - the 257-chain mnemonic hash and the 257-chain DeHackEd-number hash;
  - the descending automatic number allocator;
  - wad sound creation;
  - the 67-chain ambience hash, and the name-to-index fallbacks of the sound and
    ambience sections.
- **The frags table** (`source/hu_frags.cpp`, `HU_FragsUpdate`): the frag tally
  of each in-game player, and the bubble sort of the player list by total.
- **The CTF flag state machine** (`source/cs_ctf.c`): return, give, touch,
  carried-by, drop, and the dropped-flag timeout of the ticker.

All four are imperative in the original, and so is their shape here:

- **Patch layer.**
  - The destination is a `VBuffer` class holding an `array<byte>` with a pitch.
  - The static `patchcol` context is a `PatchCol` class whose fields the drawing
    methods fill in one by one.
  - Each writer is a loop that writes two rows per pass.
  - The codec fills freshly allocated arrays with nested loops.
- **Sound tables.** `SoundTable` and `AmbienceTable` are classes. Their methods
  prepend to `seq` chains and walk them with `while` loops.
- **Frags.** `Scoreboard` is a class that keeps `totalfrags` and `sortedplayers`
  as arrays and bubble-sorts the list in place.
- **CTF.** `FlagTable` holds the flag records and team scores as arrays.

Every method is proved against a specification function:

| module | specification functions |
|---|---|
| `PatchDecode` | `Decoded` |
| `PatchEncode` | `Encoded` |
| `ColumnDraw` | `Column` |
| `PatchDraw` | `Walk`, `DrawnPatch` |
| `SoundHash` | `SoundTable.Lookup`, `SoundTable.DehLookup`, `AmbienceTable.Find`, `FreeBelow` |
| `Frags` | `Roster`, `Tally`, `Bubble` |
| `Ctf` | `Touch`, `Tick` |

The source's promises are lemmas about those functions.

Conventions of the model:

- **Undefined behaviour.** Where the C code would read or write outside the patch
  blob, the destination buffer, the scaling lookups or the hash arrays, the model
  reports it as an error value instead:
  - `Outcome` for drawing;
  - `Result` / `Status` with `ChainOutOfRange` for the hashes.
  Examples are a post header past the end of the patch, a negative hash index, and
  a sample row outside the patch. The caller-built blend tables and the input
  image of `V_LinearToPatch` are preconditions, not error results (see
  "Left out").
- **Build flags.** The model is of a `RANGECHECK` build: those checks end the draw
  with `RangeCheckFailed` or `BadTextureColumn` instead of calling `I_Error`.
- **Byte order.** `SwapShort` / `SwapLong` are explicit little-endian reads
  (`Bytes.I16`, `Bytes.I32`).
- **Arithmetic.** C's truncating `%` on a negative dividend is `SoundHash.CRem`,
  and `>> FRACBITS` is floor division.

`V_PatchToLinear` is modelled as written. After a post is clipped to the height,
the next post is read at `source + 1`, that is, after the *clipped* count rather
than after `length`.

## Model

| member | source | states |
|---|---|---|
| Bytes.I16 | source/v_patch.c:486 | a header field read with SwapShort is a signed 16-bit value |
| Bytes.I32 | source/v_patch.c:666-667 | a `columnofs` entry read with SwapLong is a signed 32-bit value |
| Bytes.I16OfLE16 | source/v_patch.c:753-756 | a 16-bit field stored little-endian reads back as the stored value |
| Bytes.I32OfLE32 | source/v_patch.c:768 | a 32-bit column offset stored little-endian reads back as the stored value |
| Bytes.LowBits16 | source/v_patch.c:59 | `(y1 * fracstep) & 0xFFFF` is the fractional part, in `[0, FRACUNIT)` |
| Blend.TKey | source/v_patch.c:136-140 | the translucent fold `(fg+bg) \| 0x1f07c1f` then `v & (v >> 15)` stays below 2^17 |
| Blend.AKey | source/v_patch.c:256-265 | the additive mask-and-carry sequence always gives an index inside RGB32k (below 0x8000) |
| Blend.OpaqueStyles | source/v_patch.c:71-132 | the plain writer stores the patch byte; the translated writer stores `translation[s]` |
| Blend.TranslationFirst | source/v_patch.c:196-200 | a translated blend is the untranslated blend applied to `translation[s]` |
| Blend.TranslucentKeyFits | source/v_patch.c:136-140 | with carry-safe table entries (below 2^29), the translucent index lands inside RGB32k |
| Blend.CarrySafeTablesFit | source/v_patch.c:136-200 | tables of that shape are enough for every writer to stay inside its lookups |
| ColumnDraw.Column | source/v_patch.c:46-47 | a column with `y2 - y1 + 1 <= 0` leaves the buffer unchanged and reports success |
| ColumnDraw.ColumnEffect | source/v_patch.c:46-81 | a completed writer draws exactly rows y1..y2 of column x; row `y1+i` gets the shade of `source[(f0 + i*step) >> 16]` over the old byte, with `f0 = frac + ((y1*step) & 0xFFFF)`; every other byte is unchanged; a failed draw changes nothing |
| ColumnDraw.ColumnConfined | source/v_patch.c:55-81 | a writer changes only bytes of its own column |
| ColumnDraw.RowsOn | source/v_patch.c:71-81 | the per-row painting puts `shade(ink[k], old)` at offset `(y+k)*pitch + x` |
| ColumnDraw.RowsOutside | source/v_patch.c:71-81 | the per-row painting leaves every offset outside rows y..y+n of column x unchanged |
| ColumnDraw.Plot | source/v_patch.c:73-81 | one store followed by `dest += pitch`, `frac += fracstep` is one row of the per-row painting |
| ColumnDraw.PlotTwo | source/v_patch.c:71-79 | one pass of the unrolled loop is two rows of the per-row painting |
| ColumnDraw.Run | source/v_patch.c:68-82 | the unroll-by-two loop with its `count & 1` tail equals the per-row painting of all count rows |
| ColumnDraw.WriteColumn | source/v_patch.c:39-382 | each writer's new buffer and outcome are those of `Column` for its style |
| ColumnDraw.PatchCol.constructor | source/v_patch.c:30-31 | the static `patchcol` context and `ytop` start zeroed |
| ColumnDraw.PatchCol.SetColrng | source/v_patch.c:610-613 | sets only the translation table |
| ColumnDraw.PatchCol.SetTL | source/v_patch.c:615-619 | sets only the two translucency tables |
| ColumnDraw.PatchCol.DrawColumn | source/v_patch.c:427-428 | calling `colfunc` on the context is `Column` on the context's fields |
| PatchDecode.ClippedCount | source/v_patch.c:678-680 | the clipped count is the post length, or h - topdelta when the post runs past the height (never more than either) |
| PatchDecode.ColumnStart | source/v_patch.c:666-667 | reading `columnofs[k]` fails exactly when the table entry lies outside the blob |
| PatchDecode.Paint | source/v_patch.c:685-709 | painting a run changes exactly rows top..top+n of the column, to the run's bytes |
| PatchDecode.FillBufferIsFill | source/v_patch.c:654-655 | every byte of the new buffer is fillcolor |
| PatchDecode.Decoded | source/v_patch.c:646-656 | a decode fails with BadSize exactly when the header has a negative width, or a positive width and a negative height; a zero-width header decodes to the empty buffer with the header's height, whatever its sign (`malloc(0)`, no column read) |
| PatchDecode.PaintFlatAt | source/v_patch.c:671-710 | the strided copy at `dest += w` writes pixel (x, top+k) and nothing else |
| PatchDecode.WalkFlatColumn | source/v_patch.c:669-713 | walking one column in the flat buffer changes only column x, which becomes the column-view walk |
| PatchDecode.DecodeColumnsAt | source/v_patch.c:657-713 | the column loop succeeds iff every source column decodes; output column x is source column `Mirror(flipped, w, x)` |
| PatchDecode.DecodedPixels | source/v_patch.c:646-725 | `V_PatchToLinear` succeeds iff the header passes those size checks and every column decodes; pixel (x, y) is row y of source column x (w-1-x when flipped) over fillcolor |
| PatchDecode.FlipMirrors | source/v_patch.c:651-663 | a flipped decode is the exact horizontal mirror of the unflipped decode, and succeeds exactly when it does |
| PatchDecode.BackgroundShowsThroughGaps | source/v_patch.c:654-683 | the fill colour only shows in pixels that no post covers: two walks over different backgrounds agree except where each keeps its own background |
| PatchDecode.UncoveredKeepsBackground | source/v_patch.c:654-683 | a pixel covered by no post keeps the background, and a post with count <= 0 ends the column |
| PatchEncode.ColumnBaseIs | source/v_patch.c:762-786 | `columnofs[x] = 8 + 4w + x*(h+5)` |
| PatchEncode.TotalSizeIs | source/v_patch.c:745-746 | the total size is `8 + w*(h+9)` |
| PatchEncode.ColumnFits | source/v_patch.c:762-786 | each column's h+5 bytes lie after the offset table and inside the allocation |
| PatchEncode.ColumnBaseMono | source/v_patch.c:776-786 | columns are laid out one after another without overlap |
| PatchEncode.Header | source/v_patch.c:752-756 | the header is width w, height h, both offsets 0; the rest of the buffer is untouched |
| PatchEncode.CopyRunAt | source/v_patch.c:779-780 | the copy loop puts `linear[y*w+x]` at `dest + y` and touches nothing else |
| PatchEncode.WriteColumnAt | source/v_patch.c:767-786 | emitting column x changes exactly its offset entry, its post header, its pixels and its terminator |
| PatchEncode.OneColumnLaidOut | source/v_patch.c:767-786 | after emitting, column x is one post `{0, h}` holding the column's pixels, followed by `0xFF`, and its offset entry points at it |
| PatchEncode.OneColumnFrame | source/v_patch.c:767-786 | emitting column x leaves the header, the other offset entries, the other columns and its two pad bytes unchanged |
| PatchEncode.LaidOutKept | source/v_patch.c:765-787 | a laid-out column stays laid out when its bytes are not touched |
| PatchEncode.EncodeColumnsFrame | source/v_patch.c:765-787 | the column loop from x on leaves the header and the earlier offset entries unchanged |
| PatchEncode.OwnPadsKept | source/v_patch.c:776-786 | the pad bytes of a column are never written: they keep the allocation's contents |
| PatchEncode.EncodeColumnsPads | source/v_patch.c:765-787 | the column loop never writes any column's pad bytes |
| PatchEncode.FirstColumnLaidOut | source/v_patch.c:765-787 | the first column the loop emits stays laid out until the loop ends |
| PatchEncode.EncodeColumnsLaidOut | source/v_patch.c:765-787 | after the loop every column from x on is laid out |
| PatchEncode.EncodedLayout | source/v_patch.c:745-786 | the encoded patch has the header (w, h, 0, 0), every column laid out as one full-height post, and pad bytes left as allocated |
| PatchEncode.OffsetsFit | source/v_patch.c:768 | for w < 32768 and h < 256, every column offset fits the 32-bit `columnofs` entry |
| PatchEncode.LaidOutColumnDecodes | source/v_patch.c:663-783 | a laid-out column decodes to exactly the column's pixels |
| PatchEncode.RoundTrip | source/v_patch.c:663-786 | for w < 32768 and h < 256, decoding the encoded buffer unflipped gives back the linear image for every fill colour: no source bytes are lost |
| PatchCodec.StoreRow | source/v_patch.c:707-710 | one `*dest = *source++; dest += w` is one row of the strided copy |
| PatchCodec.CopyFour | source/v_patch.c:689-701 | one pass of the four-row unrolled copy is four rows of the strided copy |
| PatchCodec.CopyPost | source/v_patch.c:685-710 | both copy loops together paint the post's clipped count of bytes from row topdelta |
| PatchCodec.CopyColumn | source/v_patch.c:669-712 | the post walk succeeds exactly when the column-walk specification does, with the same buffer |
| PatchCodec.CopyColumns | source/v_patch.c:663-713 | the column loop, forward or mirrored, succeeds exactly when the specification does, with the same buffer |
| PatchCodec.PatchToLinear | source/v_patch.c:646-725 | the result is `Decoded(patch, flipped, fillcolor)`, whose meaning DecodedPixels and FlipMirrors state |
| PatchCodec.PutShort | source/v_patch.c:753-756 | stores a short little-endian and nothing else |
| PatchCodec.PutInt | source/v_patch.c:768 | stores an int little-endian and nothing else |
| PatchCodec.WriteHeader | source/v_patch.c:752-756 | writes the header fields and nothing else |
| PatchCodec.EmitColumn | source/v_patch.c:767-786 | one iteration of the column loop is `WriteColumn` |
| PatchCodec.EmitColumns | source/v_patch.c:765-787 | the column loop is `EncodeColumns` |
| PatchCodec.LinearToPatch | source/v_patch.c:733-795 | `out` is a new array, `memsize == 8 + w*(h+9)`, and the buffer is `Encoded(linear, w, h, junk)`, whose layout EncodedLayout and RoundTrip state |
| PatchDraw.ScaledPost | source/v_patch.c:390-425 | a scaled post steps to `c + length + 4`; a drawn post has `y1 <= y2 < height`; a post starting above row 0 (`columntop < 0`) is drawn from `y1 = 0` with `frac = -columntop * FRACUNIT`, any other from `y1 = y1lookup[columntop]` with `frac = 0` |
| PatchDraw.UnscaledPost | source/v_patch.c:437-460 | an unscaled post steps to `c + length + 4`; a drawn post has `0 <= y1 <= y2 < height`; a post starting above row 0 gets `frac = (-columntop) << 16`, otherwise 0 |
| PatchDraw.PostAt | source/v_patch.c:388-466 | both walks step by `length + 4` and call the writer only when `y1 <= y2 < height` |
| PatchDraw.WalkConfined | source/v_patch.c:388-466 | a masked column draw changes only its own column |
| PatchDraw.EdgesMirror | source/v_patch.c:491-502 | both extents are w columns wide; the flipped extent is the unflipped one reflected about x |
| PatchDraw.UnscaledPlan | source/v_patch.c:491-596 | unscaled, the visit runs from `max(x1, 0)` to x2, and column k reads texture column `k - x1` (mirrored when flipped) |
| PatchDraw.ColumnsConfined | source/v_patch.c:594-606 | the column loop changes only columns first..last |
| PatchDraw.DrawnPatchConfined | source/v_patch.c:521-606 | a rejected patch (off either side, or an empty extent after remapping) changes nothing; otherwise only the visited columns change |
| PatchDraw.ClipScaled | source/v_patch.c:392-425 | sets y1, y2 and frac of the context as the scaled clip computes them, and nothing else |
| PatchDraw.ClipUnscaled | source/v_patch.c:439-460 | sets y1, y2 and frac of the context as the unscaled clip computes them, and nothing else |
| PatchDraw.DrawMasked | source/v_patch.c:388-466 | the masked-column loop's buffer and outcome are those of `Walk` |
| PatchDraw.DrawColumnAt | source/v_patch.c:596-605 | one column of the patch loop is `ColumnAt` |
| PatchDraw.NextColumn | source/v_patch.c:594-606 | one iteration of the patch loop advances x by one and startfrac by xiscale |
| PatchDraw.DrawColumns | source/v_patch.c:594-606 | the patch loop's buffer and outcome are those of `Columns` |
| PatchDraw.PlanColumns | source/v_patch.c:486-562 | computes the plan `PlanOf`, sets `patchcol.x` to its first column and the step to iyscale or FRACUNIT |
| PatchDraw.DrawPatchInt | source/v_patch.c:478-608 | the buffer and outcome are those of `DrawnPatch`; the context's tables are unchanged |
| PatchDraw.DrawVisible | source/v_patch.c:564-607 | the drawing part of `V_DrawPatchInt` gives `DrawnPlan` |
| PatchIdentity.PostClip | source/v_patch.c:437-460 | unscaled at `ytop = 0`, a post with 1 .. h-topdelta pixels is drawn unclipped on rows topdelta .. topdelta+length-1 from texture row 0, and the walk steps `length + 4` |
| PatchIdentity.PlainCopy | source/v_patch.c:39-83 | the plain writer stepping one texture row per row from row 0 copies the run's bytes onto its rows and changes nothing else |
| PatchIdentity.PlainSamples | source/v_patch.c:59-81 | with `frac = 0` and `fracstep = FRACUNIT`, row i reads `source[i]` |
| PatchIdentity.PostPaints | source/v_patch.c:437-464 | one such post changes only rows 0..h-1 of its column, and there it is the converter's `Paint` of the same run |
| PatchIdentity.WalkPaints | source/v_patch.c:435-466 | the unscaled draw of a fitting column succeeds, changes only rows 0..h-1 of its column, and leaves there what `WalkPosts` paints over the column's old bytes |
| PatchIdentity.ColumnStep | source/v_patch.c:591-605 | screen column px with `startfrac = px*FRACUNIT` walks texture column px, and the loop goes on at px+1 |
| PatchIdentity.ColumnsPaint | source/v_patch.c:591-605 | the column loop from px to w-1 gives every column its own posts' walk and changes nothing outside rows 0..h-1 of columns px..w-1 |
| PatchIdentity.OtherColumnKept | source/v_patch.c:591-605 | a column outside the changed range reads the same afterwards |
| PatchIdentity.OnlyRectJoin | source/v_patch.c:591-605 | changes confined to adjacent column ranges compose into one confined to their union |
| PatchIdentity.FitWalks | source/v_patch.c:669-713 | the converter's walk of a fitting column never fails, over any background |
| PatchIdentity.SameRowKept | source/v_patch.c:669-713 | backgrounds agreeing on a row give walks agreeing on that row |
| PatchIdentity.CoveredSame | source/v_patch.c:669-713 | a row some post covers shows the same byte over any background |
| PatchIdentity.TidyDecodes | source/v_patch.c:646-725 | a tidy patch decodes, and pixel (x, y) is the walk of column x over the fill colour |
| PatchIdentity.TidyDraws | source/v_patch.c:478-608 | `V_DrawPatchInt` of a tidy patch at (0, 0), unscaled and plain, succeeds; column x shows its posts' walk over the old bytes; nothing outside the w*h rectangle changes |
| PatchIdentity.UnscaledShowsDecoded | source/v_patch.c:435-725 | at 1:1 scale, with the plain writer, a tidy patch at (0, 0) draws without error and decodes; screen byte (x, y) is decoded pixel (x, y) wherever a post covers it and keeps its old value elsewhere, and nothing outside the patch's rectangle changes |
| PatchIdentity.EmptyColumnDrawsNothing | source/v_patch.c:388-466 | a column whose first byte is 0xFF leaves the buffer unchanged and ends normally, scaled or unscaled, in every style |
| SoundHash.CRem | eternity/source/e_sound.c:194 | C's `%`: the remainder equals `a % m` for a >= 0 and is <= 0 for a negative dividend |
| SoundHash.DehHash | eternity/source/e_sound.c:194 | the unsigned chain index is in range exactly for a non-negative number, or a negative one divisible by 257 |
| SoundHash.FirstIndex | eternity/source/e_sound.c:164-165 | the rover loop stops at the first entry that matches, or at the end of the chain |
| SoundHash.First | eternity/source/e_sound.c:162-167 | a chain lookup returns a matching member of the chain, and null only when nothing matches |
| SoundHash.WadSound | eternity/source/e_sound.c:305-321 | a new wad sound has the name minus its prefix as mnemonic, number -1 and no cached data |
| SoundHash.FreeBelowSpec | eternity/source/e_sound.c:271-274 | the do-while stops at the largest number <= the counter that is unused, or at 0 or below; every number it passes is in use |
| SoundHash.SoundTable.constructor | eternity/source/e_sound.c:256 | the chains start empty and the allocator at D_MAXINT |
| SoundHash.SoundTable.LookupSpec | eternity/source/e_sound.c:159-168 | `E_SoundForName` returns the first entry in chain `hash(name) % 257` whose mnemonic equals the name case-insensitively; null means no chain holds such a sound |
| SoundHash.SoundTable.DehLookupSpec | eternity/source/e_sound.c:192-201 | `E_SoundForDEHNum` finds a sound with that number in its chain, or null meaning none is hashed; it fails only for a number whose unsigned hash is out of range |
| SoundHash.SoundTable.SoundForName | eternity/source/e_sound.c:159-168 | the rover loop returns `Lookup(name)` |
| SoundHash.SoundTable.EDFSoundForName | eternity/source/e_sound.c:178-184 | "none" in any case returns sound 0 without consulting the table; any other name returns `Lookup` |
| SoundHash.SoundTable.SoundForDEHNum | eternity/source/e_sound.c:192-201 | the rover loop returns `DehLookup(dehnum)` |
| SoundHash.SoundTable.AddSoundToHash | eternity/source/e_sound.c:208-223 | no-op when the mnemonic is already findable (including "none"); otherwise prepends to that mnemonic's chain, after which the lookup finds it; other chains are unchanged |
| SoundHash.SoundTable.AddSoundToDEHHash | eternity/source/e_sound.c:233-245 | a number already present is ignored; number 0 is the reserved-number error; otherwise prepends to chain `dehnum % 257`, after which the lookup finds it; an out-of-range hash is an error |
| SoundHash.SoundTable.NextUnusedDehnum | eternity/source/e_sound.c:271-274 | the loop returns `FreeBelow` of the counter and leaves the counter one below it |
| SoundHash.SoundTable.AutoAllocSoundDEHNumAsWritten | eternity/source/e_sound.c:258-284 | as written: a sound with a number is a RANGECHECK error; a counter <= 0 gives false unchanged; running out gives false; a free number is never stored, so hashing the sound's -1 indexes out of range |
| SoundHash.SoundTable.AutoAllocSoundDEHNum | eternity/source/e_sound.c:258-284 | corrected: the number found is stored in the sound before hashing, which then succeeds and finds the sound by that number; the counter never increases |
| SoundHash.SoundTable.StoreDehnum | eternity/source/e_sound.c:280-281 | storing an unused number in a sound keeps the tables consistent and the number still unhashed |
| SoundHash.SoundTable.NewWadSound | eternity/source/e_sound.c:292-334 | when the mnemonic is absent, appends a sound with the defaults and hashes it, after which the lookup finds it; when present, only clears its cached data |
| SoundHash.SoundTable.AddWadSound | eternity/source/e_sound.c:302-326 | the absent branch: appends the default sound and prepends it to its chain |
| SoundHash.SoundTable.Uncache | eternity/source/e_sound.c:328-333 | clears the cached data of one sound and changes nothing else |
| SoundHash.SoundTable.AppendSound | eternity/source/e_sound.c:305-321 | a sound not yet hashed is added to the store, and no lookup changes |
| SoundHash.AmbienceTable.constructor | eternity/source/e_sound.c:623 | the 67 chains start empty |
| SoundHash.AmbienceTable.FindSpec | eternity/source/e_sound.c:631-640 | `E_AmbienceForNum` finds the entry with that index in chain `num % 67`, or null meaning none is hashed; a negative key is out of range |
| SoundHash.AmbienceTable.AmbienceForNum | eternity/source/e_sound.c:631-640 | the loop returns `Find(num)` |
| SoundHash.AmbienceTable.AddAmbienceToHash | eternity/source/e_sound.c:647-654 | prepends to chain `index % 67`, after which the lookup finds it; a negative key is an error |
| SoundHash.AmbienceTable.RecordFor | eternity/source/e_sound.c:677-685 | an existing record for the index is reused; otherwise a new one with that index is created and hashed |
| SoundHash.AmbienceTable.SetRecord | eternity/source/e_sound.c:687-724 | overwriting a record's fields with the same index changes no lookup |
| SoundHash.AmbienceTable.Define | eternity/source/e_sound.c:677-724 | the record for the index ends up holding the new fields: reused when one exists, otherwise added once and hashed |
| SoundHash.AmbienceTable.ProcessAmbienceSec | eternity/source/e_sound.c:661-727 | a section defines the record for its index with the looked-up type, sound and attenuation, reusing an existing record and never adding a second one |
| SoundHash.NumOrDefaultSpec | eternity/source/e_sound.c:404-437 | a table lookup gives the first case-insensitive match, and the default when no entry matches (the singularity and skin-index fallbacks here, the ambience ones at lines 689-695 and 714-719) |
| SoundHash.Singularity | eternity/source/e_sound.c:404-412 | an unknown singularity name maps to 0, so the result is a valid singularity |
| SoundHash.SkinIndex | eternity/source/e_sound.c:429-437 | an unknown skin index name maps to 0, so the result is a valid skin index |
| SoundHash.AmbienceType | eternity/source/e_sound.c:688-695 | an unknown ambience type maps to 0 (continuous) |
| SoundHash.Attenuation | eternity/source/e_sound.c:711-719 | an unknown attenuation maps to ATTN_NORMAL |
| Frags.RosterSpec | source/hu_frags.cpp:136-146 | the list built before sorting holds exactly the in-game players, in ascending index order |
| Frags.OneMoreFrag | source/hu_frags.cpp:148-155 | one more frag on in-game opponent j adds 1 to the total; one more on yourself subtracts 1; on an absent player it changes nothing |
| Frags.AbsentColumnsIgnored | source/hu_frags.cpp:150-152 | frags against players not in the game do not count |
| Frags.RankedBySortAndStability | source/hu_frags.cpp:160-175 | a list sorted by total whose equal totals are in ascending index order is ranked |
| Frags.AscendingIsStable | source/hu_frags.cpp:136-146 | the ascending roster is stable for any totals |
| Frags.Swapped | source/hu_frags.cpp:169-171 | the three-assignment swap exchanges positions i and i+1 and nothing else |
| Frags.SwapPermutes | source/hu_frags.cpp:169-171 | a swap is a permutation |
| Frags.SwapKeepsStable | source/hu_frags.cpp:166-172 | swapping two players with different totals keeps equal totals in index order |
| Frags.SwapKeepsSettled | source/hu_frags.cpp:164-173 | a swap before the settled tail keeps the tail settled |
| Frags.BubbleStep | source/hu_frags.cpp:166-172 | a comparison swaps only on strict `<` and keeps the pass invariant |
| Frags.BubblePermutes | source/hu_frags.cpp:164-173 | one pass is a permutation |
| Frags.BubbleSpec | source/hu_frags.cpp:164-173 | one pass settles one more position, keeps stability, and a pass that swaps nothing leaves the list sorted |
| Frags.StartPass | source/hu_frags.cpp:163-164 | a pass starts in its invariant |
| Frags.SameElements | source/hu_frags.cpp:169-171 | permuting the list keeps every entry a valid player number |
| Frags.Scoreboard.AddUpFrags | source/hu_frags.cpp:148-155 | the inner loop sets player i's total to its tally and changes no other total |
| Frags.Scoreboard.Collect | source/hu_frags.cpp:136-156 | the first loop lists the roster, sets each in-game total to its tally, and leaves absent players' totals and the rest of the list unchanged |
| Frags.Scoreboard.Swap | source/hu_frags.cpp:169-171 | exchanges two adjacent listed players |
| Frags.Scoreboard.CompareAt | source/hu_frags.cpp:166-172 | swaps i and i+1 exactly when `totalfrags` of i is strictly less |
| Frags.Scoreboard.Pass | source/hu_frags.cpp:163-174 | one `for` loop is the pass `Bubble`, `change` included |
| Frags.Scoreboard.Sort | source/hu_frags.cpp:160-175 | the `while(change)` loop ends with the list a permutation of the old one, non-increasing by total, equal totals in ascending index order |
| Frags.Scoreboard.Update | source/hu_frags.cpp:130-176 | `num_players` is the number of in-game players; the list is a permutation of them, ranked and stable; totals are the tallies and absent players' totals are untouched |
| Ctf.OtherColor | source/cs_ctf.c:157-164 | the other colour is blue for red and red for every other colour |
| Ctf.TouchKeepsSane | source/cs_ctf.c:150-249 | a touch keeps every flag in shape: a home flag fully reset, a dropped flag without carrier or pickup time and with a timeout of at most 10*TICRATE, a carried flag with timeout 0 |
| Ctf.ScoreOnlyOnCapture | source/cs_ctf.c:205-230 | scores change only on a capture: own team, own flag not dropped, the other flag carried by the toucher; then only `team_scores[color]` goes up by one and the other flag goes home |
| Ctf.TouchOutcome | source/cs_ctf.c:166-248 | an enemy flag is taken by the toucher, an own dropped flag returns home, and flags of other colours are unchanged |
| Ctf.TickKeepsSane | source/cs_ctf.c:326-348 | a tick keeps a flag's shape |
| Ctf.DroppedFlagReturns | source/cs_ctf.c:326-348 | a dropped flag counts its timeout up each tick and is home exactly when the timeout passes 10*TICRATE |
| Ctf.OnlyDroppedFlagsTick | source/cs_ctf.c:330 | the timeout branch changes no flag that is not dropped |
| Ctf.FlagTable.constructor | source/cs_ctf.c:51-52 | the zero-initialised statics: every flag record is all zeros (carrier 0, pickup time 0, timeout 0, `flag_home`), the record `CS_ReturnFlag` leaves, and the team scores are zero |
| Ctf.FlagTable.FlagOf | source/cs_ctf.c:252-274 | a player carries the opposing team's flag iff its carrier is the player |
| Ctf.FlagTable.PlayerZeroMatchesResetFlags | source/cs_ctf.c:252-274 | because a reset sets carrier 0 (line 110 of the same file), player 0 "carries" every flag that is not carried |
| Ctf.FlagTable.CarrierFieldMeaning | source/cs_ctf.c:252-274 | for any other player, a match means the flag really is carried |
| Ctf.FlagTable.ReturnFlag | source/cs_ctf.c:92-114 | the flag ends home with carrier, pickup time and timeout 0, and no other flag changes |
| Ctf.FlagTable.GiveFlag | source/cs_ctf.c:116-148 | the flag ends carried by the player with timeout 0 and the world index as pickup time |
| Ctf.FlagTable.HandleFlagTouch | source/cs_ctf.c:150-249 | flags and scores after a touch are `Touch` of the old ones |
| Ctf.FlagTable.GetFlagCarriedByPlayer | source/cs_ctf.c:252-274 | returns `FlagOf` |
| Ctf.FlagTable.DropFlag | source/cs_ctf.c:276-317 | no-op when the player carries no flag; otherwise that flag ends dropped with carrier, pickup time and timeout 0 |
| Ctf.FlagTable.Ticker | source/cs_ctf.c:326-348 | every flag after a tick is `Tick` of the old one: a dropped flag's timeout goes up, and the flag goes home once it passes 10*TICRATE; other flags are unchanged |

## Findings

| source | as written | input that shows it | evidently intended | confidence | as-written member | corrected member |
|---|---|---|---|---|---|---|
| eternity/source/e_sound.c:271-281 | the free number found by the do-while is kept in a local and never stored into `sfx->dehackednum`. `E_AddSoundToDEHHash` then hashes the sound's -1: `-1 % 257` is -1, which converts to the unsigned index 4294967295, out of bounds of `sfx_dehchains` | a sound with `dehackednum == -1`, with the counter at D_MAXINT and number 2147483647 unused | store the number in the sound, then hash it under that number | not executed | SoundHash.SoundTable.AutoAllocSoundDEHNumAsWritten | SoundHash.SoundTable.AutoAllocSoundDEHNum |

## Left out

- **Collaborators.** Aborts, I/O, allocation, logging and sounds are not modelled.
  - `I_Error` aborts become error results.
  - `malloc`'d buffers become fresh arrays. The pad bytes `V_LinearToPatch` never
    writes keep whatever contents they were allocated with (the `junk` parameter).
  - `Z_Malloc`, `Z_Free` and `E_EDFLogPrintf` are left out. A sound's cached data
    is only the `cached` flag.
- **Setup and dispatch.**
  - `V_SetupBufferFuncs` and `V_SetBlockFuncs` are not modelled.
  - The `colfunc` / `maskcolfunc` pointers are the style and the scaled flag.
  - An unknown `drawstyle` cannot be expressed, because `Style` has only the six
    styles.
- **Lookup tables.** The model takes their contents as given.
  - `ylut` and `xlut` are assumed to be `y*pitch` and `x`.
  - The `x1lookup` … `y2lookup`, `RGB32k`, `fg2rgb`, `bg2rgb` and translation
    tables are parameters.
- **Integer width.** 16.16 fixed-point values and the frag totals are unbounded
  integers: 32-bit overflow in `y1*step`, `x1*iscale`, `startfrac` stepping or
  `totalfrags` is not modelled.
- **Environment.**
  - The patch codec assumes a little-endian host.
  - The whole model is single-threaded, as the source is.
- PatchDecode.Decoded: a read past the patch blob is an error result. In C it is
  undefined behaviour.
- ColumnDraw.Column:
  - a writer whose rows run past the buffer (`y2 >= height`) stops with
    `WriteOutsideBuffer` instead of writing out of bounds. `RANGECHECK` checks
    only x and y1;
  - a writer whose samples fall outside the patch stops with `ReadOutsidePatch`.
  - The unscaled path of `V_DrawPatchInt` does not clamp x2 to the width. The
    writer's `RANGECHECK` on x catches that, and the model reproduces it.
- PatchCol fields: the methods state which fields change. The scratch fields
  (`y1`, `y2`, `frac`, `source`) left behind after a walk are not stated.
- ClipScaled: the scaled `columntop + length - 1` clamp uses the `y2lookup` table
  exactly as given. Nothing is proved about the relation between the scaled and
  unscaled geometry.
- Blend.Fits: the column writers, `Walk`, `DrawnPatch` and `DrawPatchInt` require
  the caller-built tables to fit. RGB32k must have its full size. A translating
  style needs a translation table of at least 256 entries. A blending style needs
  fg2rgb and bg2rgb tables of at least 256 entries, and every blend key must stay
  below 0x8000. Out-of-range table reads are excluded, not reported.
  `CarrySafeTablesFit` gives a sufficient table shape.
- PatchCodec.LinearToPatch: it requires `w, h >= 0` and at least `w*h` source
  bytes. A negative size or a short source image is excluded, not reported.
- PatchIdentity.UnscaledShowsDecoded: it is stated for an unscaled buffer, the
  plain writer, a patch at (0, 0) with zero offsets, no larger than the buffer,
  whose posts each hold 1 to h - topdelta pixels. For other posts the drawer and
  the converter differ as written:
  - the converter clips a post to the picture height, reads the next post after
    the clipped count, and ends the column at a post left with no rows;
  - the drawer clips to the buffer, skips an empty post and steps `length + 4`.
  Scaled buffers and the other styles are covered only by the per-operation
  contracts.
- PatchEncode.RoundTrip: it holds only for `w < 32768` and `h < 256`. The length
  byte keeps only `h % 256`, and the 16-bit header and 32-bit offsets must hold
  their values.
- **Constants from headers.** These constants come from headers that are not
  part of this model, and their values are assumed:
  - `team_color_max` = 3, `TICRATE` = 35 and `flag_home` = 0;
  - `D_MAXINT` = 0x7fffffff and `ATTN_NORMAL` = 0.
  `team_scores` is declared outside `cs_ctf.c`. It is assumed zero-initialised,
  like the `cs_flags` statics.
- **Hashing.**
  - `D_HashTableKey` is not part of this model. It is an abstract `key` function,
    assumed to give case-insensitively equal names the same hash, which is how
    `strcasecmp` lookups can use it.
  - `E_StrToNumLinear` is modelled as a first case-insensitive match.
- **Sound processing.** The libConfuse reading `E_ProcessSound`, `E_ProcessSounds`,
  `E_ProcessSoundDeltas` and `E_ProcessAmbience` do is left out. Only their
  name-to-index fallbacks and the ambience section logic are modelled.
- **Cut from `e_sound.c`.**
  - `E_PreCacheSounds` is a sound-system side effect.
  - `clipping_dist` and `close_dist` are fixed-point defaults with no logic.
- `E_NewWadSound`: NewWadSound takes lump names of 2 to 8 characters. The
  `strncpy` of up to 9 characters into a 9-byte buffer is not modelled beyond
  that.
- SoundHash.AmbienceTable.ProcessAmbienceSec: it looks up the sound before
  creating the record, and the source does it after. `E_SoundForName` changes
  nothing, so the result is the same.
- **Frags.**
  - `MAXPLAYERS` is the scoreboard's `maxPlayers`, and `playeringame`/`frags` are
    parameters.
  - The list holds player numbers in place of `player_t` pointers.
  - `HU_FragsDrawer`, `HU_FragsErase` and the console command and variable are
    UI.
- **CTF.**
  - Not modelled: actor spawning and removal, net IDs, flag stands, positions,
    `doom_printf` messages, announcer sounds, and the carried-flag branch of
    `CS_CTFTicker` that moves the flag actor with its carrier (and its `I_Error`).
  - The client or server world index for `pickup_time` is the `now` parameter.
  - The toucher's team (`clients[playernum].team`) is a parameter.
