# quirc: a verified model of the decoder object, the demo utilities and the JavaScript glue

quirc is a small C library that finds and decodes QR codes in greyscale
images, with demo programs and a WebAssembly build whose JavaScript glue
passes arrays and strings to the native code. This project models, in Dafny,
the parts of quirc that manage state and move bytes, and proves what they
promise:

- **The decoder object** (`lib/quirc.c`). This covers `quirc_new`, the
  ownership rules of `quirc_set_image_buffer` and the transactional
  `quirc_resize`. Resize either succeeds completely or leaves the decoder
  as it was, and it never replaces or frees a caller-owned image. The
  model also covers `quirc_count`, `quirc_strerror` with its error table,
  and the buffers `quirc_destroy` frees. `struct quirc` is the class
  `QuircDecoder.Decoder`, and its buffers are Dafny arrays. The result of
  each allocation is a parameter, and every `free` is recorded in a ghost
  log.
- **The public value types** (`lib/quirc.hpp`). These are the decode-error
  enumeration and its numbering, points, codes with four corners, the
  cell-bitmap bit addressing, data records and results (`QuircTypes`).
- **The demo pixel conversions** (`demo/convert.c`). The model proves the
  clamping of `CHANNEL_CLAMP` and the YUYV→BGRx, YUYV→luma and BGRx→luma
  loops over pitched buffers (`Convert`). Each loop is an imperative method
  over an `array`. It is proved equal to `Converted`, a declarative
  description of the whole destination. Lemmas about `Converted` give each
  byte's value, and show that the padding bytes and everything outside the
  rows are left alone.
- **The demos' size parser** `parse_size` (`demo/demoutil.c`). It is proved
  to succeed exactly on texts that `Denotes` a size, and to leave its
  outputs alone otherwise (`DemoUtil`).
- **The JavaScript glue** (`lib/quirc-glue.js`). This covers the
  `ensureCache` scratch arena (`GlueCache`) and the per-class wrapper cache
  behind `wrapPointer`, `destroy` and `compare` (`GlueObjects`). The arena
  uses aligned bump allocation, spills to temporary allocations, and grows
  on the next `prepare`. Its staging functions are `ensureString` and
  `ensureInt8`…`ensureFloat64`.

`Wrappers` holds the shared `Option` type.

## Model

| member | source | states |
|---|---|---|
| QuircTypes.ErrorCode | lib/quirc.hpp:16-25 | every decode error has a code in 0..7, and only `SUCCESS` has code 0 |
| QuircTypes.ErrorFromCode | lib/quirc.hpp:16-25 | exactly the integers 0..7 name an enumerator, and the one named has that code |
| QuircTypes.ErrorCodeRoundTrip | lib/quirc.hpp:16-25 | enumerator → code → enumerator is the identity, so the codes are distinct |
| QuircTypes.Corners.AsArray | lib/quirc.hpp:32-34 | a code has exactly four corners, top-left first and then clockwise |
| QuircTypes.MasksDisjoint | lib/quirc.hpp:36-43 | the masks `1 << k` of different bit positions share no bit and are non-zero |
| QuircTypes.ShiftAndMask | lib/quirc.hpp:36-43 | for a non-negative index i, the header's byte index `i >> 3` is i / 8 and its bit index `i & 7` is i % 8 |
| QuircTypes.CellBit | lib/quirc.hpp:36-43 | the cell of linear index i is black exactly when `cell_bitmap[i >> 3] & (1 << (i & 7))` is non-zero, with `>>` and `&` as C computes them on non-negative integers |
| QuircTypes.CellAt | lib/quirc.hpp:36-43 | cell (x, y) of a well-formed code is black exactly when `cell_bitmap[i >> 3] & (1 << (i & 7))` is non-zero for i = y * size + x, and that byte lies inside the bitmap |
| QuircTypes.WithCell | lib/quirc.hpp:36-43 | setting or clearing cell i's bit `cell_bitmap[i >> 3] & (1 << (i & 7))` makes cell i read as requested and leaves every other cell as it was |
| QuircTypes.CellIndexInRange | lib/quirc.hpp:36-43 | for x, y < size, the index `y * size + x` is below `size * size` |
| QuircTypes.CellIndexDecodes | lib/quirc.hpp:36-43 | the index `y * size + x` gives back x as its remainder and y as its quotient by size |
| QuircTypes.CellIndexInjective | lib/quirc.hpp:36-43 | distinct cells have distinct linear indices |
| QuircTypes.SetCellFrame | lib/quirc.hpp:36-43 | writing the bit of cell (x, y) changes that cell and no other cell of the code |
| QuircDecoder.ResizeSucceeds | lib/quirc.c:78-137 | a negative size or a failed work-area allocation always fails; an owned image fails when its allocation fails and an unaliased pixel map when its allocation fails; a non-negative size with every allocation succeeding succeeds; with a caller-owned, aliased image only the size and the work area decide |
| QuircDecoder.FloodFillVarCount | lib/quirc.c:126-130 | the work area has max(1, h * 2 / 3) entries: one for h < 2, else n with 3n ≤ 2h < 3n + 3 |
| QuircDecoder.FloodFillVarCountMonotone | lib/quirc.c:126-130 | a taller image never gets a smaller work area |
| QuircDecoder.Min | lib/quirc.c:95 | `min` is below both operands and equals one of them |
| QuircDecoder.ResizedImage | lib/quirc.c:86-103 | the resized image has the new length; its first min(old, new) bytes are the old ones and the rest are zero |
| QuircDecoder.GrowShrink | lib/quirc.c:86-103 | growing an image and shrinking it back to its size returns it unchanged |
| QuircDecoder.ShrinkGrow | lib/quirc.c:86-103 | shrinking and growing back keeps the retained prefix and zeroes the tail |
| QuircDecoder.ResizeCopyAsWritten | lib/quirc.c:85-103 | as written, the copy happens whenever the old image is non-null; it copies min(old, new) bytes and goes to NULL exactly when the caller owns the image |
| QuircDecoder.AsWrittenCopiesToNull | lib/quirc.c:85-103 | with a caller-owned image and a non-empty overlap, the copy as written writes min(old, new) > 0 bytes through NULL |
| QuircDecoder.ResizeCopy | lib/quirc.c:85-103 | the corrected copy happens exactly for an owned non-null image, into the new buffer, with a count of min(old, new) |
| QuircDecoder.CopyAgreesWhenOwned | lib/quirc.c:85-103 | for an owned image the corrected and the written copy coincide |
| QuircDecoder.CopyBytes | lib/quirc.c:103 | `memcpy` makes the first n bytes of the destination equal to the source's and leaves the rest |
| QuircDecoder.CopiedIsResized | lib/quirc.c:86-103 | a zeroed buffer with the min(old, new) prefix copied is the old image resized |
| QuircDecoder.SetImageBufferStep | lib/quirc.c:49-64 | the same pointer again only sets `outer_alloc` to (pointer ≠ NULL); otherwise an owned image is freed, and a non-null buffer becomes the image with `outer_alloc` set, while NULL leaves a caller-owned image in place; the result is always consistent |
| QuircDecoder.SetImageBufferIdempotent | lib/quirc.c:49-64 | setting the same buffer twice equals setting it once, and the second call frees nothing |
| QuircDecoder.CallerOwnershipSticks | lib/quirc.c:49-64 | once the caller owns the image, no sequence of `quirc_set_image_buffer` calls gives ownership back or frees anything, so the caller's image is never freed |
| QuircDecoder.StrError | lib/quirc.c:186-189 | the table entry for 0 ≤ err < 8 and "Unknown error" for every other integer |
| QuircDecoder.StrErrorDescribes | lib/quirc.c:172-181 | the table has eight entries, in the order of the enumeration |
| QuircDecoder.StrErrorDistinguishes | lib/quirc.c:172-189 | different codes inside the table give different messages, and only codes outside it read "Unknown error" |
| QuircDecoder.Listed | lib/quirc.c:39-45 | `free` releases nothing for NULL and exactly the pointer otherwise |
| QuircDecoder.Decoder.Retired | lib/quirc.c:37-48 | the buffers the decoder owns never include a caller-owned image |
| QuircDecoder.Decoder.constructor | lib/quirc.c:26-35 | a new decoder is all zero: no size, no image, not caller-owned, no buffers, no grids |
| QuircDecoder.Decoder.Count | lib/quirc.c:167-170 | `quirc_count` is the number of grids, never negative |
| QuircDecoder.Decoder.Free | lib/quirc.c:142-152 | `free(p)` appends p to the free log, and nothing for NULL |
| QuircDecoder.Decoder.SetImageBuffer | lib/quirc.c:49-64 | returns 0, keeps the invariant, and changes the image slot and the free log exactly as `SetImageBufferStep` says |
| QuircDecoder.Decoder.ResizedBuffer | lib/quirc.c:85-103 | the new owned image is fresh and holds the old image resized |
| QuircDecoder.Decoder.ReleaseOwned | lib/quirc.c:142-152 | frees exactly the owned image, the pixel map and the work area, in that order |
| QuircDecoder.Decoder.Commit | lib/quirc.c:140-154 | installs the new size and buffers, keeps a caller-owned image, and frees what the decoder owned |
| QuircDecoder.Decoder.Resize | lib/quirc.c:65-165 | returns 0 or -1, and 0 exactly when the size is non-negative and every needed allocation succeeds; on -1 size and buffers are unchanged and only temporaries are freed; on 0 it has the new size, `max(1, h*2/3)` work entries, a zeroed pixel map and, when owned, the resized image, and the old owned buffers are freed; a caller-owned image is never replaced or freed |
| QuircDecoder.Decoder.Destroy | lib/quirc.c:37-48 | frees the owned buffers and then the decoder, and never a caller-owned image |
| QuircDecoder.New | lib/quirc.c:26-35 | NULL exactly when `malloc` fails, otherwise a fresh all-zero decoder whose count is 0 |
| QuircDecoder.NullCopyScenario | lib/quirc.c:85-103 | after `set_image_buffer` of a 400-byte buffer and `resize(10, 10)`, a `resize(20, 20)` as written copies 100 bytes through NULL; the corrected copy does nothing |
| Convert.ChannelClamp | demo/convert.c:19-25 | `(lum + chrom) >> 8` raised to 0 when negative and capped at 255 |
| Convert.ChannelClampMonotone | demo/convert.c:19-25 | a larger sum never gives a smaller channel |
| Convert.NeutralChromaIsGrey | demo/convert.c:40-54 | with Cb = Cr = 128 every channel equals the luma |
| Convert.Rgb32ChannelMonotone | demo/convert.c:40-54 | a brighter luma never gives a darker channel |
| Convert.Rgb32Luma | demo/convert.c:94-99 | the luma is `(59 R + 150 G + 29 B) >> 8`, never above 237 |
| Convert.Rgb32LumaExtremes | demo/convert.c:94-99 | white gives 237 and black gives 0 |
| Convert.LocateIsDivMod | demo/convert.c:33-36 | the row and column of a destination offset are its quotient and remainder by the pitch |
| Convert.RowReadable | demo/convert.c:33-58 | for buffers that fit, every column of every row reads inside the source |
| Convert.RowWritable | demo/convert.c:33-58 | for buffers that fit, every written column of every row lies inside the destination |
| Convert.ConvertedAt | demo/convert.c:27-103 | a written column of a row holds the conversion of its source bytes |
| Convert.ConvertedKept | demo/convert.c:49-57 | a column inside a row that is not written keeps its old byte |
| Convert.ConvertedFrame | demo/convert.c:27-103 | every byte outside the rows, past the span or not written keeps its old value |
| Convert.Rgb32PaddingUntouched | demo/convert.c:49-57 | bytes 3 and 7 of each group's eight destination bytes are never written |
| Convert.Rgb32GroupLayout | demo/convert.c:38-57 | each 4-byte group Y0 Cb Y1 Cr gives B, G, R of Y0 at bytes 0..2 and of Y1 at bytes 4..6 |
| Convert.LumaGroupLayout | demo/convert.c:73-77 | `yuyv_to_luma` writes Y0 and Y1 of each group and drops Cb and Cr |
| Convert.LumaRowWidth | demo/convert.c:73-77 | the loop writes exactly w bytes per row for even w and w + 1 for odd w |
| Convert.Rgb32LumaLayout | demo/convert.c:87-101 | pixel x of row y is the luma of R = byte 2, G = byte 1 and B = byte 0 of source pixel x |
| Convert.YuyvToRgb32Group | demo/convert.c:40-54 | one pass of the inner loop writes the six clamped channels at bytes 0..2 and 4..6 and nothing else |
| Convert.Converted | demo/convert.c:27-103 | the destination after a whole conversion has the destination's length; `ConvertedAt`, `ConvertedKept` and `ConvertedFrame` give its bytes |
| Convert.YuyvToRgb32Row | demo/convert.c:34-58 | one pass of the outer loop converts row y: it takes the destination with rows before y converted to the destination with row y converted too, and nothing else changed |
| Convert.YuyvToRgb32Rows | demo/convert.c:27-60 | `yuyv_to_rgb32` leaves the destination equal to `Converted` of its old contents |
| Convert.YuyvToLumaRow | demo/convert.c:69-78 | one pass of the outer loop converts row y: it takes the destination with rows before y converted to the destination with row y converted too, and nothing else changed |
| Convert.YuyvToLumaRows | demo/convert.c:62-79 | `yuyv_to_luma` leaves the destination equal to `Converted` of its old contents |
| Convert.Rgb32ToLumaPixel | demo/convert.c:94-100 | one pass of the inner loop writes the luma of one BGRx pixel and nothing else |
| Convert.Rgb32ToLumaRow | demo/convert.c:88-102 | one pass of the outer loop converts row y: it takes the destination with rows before y converted to the destination with row y converted too, and nothing else changed |
| Convert.Rgb32ToLumaRows | demo/convert.c:81-103 | `rgb32_to_luma` leaves the destination equal to `Converted` of its old contents |
| DemoUtil.SplitUnique | demo/demoutil.c:42-60 | a text splits into digits, separator and digits at most at one position |
| DemoUtil.DenotesUnique | demo/demoutil.c:36-71 | a text denotes at most one size |
| DemoUtil.SplitDenotes | demo/demoutil.c:36-71 | a text that splits denotes exactly its two numbers, when both lie in 1..9999 |
| DemoUtil.ParseSize | demo/demoutil.c:36-71 | returns 0 exactly when the text is digits, one 'x' or 'X', digits, with both numbers in 1..9999, and then stores them; otherwise returns -1, stores nothing, and the text denotes no size |
| DemoUtil.NoSizeWithTwoSeparators | demo/demoutil.c:43-49 | a text with a second separator denotes no size |
| DemoUtil.NoSizeWithStrayCharacter | demo/demoutil.c:55-58 | a text with a character that is neither a digit nor a separator denotes no size |
| DemoUtil.NoSizeWithoutSeparator | demo/demoutil.c:42-65 | a text of digits only denotes no size |
| DemoUtil.SizeExampleVga | demo/demoutil.c:36-71 | "640x480" is 640 by 480 |
| DemoUtil.SizeExampleHd | demo/demoutil.c:36-71 | "1920X1080" is 1920 by 1080 |
| DemoUtil.NoSizeExamples | demo/demoutil.c:36-71 | "", "640", "640x", "0x480" and "640x480x" are rejected |
| GlueCache.BytesPerElement | lib/quirc-glue.js:89 | every heap view has 1, 2, 4 or 8 bytes per element, a divisor of 8 |
| GlueCache.RoundUp8 | lib/quirc-glue.js:90-91 | a length is rounded up to the least multiple of 8 that is not below it |
| GlueCache.ElementIndex | lib/quirc-glue.js:106-113 | the byte offset shifted to an element index is the floor of offset / bytes, and exact for an aligned offset |
| GlueCache.SumPrefix | lib/quirc-glue.js:87-105 | a prefix of a round's lengths never totals more than the round |
| GlueCache.RoundFits | lib/quirc-glue.js:66-105 | when a round totals less than the buffer, replaying it from offset 0 puts every allocation inside the buffer |
| GlueCache.EnsureCache.constructor | lib/quirc-glue.js:59-65 | the arena starts with no buffer, size, offset, spills or pending growth |
| GlueCache.EnsureCache.Free | lib/quirc-glue.js:67-79 | `Module._free(p)` appends p to the free log |
| GlueCache.EnsureCache.Prepare | lib/quirc-glue.js:66-86 | when growth is due it frees every spill and the buffer and grows by `needed`; with no buffer it grows by 128 and allocates; afterwards there are no spills, nothing is due, the offset is 0 and the previous round fits in the buffer, unless `_malloc` failed |
| GlueCache.EnsureCache.Alloc | lib/quirc-glue.js:87-105 | throws with no buffer and changes nothing; otherwise rounds the length to 8 and, as `Allocated` says, either carves it at the old offset, which advances by the rounded length and stays aligned and strictly inside the buffer, or spills it to one new temp and adds it to `needed`; buffer, size and free log are kept; the spill assertion `len > 0` always holds |
| GlueCache.Copy | lib/quirc-glue.js:106-117 | element i goes to view index `(offset >> shift) + i`, and every other element is unchanged |
| GlueCache.Stage | lib/quirc-glue.js:120-168 | alloc then copy: on success the elements are readable from the returned offset, every other view element keeps its value and the arena has advanced as `Allocated` says (carved at the old offset or spilled); with no buffer it throws and neither the arena nor the view changes |
| GlueCache.EnsureString | lib/quirc-glue.js:120-128 | a string is staged through HEAP8 as `Stage` does: its bytes are readable from the returned offset, the rest of HEAP8 is kept and the arena advances as `Allocated` says; a throw changes nothing; any other value passes through and nothing changes |
| GlueCache.EnsureArray | lib/quirc-glue.js:129-168 | an array is staged through its view as `Stage` does: its elements are readable from the returned offset, the rest of the view is kept and the arena advances as `Allocated` says; a plain object, whose missing length rounds to 0 bytes, gets the current `buffer + pos` with the offset unmoved and the view untouched; null throws; every throw changes nothing; any other value passes through and nothing changes |
| GlueCache.ElementIndexGap | lib/quirc-glue.js:106-113 | an offset at least n elements' worth of bytes further on has an element index at least n further on |
| GlueCache.StageTwice | lib/quirc-glue.js:87-128 | two stagings whose rounded lengths fit in the buffer together are carved back to back, so the second starts where the first's rounded length ends and both arrays are readable afterwards |
| GlueObjects.WrapperClass.constructor | lib/quirc-glue.js:9 | a bound class starts with an empty pointer cache |
| GlueObjects.ClassOf | lib/quirc-glue.js:12-13 | the class given, or `WrapperObject` when none is |
| GlueObjects.GetCache | lib/quirc-glue.js:11-14 | the cache of the class given, or of `WrapperObject` |
| GlueObjects.Wrapper.constructor | lib/quirc-glue.js:21-22 | `Object.create` of the class's prototype followed by `ret.ptr = ptr`: a new wrapper with that pointer and class |
| GlueObjects.WrapPointer | lib/quirc-glue.js:16-24 | returns the cached wrapper for the pointer unchanged, or caches a new wrapper of the class for it; the cache keeps every entry filed under its own pointer |
| GlueObjects.Destroy | lib/quirc-glue.js:34-39 | throws when the class has no `__destroy__`; otherwise runs the destructor on the pointer and removes the pointer from the class's cache |
| GlueObjects.Compare | lib/quirc-glue.js:42-45 | two wrappers compare equal exactly when they wrap the same pointer |
| GlueObjects.WrapTwice | lib/quirc-glue.js:16-24 | wrapping one pointer twice in one class yields one object |
| GlueObjects.DestroyThenWrap | lib/quirc-glue.js:16-39 | after `destroy`, wrapping the pointer again gives a new object that still compares equal |
| GlueObjects.CompareByPointer | lib/quirc-glue.js:16-45 | for any pointers p and q and any two distinct classes, the wrappers of p in the two classes are distinct objects that compare equal, and when p ≠ q the wrappers of p and q in one class are distinct and compare unequal |

## Left out

- Recognition and decoding are not modelled: thresholding, flood fill, finder patterns, grid sampling, error correction and payload parsing. Their sources are not part of this model. `quirc_begin`, `quirc_end`, `quirc_extract` and `quirc_decode` are called by the demos and tests but defined in no file modelled here.
- quirc_internal.h is not part of this model. The flood-fill entry layout and `quirc_pixel_t` are abstract: the pixel map and the work area are arrays of integers.
- C integer overflow is not modelled. This covers `w * h` in `quirc_resize`, the digit accumulation in `parse_size` and 32-bit `int` arithmetic in the conversions; sizes are mathematical integers.
- QuircDecoder.ResizeSucceeds: the two `size_t` overflow guards of `quirc_resize` are folded into the work-area allocation outcome `varsOk`, because for a non-negative `int` height the first one cannot fire and the second depends on the entry size.
- QuircDecoder.Decoder.SetImageBuffer: additionally requires that the buffer is not the decoder's own pixel map or work area, because Dafny cannot tell an array of bytes from an array of integers by type alone.
- QuircDecoder.Decoder.Resize: with a caller-owned image it models the corrected copy (none), not the null-pointer copy of the code as written; see Findings.
- `QUIRC_PIXEL_ALIAS_IMAGE` is a parameter of the decoder. The pixel map's aliasing of the image is established in `quirc_begin`, which is not part of this model, so with aliasing the pixel map stays null here.
- `quirc_version` is the constant `QuircDecoder.Version`.
- Convert: the buffer layout requirement `Fits` is the caller's obligation, which the C code leaves unchecked. Odd widths are modelled as the loops run them: the last YUYV group is converted whole.
- Convert.Fits: excludes negative source or destination pitches, destination rows that overlap (a pitch smaller than the bytes a row writes) and a source that aliases the destination. The C functions accept all three. The source is an immutable sequence here, so writes never feed back into later reads.
- Convert.YuyvToLumaRows: an odd width with a destination pitch of w, as in `yuyv_to_luma(cam->mem, w * 2, w, h, buf, w)` at demo/scanner.c:60, is excluded by `Fits`. There each row writes w + 1 bytes (`LumaRowWidth`), so the rows overlap and the last row writes one byte past the w * h buffer.
- `print_data` in demo/demoutil.c, the demos' capture, display and file I/O, and the C++/Emscripten wrapper classes (`Quirc`, `Code`, `Data`, `Point`, `VoidPtr`) are not modelled; they forward to native code or do I/O.
- GlueCache.RoundUp8: the 32-bit `& -8` is modelled as arithmetic rounding, which agrees with it for lengths below 2^31 - 7.
- GlueCache.Copy: a typed view's conversion of stored values (wrap-around for integer views, rounding for float views) is not modelled; views hold integers as given. The heap views alias one buffer in JavaScript, but each is a separate array here.
- GlueCache.EnsureString: `intArrayFromString` belongs to the Emscripten runtime, which is not part of this model; its result is a parameter.
- DemoUtil.ParseSize: the diagnostics that `parse_size` prints to stderr (demo/demoutil.c:47, 56-57 and 63) are not modelled; only the status and the stored size are.
- `_malloc` and `_free` are not modelled: an allocation's address is a parameter and frees are logged. `castObject`, `getPointer`, `getClass` and `Module['NULL']` are one-line forwards to `wrapPointer` or field reads.
- The native destructors that `__destroy__` calls are recorded in a ghost log, not modelled.

## Findings

| source | as written | input that shows it | evidently intended | confidence | as-written member | corrected member |
|---|---|---|---|---|---|---|
| lib/quirc.c:102-103 | `if (q->image) memcpy(image, q->image, min)` copies whenever the old image is non-null, but with `outer_alloc` the local `image` was never allocated and is NULL | `quirc_set_image_buffer(q, buf)` with a 400-byte `buf`, `quirc_resize(q, 10, 10)`, then `quirc_resize(q, 20, 20)`: 100 bytes are copied to NULL | copy only into a buffer the resize allocated, i.e. only when the decoder owns its image (`if (!q->outer_alloc && q->image)`) | high, not executed | QuircDecoder.NullCopyScenario | QuircDecoder.ResizeCopy |
