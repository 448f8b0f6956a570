/**
 * The decoder object of lib/quirc.c: creation, the image-buffer ownership
 * rules of `quirc_set_image_buffer`, the transactional `quirc_resize`,
 * `quirc_count`, `quirc_strerror` and the release of buffers by
 * `quirc_destroy`.
 *
 * Buffers are Dafny arrays, so pointer identity is reference identity and
 * NULL is `null`. Whether each `calloc`/`malloc` succeeds is a parameter; every
 * `free` of a non-null pointer is recorded in the ghost log `released`.
 */
module QuircDecoder {
  import opened Wrappers
  import opened QuircTypes

  /** `quirc_version`. */
  const Version: string := "1.0"

  // ---------------------------------------------------------------------
  // Allocation outcomes and sizes

  /** Which of the three allocations of one `quirc_resize` call succeed. */
  datatype Alloc = Alloc(imageOk: bool, pixelsOk: bool, varsOk: bool)

  /**
   * `quirc_resize` succeeds exactly when the size is not negative and every
   * allocation it makes succeeds: the image only when the decoder owns it,
   * the pixel map only when it does not alias the image, and the flood-fill
   * work area always. (The two `size_t` overflow guards are folded into
   * `varsOk`: for a non-negative `int` height the first cannot fire.)
   */
  predicate ResizeSucceeds(w: int, h: int, outerAlloc: bool, pixelAliasImage: bool, a: Alloc): (ok: bool)
    ensures w < 0 || h < 0 || !a.varsOk ==> !ok
    ensures !outerAlloc && !a.imageOk ==> !ok
    ensures !pixelAliasImage && !a.pixelsOk ==> !ok
    ensures 0 <= w && 0 <= h && a == Alloc(true, true, true) ==> ok
    ensures outerAlloc && pixelAliasImage ==> (ok <==> 0 <= w && 0 <= h && a.varsOk)
  {
    0 <= w && 0 <= h && (outerAlloc || a.imageOk) && (pixelAliasImage || a.pixelsOk) && a.varsOk
  }

  /**
   * The number of flood-fill work-area entries for an image `h` rows high:
   * about two thirds of the height (twice the height of a ring that is a
   * third of the image), and never fewer than one.
   */
  function FloodFillVarCount(h: int): (n: int)
    requires 0 <= h
    ensures 1 <= n
    ensures 2 <= h ==> 3 * n <= 2 * h < 3 * n + 3
    ensures h < 2 ==> n == 1
  {
    var n := h * 2 / 3;
    if n == 0 then 1 else n
  }

  /** A taller image never gets a smaller work area. */
  lemma FloodFillVarCountMonotone(h1: int, h2: int)
    requires 0 <= h1 <= h2
    ensures FloodFillVarCount(h1) <= FloodFillVarCount(h2)
  {
    if 2 <= h1 {
      assert 3 * FloodFillVarCount(h1) <= 2 * h1 <= 2 * h2 < 3 * FloodFillVarCount(h2) + 3;
    }
  }

  /** `min(a, b)` as `quirc_resize` computes it. */
  function Min(a: int, b: int): (m: int)
    ensures m <= a && m <= b && (m == a || m == b)
  {
    if a < b then a else b
  }

  /**
   * The image an owned decoder has after a resize to `newDim` bytes: the new
   * buffer is zeroed by `calloc` and the first min(old, new) bytes of the old
   * image are copied into it.
   */
  function ResizedImage(before: seq<bv8>, newDim: nat): (r: seq<bv8>)
    ensures |r| == newDim
    ensures r[..Min(|before|, newDim)] == before[..Min(|before|, newDim)]
    ensures forall i :: Min(|before|, newDim) <= i < newDim ==> r[i] == 0
  {
    seq(newDim, i requires 0 <= i < newDim => if i < |before| then before[i] else 0)
  }

  /** Growing an image and shrinking it back gives the original image. */
  lemma GrowShrink(image: seq<bv8>, newDim: nat)
    requires |image| <= newDim
    ensures ResizedImage(ResizedImage(image, newDim), |image|) == image
  {
    var grown := ResizedImage(image, newDim);
    assert grown[..|image|] == image;
  }

  /** Shrinking an image and growing it back keeps the retained prefix and zeroes the rest. */
  lemma ShrinkGrow(image: seq<bv8>, newDim: nat)
    requires newDim <= |image|
    ensures ResizedImage(ResizedImage(image, newDim), |image|) == image[..newDim] + seq(|image| - newDim, _ => 0 as bv8)
  {
    var r := ResizedImage(ResizedImage(image, newDim), |image|);
    var e := image[..newDim] + seq(|image| - newDim, _ => 0 as bv8);
    assert |r| == |e|;
    forall i | 0 <= i < |r|
      ensures r[i] == e[i]
    {
      if i < newDim {
        assert r[i] == r[..newDim][i];
      }
    }
  }

  // ---------------------------------------------------------------------
  // The image copy of `quirc_resize`

  /** Where the copy of the old image goes. */
  datatype CopyTarget = NewBuffer | NullPointer

  /** The copy step of `quirc_resize`: none, or `count` bytes of the old image into a target. */
  datatype CopyStep = NoCopy | CopyInto(target: CopyTarget, count: int)

  /**
   * The copy as lib/quirc.c writes it: whenever the old image is non-null,
   * min(old, new) bytes go to the local `image`, which is only allocated
   * when the decoder owns its image and is still NULL otherwise.
   */
  function ResizeCopyAsWritten(outerAlloc: bool, oldImageNonNull: bool, oldDim: int, newDim: int): (c: CopyStep)
    ensures c.CopyInto? <==> oldImageNonNull
    ensures c.CopyInto? ==> c.count == Min(oldDim, newDim)
    ensures c.CopyInto? ==> (c.target == NullPointer <==> outerAlloc)
  {
    if oldImageNonNull then CopyInto(if outerAlloc then NullPointer else NewBuffer, Min(oldDim, newDim))
    else NoCopy
  }

  /**
   * With a caller-supplied image (`outer_alloc`) and a non-empty overlap of
   * old and new sizes, the copy as written writes through a null pointer.
   */
  lemma AsWrittenCopiesToNull(oldDim: int, newDim: int)
    requires 0 < oldDim && 0 < newDim
    ensures ResizeCopyAsWritten(true, true, oldDim, newDim) == CopyInto(NullPointer, Min(oldDim, newDim))
    ensures 0 < Min(oldDim, newDim)
  {
  }

  /**
   * The copy as intended: only an owned, non-null old image is copied, and
   * only into the newly allocated buffer, never reading past the old size
   * nor writing past the new one.
   */
  function ResizeCopy(outerAlloc: bool, oldImageNonNull: bool, oldDim: int, newDim: int): (c: CopyStep)
    ensures c.CopyInto? <==> !outerAlloc && oldImageNonNull
    ensures c.CopyInto? ==> c.target == NewBuffer && c.count <= oldDim && c.count <= newDim
    ensures c.CopyInto? ==> c.count == oldDim || c.count == newDim
  {
    if !outerAlloc && oldImageNonNull then CopyInto(NewBuffer, Min(oldDim, newDim)) else NoCopy
  }

  /** For an owned image the correction changes nothing: both copy the same bytes to the same place. */
  lemma CopyAgreesWhenOwned(oldImageNonNull: bool, oldDim: int, newDim: int)
    ensures ResizeCopy(false, oldImageNonNull, oldDim, newDim) == ResizeCopyAsWritten(false, oldImageNonNull, oldDim, newDim)
  {
  }

  /** `memcpy(dst, src, n)`: the first n bytes of `src` overwrite those of `dst`. */
  method CopyBytes(src: array<bv8>, dst: array<bv8>, n: int)
    requires src != dst && 0 <= n <= src.Length && n <= dst.Length
    modifies dst
    ensures dst[..n] == src[..n] && dst[n..] == old(dst[n..])
  {
    var i := 0;
    while i < n
      invariant 0 <= i <= n
      invariant dst[..i] == src[..i] && dst[n..] == old(dst[n..])
    {
      dst[i] := src[i];
      i := i + 1;
    }
  }

  /**
   * A buffer of `newDim` bytes whose first min(old, new) bytes are those of
   * `before` and whose other bytes are zero is `before` resized.
   */
  lemma CopiedIsResized(before: seq<bv8>, after: seq<bv8>, n: int)
    requires n == Min(|before|, |after|)
    requires after[..n] == before[..n]
    requires forall i :: n <= i < |after| ==> after[i] == 0
    ensures after == ResizedImage(before, |after|)
  {
    var r := ResizedImage(before, |after|);
    forall i | 0 <= i < |after|
      ensures after[i] == r[i]
    {
      if i < n {
        assert after[i] == after[..n][i] && before[i] == before[..n][i];
      }
    }
  }

  // ---------------------------------------------------------------------
  // The ownership rules of `quirc_set_image_buffer`

  /** The image pointer of a decoder and whether the caller owns it (`outer_alloc`). */
  datatype ImageSlot = ImageSlot(image: array?<bv8>, outerAlloc: bool)

  /** A caller-owned slot always holds a buffer. */
  predicate SlotValid(s: ImageSlot)
  {
    s.outerAlloc ==> s.image != null
  }

  /** A slot after `quirc_set_image_buffer`, and the buffer it freed, if any. */
  datatype SlotStep = SlotStep(slot: ImageSlot, released: Option<array<bv8>>)

  /**
   * `quirc_set_image_buffer(q, buffer)`. Setting the current pointer again only
   * recomputes `outer_alloc` as (pointer is non-null). Otherwise an owned
   * image is freed first, and a non-null buffer then becomes the image,
   * owned by the caller; a null buffer leaves a caller-owned image in place.
   */
  function SetImageBufferStep(s: ImageSlot, buffer: array?<bv8>): (r: SlotStep)
    ensures s.image == buffer ==> r == SlotStep(ImageSlot(buffer, buffer != null), None)
    ensures buffer != null ==> r.slot == ImageSlot(buffer, true)
    ensures r.released.Some? <==> s.image != buffer && s.image != null && !s.outerAlloc
    ensures r.released.Some? ==> r.released.value == s.image
    ensures buffer == null && s.image != null && s.outerAlloc ==> r == SlotStep(s, None)
    ensures buffer == null && !s.outerAlloc ==> r.slot == ImageSlot(null, false)
    ensures SlotValid(r.slot)
  {
    if s.image == buffer then
      SlotStep(ImageSlot(s.image, s.image != null), None)
    else
      var freed := if s.image != null && !s.outerAlloc then SlotStep(ImageSlot(null, false), Some(s.image))
                   else SlotStep(s, None);
      if buffer != null then SlotStep(ImageSlot(buffer, true), freed.released) else freed
  }

  /** Setting the same buffer twice is the same as setting it once, and frees nothing the second time. */
  lemma SetImageBufferIdempotent(s: ImageSlot, buffer: array?<bv8>)
    requires SlotValid(s)
    ensures var once := SetImageBufferStep(s, buffer).slot;
      SetImageBufferStep(once, buffer) == SlotStep(once, None)
  {
  }

  /**
   * Once the caller owns the image, no sequence of `quirc_set_image_buffer`
   * calls gives ownership back or frees anything, the caller's image included.
   */
  lemma {:induction false} CallerOwnershipSticks(s: ImageSlot, buffers: seq<array?<bv8>>)
    requires SlotValid(s) && s.outerAlloc
    ensures SetImageBufferRun(s, buffers).outerAlloc
    ensures SetImageBufferRunFrees(s, buffers) == []
    decreases |buffers|
  {
    if |buffers| > 0 {
      CallerOwnershipSticks(SetImageBufferStep(s, buffers[0]).slot, buffers[1..]);
    }
  }

  /** Every buffer a sequence of `quirc_set_image_buffer` calls frees, in order. */
  function SetImageBufferRunFrees(s: ImageSlot, buffers: seq<array?<bv8>>): seq<array<bv8>>
    decreases |buffers|
  {
    if |buffers| == 0 then []
    else
      var step := SetImageBufferStep(s, buffers[0]);
      (if step.released.Some? then [step.released.value] else []) + SetImageBufferRunFrees(step.slot, buffers[1..])
  }

  /** The slot after a sequence of `quirc_set_image_buffer` calls. */
  function SetImageBufferRun(s: ImageSlot, buffers: seq<array?<bv8>>): ImageSlot
    decreases |buffers|
  {
    if |buffers| == 0 then s else SetImageBufferRun(SetImageBufferStep(s, buffers[0]).slot, buffers[1..])
  }

  // ---------------------------------------------------------------------
  // Error strings

  /** `error_table`, indexed by the integer value of a decode error. */
  const ErrorTable: seq<string> := [
    "Success",
    "Invalid grid size",
    "Invalid version",
    "Format data ECC failure",
    "ECC failure",
    "Unknown data type",
    "Data overflow",
    "Data underflow"
  ]

  /** The message of each decode error, by name. */
  function Describe(e: DecodeError): string
  {
    match e
    case Success => "Success"
    case InvalidGridSize => "Invalid grid size"
    case InvalidVersion => "Invalid version"
    case FormatEcc => "Format data ECC failure"
    case DataEcc => "ECC failure"
    case UnknownDataType => "Unknown data type"
    case DataOverflow => "Data overflow"
    case DataUnderflow => "Data underflow"
  }

  /** `quirc_strerror`: the table entry of a code inside the table, "Unknown error" for any other integer. */
  function StrError(err: int): (s: string)
    ensures 0 <= err < |ErrorTable| ==> s == ErrorTable[err]
    ensures !(0 <= err < |ErrorTable|) ==> s == "Unknown error"
  {
    if 0 <= err < |ErrorTable| then ErrorTable[err] else "Unknown error"
  }

  /** The table has one entry per enumerator, in the enumeration's numbering. */
  lemma StrErrorDescribes(e: DecodeError)
    ensures |ErrorTable| == ErrorCount
    ensures StrError(ErrorCode(e)) == Describe(e)
  {
  }

  /** Distinct codes have distinct messages, and only codes outside the table read "Unknown error". */
  lemma StrErrorDistinguishes(m: int, n: int)
    ensures StrError(m) == StrError(n) <==> m == n || (!(0 <= m < |ErrorTable|) && !(0 <= n < |ErrorTable|))
    ensures StrError(m) == "Unknown error" <==> !(0 <= m < |ErrorTable|)
  {
  }

  // ---------------------------------------------------------------------
  // The decoder

  /** The pointers a `free(p)` releases: none for NULL, otherwise `p`. */
  function Listed(p: object?): (s: seq<object>)
    ensures p == null <==> s == []
    ensures p != null ==> s == [p]
  {
    if p == null then [] else [p]
  }

  /** Regrouping the log of three frees. */
  lemma RegroupFrees(log: seq<object>, a: seq<object>, b: seq<object>, c: seq<object>)
    ensures log + a + b + c == log + (a + b + c)
  {
    assert a + b + c == a + (b + c);
    assert log + a + b + c == log + (a + (b + c));
  }

  /**
   * `struct quirc` as far as lib/quirc.c touches it: the size, the image and
   * who owns it, the pixel map, the flood-fill work area and the grid count.
   */
  class Decoder {
    /** `QUIRC_PIXEL_ALIAS_IMAGE`: the pixel map shares the image buffer and is never allocated apart. */
    const pixelAliasImage: bool
    var w: int
    var h: int
    var image: array?<bv8>
    var outerAlloc: bool
    /** The pixel map, one `quirc_pixel_t` per image byte. */
    var pixels: array?<int>
    /** The flood-fill work area; its entry layout lives in quirc_internal.h, which is not part of this model. */
    var floodFillVars: array?<int>
    var numFloodFillVars: int
    var numGrids: int
    /** Every non-null pointer passed to `free`, in order. */
    ghost var released: seq<object>

    /** The invariant every public operation keeps. */
    predicate Valid()
      reads this
    {
      0 <= w && 0 <= h && 0 <= numGrids &&
      (outerAlloc ==> image != null) &&
      (!outerAlloc && image != null ==> image.Length == w * h) &&
      (image != null ==> image as object != pixels && image as object != floodFillVars) &&
      (pixelAliasImage ==> pixels == null) &&
      (pixels != null ==> pixels.Length == w * h) &&
      (floodFillVars == null ==> numFloodFillVars == 0) &&
      (floodFillVars != null ==> numFloodFillVars == FloodFillVarCount(h) && floodFillVars.Length == numFloodFillVars)
    }

    /** The state `memset(q, 0, sizeof(*q))` leaves. */
    predicate IsZero()
      reads this
    {
      w == 0 && h == 0 && image == null && !outerAlloc && pixels == null &&
      floodFillVars == null && numFloodFillVars == 0 && numGrids == 0
    }

    /** The bytes of the image buffer, empty when there is none. */
    function ImageBytes(): seq<bv8>
      reads this, image
    {
      if image == null then [] else image[..]
    }

    /** The buffers the decoder itself frees: an owned image, the pixel map and the work area. */
    function Retired(): (bufs: seq<object>)
      reads this
      requires Valid()
      ensures outerAlloc ==> image !in bufs
    {
      Listed(if outerAlloc then null else image) + Listed(pixels) + Listed(floodFillVars)
    }

    /** The zeroed decoder `quirc_new` returns. */
    constructor (pixelAliasImage: bool)
      ensures this.pixelAliasImage == pixelAliasImage
      ensures IsZero() && Valid() && released == []
    {
      this.pixelAliasImage := pixelAliasImage;
      w := 0;
      h := 0;
      image := null;
      outerAlloc := false;
      pixels := null;
      floodFillVars := null;
      numFloodFillVars := 0;
      numGrids := 0;
      released := [];
    }

    /** `quirc_count`: the number of grids the last scan found, never negative. */
    function Count(): (n: int)
      reads this
      requires Valid()
      ensures 0 <= n && n == numGrids
    {
      numGrids
    }

    /** `free(p)`: a null pointer is ignored, any other is recorded. */
    method Free(p: object?)
      modifies this`released
      ensures released == old(released) + Listed(p)
    {
      if p != null {
        released := released + [p];
      }
    }

    /** `quirc_set_image_buffer`: always returns 0 and follows `SetImageBufferStep`. */
    method SetImageBuffer(buffer: array?<bv8>) returns (r: int)
      requires Valid()
      requires buffer != null ==> buffer as object != pixels && buffer as object != floodFillVars
      modifies this`image, this`outerAlloc, this`released
      ensures r == 0 && Valid()
      ensures var step := SetImageBufferStep(ImageSlot(old(image), old(outerAlloc)), buffer);
        ImageSlot(image, outerAlloc) == step.slot &&
        released == old(released) + (if step.released.Some? then [step.released.value as object] else [])
    {
      if image == buffer {
        outerAlloc := image != null;
        return 0;
      }
      if image != null && !outerAlloc {
        Free(image);
        image := null;
        outerAlloc := false;
      }
      if buffer != null {
        image := buffer;
        outerAlloc := true;
      }
      return 0;
    }

    /**
     * The new image of an owned decoder, lines 86-103 of `quirc_resize`: a
     * zeroed buffer of `newDim` bytes into which min(old, new) bytes of the
     * old image are copied when there is one.
     */
    method ResizedBuffer(newDim: nat) returns (newImage: array<bv8>)
      requires Valid() && !outerAlloc
      ensures fresh(newImage) && newImage[..] == ResizedImage(ImageBytes(), newDim)
    {
      newImage := new bv8[newDim](_ => 0);
      var oldDim := w * h;
      match ResizeCopy(outerAlloc, image != null, oldDim, newDim) {
        case CopyInto(_, count) =>
          CopyBytes(image, newImage, count);
          CopiedIsResized(image[..], newImage[..], count);
        case NoCopy =>
          CopiedIsResized([], newImage[..], 0);
      }
    }

    /**
     * The `free` calls by which `quirc_resize` (on success) and
     * `quirc_destroy` release what the decoder owns: the image unless the
     * caller owns it, the pixel map unless it aliases the image, and the
     * flood-fill work area.
     */
    method ReleaseOwned()
      requires Valid()
      modifies this`released
      ensures released == old(released) + old(Retired())
    {
      ghost var before := released;
      ghost var ownImage := Listed(if outerAlloc then null else image);
      ghost var ownPixels := Listed(pixels);
      ghost var ownVars := Listed(floodFillVars);
      if !outerAlloc {
        Free(image);
      }
      if !pixelAliasImage {
        Free(pixels);
      }
      Free(floodFillVars);
      RegroupFrees(before, ownImage, ownPixels, ownVars);
    }

    /**
     * The commit of `quirc_resize` once every allocation has succeeded: the
     * new size and buffers, with the old owned buffers freed.
     */
    method Commit(newW: int, newH: int, newImage: array?<bv8>, newPixels: array?<int>, vars: array<int>)
      requires Valid() && 0 <= newW && 0 <= newH
      requires !outerAlloc ==> newImage != null && newImage.Length == newW * newH
      requires newImage != null ==> newImage as object != newPixels && newImage as object != vars
      requires outerAlloc ==> image as object != newPixels && image as object != vars
      requires pixelAliasImage ==> newPixels == null
      requires !pixelAliasImage ==> newPixels != null && newPixels.Length == newW * newH
      requires vars.Length == FloodFillVarCount(newH)
      modifies this
      ensures Valid()
      ensures w == newW && h == newH && outerAlloc == old(outerAlloc) && numGrids == old(numGrids)
      ensures image == (if outerAlloc then old(image) else newImage)
      ensures pixels == (if pixelAliasImage then old(pixels) else newPixels)
      ensures floodFillVars == vars && numFloodFillVars == vars.Length
      ensures released == old(released) + old(Retired())
    {
      ReleaseOwned();
      w := newW;
      h := newH;
      if !outerAlloc {
        image := newImage;
      }
      if !pixelAliasImage {
        pixels := newPixels;
      }
      floodFillVars := vars;
      numFloodFillVars := vars.Length;
    }

    /**
     * `quirc_resize`. On a negative size or a failed allocation it returns -1
     * and the decoder keeps its size, buffers and work area; only the
     * temporaries it allocated are freed (`freed`). On success it takes the
     * new size, a zeroed pixel map, a work area of `FloodFillVarCount(h)`
     * entries and, when it owns its image, a new image holding the old one
     * resized; the old buffers it owned are freed. A caller-owned image is
     * never replaced or freed.
     */
    method Resize(newW: int, newH: int, alloc: Alloc) returns (r: int, ghost freed: seq<object>)
      requires Valid()
      modifies this
      ensures Valid()
      ensures r == 0 || r == -1
      ensures r == 0 <==> ResizeSucceeds(newW, newH, old(outerAlloc), pixelAliasImage, alloc)
      ensures outerAlloc == old(outerAlloc) && numGrids == old(numGrids)
      ensures released == old(released) + freed
      ensures r == -1 ==>
        w == old(w) && h == old(h) && image == old(image) && pixels == old(pixels) &&
        floodFillVars == old(floodFillVars) && numFloodFillVars == old(numFloodFillVars)
      ensures r == -1 ==> forall p :: p in freed ==> fresh(p)
      ensures r == 0 ==> w == newW && h == newH && numFloodFillVars == FloodFillVarCount(newH)
      ensures r == 0 ==> fresh(floodFillVars) && freed == old(Retired())
      ensures r == 0 && !outerAlloc ==> fresh(image) && image[..] == ResizedImage(old(ImageBytes()), newW * newH)
      ensures r == 0 && !pixelAliasImage ==>
        fresh(pixels) && forall i :: 0 <= i < pixels.Length ==> pixels[i] == 0
      ensures outerAlloc ==> image == old(image) && old(image) !in freed
    {
      var newImage: array?<bv8> := null;
      var newPixels: array?<int> := null;
      freed := [];
      if newW < 0 || newH < 0 {
        return -1, freed;
      }
      var newDim := newW * newH;
      if !outerAlloc {
        if !alloc.imageOk {
          return -1, freed;
        }
        newImage := ResizedBuffer(newDim);
      }
      if !pixelAliasImage {
        if !alloc.pixelsOk {
          if !outerAlloc {
            Free(newImage);
            freed := [newImage];
          }
          return -1, freed;
        }
        newPixels := new int[newDim](_ => 0);
      }
      var numVars := newH * 2 / 3;
      if numVars == 0 {
        numVars := 1;
      }
      if !alloc.varsOk {
        if !outerAlloc {
          Free(newImage);
          freed := [newImage];
        }
        Free(newPixels);
        freed := freed + (if newPixels == null then [] else [newPixels]);
        return -1, freed;
      }
      var vars := new int[numVars];
      freed := Retired();
      Commit(newW, newH, newImage, newPixels, vars);
      return 0, freed;
    }

    /**
     * `quirc_destroy`: frees the owned image, the pixel map, the work area
     * and the decoder itself; a caller-owned image is left to the caller.
     */
    method Destroy()
      requires Valid()
      modifies this`released
      ensures released == old(released) + old(Retired()) + [this]
      ensures old(outerAlloc) ==> old(image) !in old(Retired()) + [this]
    {
      ReleaseOwned();
      Free(this);
    }
  }

  /** `quirc_new`: a zeroed decoder, or NULL when `malloc` fails. */
  method New(pixelAliasImage: bool, mallocOk: bool) returns (q: Decoder?)
    ensures q != null <==> mallocOk
    ensures q != null ==> fresh(q) && q.IsZero() && q.Valid() && q.Count() == 0 && q.pixelAliasImage == pixelAliasImage
  {
    if !mallocOk {
      return null;
    }
    q := new Decoder(pixelAliasImage);
  }

  /**
   * Set a 400-byte caller buffer on a new decoder, resize it to 10 x 10 and
   * then to 20 x 20: the second resize, as written, copies 100 bytes through
   * the null `image`, while the corrected copy does nothing.
   */
  method NullCopyScenario() returns (asWritten: CopyStep, corrected: CopyStep)
    ensures asWritten == CopyInto(NullPointer, 100)
    ensures corrected == NoCopy
  {
    var q := new Decoder(false);
    var buffer := new bv8[400];
    var _ := q.SetImageBuffer(buffer);
    var r, _ := q.Resize(10, 10, Alloc(true, true, true));
    assert r == 0;
    asWritten := ResizeCopyAsWritten(q.outerAlloc, q.image != null, q.w * q.h, 20 * 20);
    corrected := ResizeCopy(q.outerAlloc, q.image != null, q.w * q.h, 20 * 20);
  }
}
