/**
 * The integer pixel-format conversions of demo/convert.c: packed YUYV to
 * 32-bit BGRx, YUYV to 8-bit luma, and 32-bit BGRx to 8-bit luma. Each walks
 * `h` rows; row y is read from offset y * srcPitch of the source and written
 * at offset y * dstPitch of the destination.
 *
 * The source buffer is only read, so it is a sequence of bytes here; the
 * destination is an array written in place.
 */
module Convert {
  import opened Arith

  /** An unsigned 8-bit sample, `uint8_t`. */
  type Byte = b: int | 0 <= b < 256

  /** The three conversions, used to share the row-layout definitions. */
  datatype Conversion = YuyvToRgb32 | YuyvToLuma | Rgb32ToLuma

  // ---------------------------------------------------------------------
  // Per-pixel arithmetic

  /**
   * CHANNEL_CLAMP: `(lum + chrom) >> 8` clamped to 0..255. A right shift of
   * a negative C int is taken to be arithmetic, that is floor division by
   * 256, which is what `/` is for a positive divisor here.
   */
  function ChannelClamp(lum: int, chrom: int): (v: Byte)
    ensures lum + chrom < 0 ==> v == 0
    ensures lum + chrom >= 256 * 256 ==> v == 255
    ensures 0 <= lum + chrom < 256 * 256 ==> v == (lum + chrom) / 256
  {
    var t := (lum + chrom) / 256;
    if t < 0 then 0 else if t > 255 then 255 else t
  }

  /** A larger sum never gives a smaller channel value. */
  lemma ChannelClampMonotone(lum1: int, chrom1: int, lum2: int, chrom2: int)
    requires lum1 + chrom1 <= lum2 + chrom2
    ensures ChannelClamp(lum1, chrom1) <= ChannelClamp(lum2, chrom2)
  {
    DivMonotone(lum1 + chrom1, lum2 + chrom2, 256);
  }

  lemma DivMonotone(a: int, b: int, d: int)
    requires a <= b && 0 < d
    ensures a / d <= b / d
  {
    if a / d > b / d {
      MulMonotone(b / d + 1, a / d, d);
    }
  }

  /** The chroma term of each output channel: 0 = blue, 1 = green, 2 = red. */
  function ChromaTerm(cb: Byte, cr: Byte, channel: nat): int
    requires channel < 3
  {
    var u := cb - 128;
    var v := cr - 128;
    if channel == 0 then 454 * u
    else if channel == 1 then -u * 88 - 128 * v
    else v * 359
  }

  /** One output channel of one pixel of `yuyv_to_rgb32`. */
  function Rgb32Channel(luma: Byte, cb: Byte, cr: Byte, channel: nat): Byte
    requires channel < 3
  {
    ChannelClamp(luma * 256, ChromaTerm(cb, cr, channel))
  }

  /** With neutral chroma (Cb = Cr = 128) every channel equals the luma: grey stays grey. */
  lemma NeutralChromaIsGrey(luma: Byte, channel: nat)
    requires channel < 3
    ensures Rgb32Channel(luma, 128, 128, channel) == luma
  {
  }

  /** Brighter luma never gives a darker channel, whatever the chroma. */
  lemma Rgb32ChannelMonotone(l1: Byte, l2: Byte, cb: Byte, cr: Byte, channel: nat)
    requires channel < 3 && l1 <= l2
    ensures Rgb32Channel(l1, cb, cr, channel) <= Rgb32Channel(l2, cb, cr, channel)
  {
    ChannelClampMonotone(l1 * 256, ChromaTerm(cb, cr, channel), l2 * 256, ChromaTerm(cb, cr, channel));
  }

  /**
   * The luma of `rgb32_to_luma`: `(59 r + 150 g + 29 b) >> 8`. The weights
   * add up to 238, so the result is at most 237 and always fits a byte.
   */
  function Rgb32Luma(r: Byte, g: Byte, b: Byte): (l: Byte)
    ensures l <= 237
    ensures l * 256 <= 59 * r + 150 * g + 29 * b < (l + 1) * 256
  {
    var sum := r * 59 + g * 150 + b * 29;
    assert sum <= 238 * 255;
    sum / 256
  }

  /** White maps to 237, the largest luma, and black to 0. */
  lemma Rgb32LumaExtremes()
    ensures Rgb32Luma(255, 255, 255) == 237
    ensures Rgb32Luma(0, 0, 0) == 0
  {
  }

  // ---------------------------------------------------------------------
  // Row layout

  /** The YUYV loops visit x = 0, 2, 4, ... while x < w: one 4-byte group per two pixels. */
  function Groups(w: int): nat
  {
    if w <= 0 then 0 else (w + 1) / 2
  }

  /** While x = 2 g is below w, g is a group of the row. */
  lemma NextGroup(w: int, g: nat)
    requires 2 * g < w
    ensures g < Groups(w)
  {
  }

  /** Once x = 2 g reaches w, every group of the row has been visited. */
  lemma PastGroups(w: int, g: nat)
    requires w <= 2 * g
    ensures Groups(w) <= g
  {
  }

  /** The destination columns a row spans, counted from the row's start. */
  function RowSpan(conv: Conversion, w: int): nat
  {
    match conv
    case YuyvToRgb32 => 8 * Groups(w)
    case YuyvToLuma => 2 * Groups(w)
    case Rgb32ToLuma => if w <= 0 then 0 else w
  }

  /** Whether a column inside the span is written: the fourth byte of each BGRx pixel is not. */
  predicate Writes(conv: Conversion, c: nat)
  {
    conv.YuyvToRgb32? ==> c % 4 != 3
  }

  /** The destination bytes a row needs: the span, less a last BGRx pixel's unwritten byte. */
  function DstReach(conv: Conversion, w: int): nat
  {
    if conv.YuyvToRgb32? && 0 < w then RowSpan(conv, w) - 1 else RowSpan(conv, w)
  }

  /** The source bytes a column needs, counted from the row's start. */
  function SrcReach(conv: Conversion, c: nat): nat
  {
    match conv
    case YuyvToRgb32 => 4 * (c / 8) + 4
    case YuyvToLuma => 4 * (c / 2) + 2 * (c % 2) + 1
    case Rgb32ToLuma => 4 * c + 3
  }

  lemma SrcReachMonotone(conv: Conversion, c1: nat, c2: nat)
    requires c1 <= c2
    ensures SrcReach(conv, c1) <= SrcReach(conv, c2)
  {
  }

  /** Byte i of the source, or 0 where a row would read past it (`Fits` rules that out). */
  function At(src: seq<Byte>, i: int): Byte
  {
    if 0 <= i < |src| then src[i] else 0
  }

  /**
   * The value of destination column `c` of a row whose source starts at
   * `base`. For YUYV to BGRx, column c is byte j of group g, where
   * (g, j) = Locate(c, 8): the 4-byte group Y0 Cb Y1 Cr gives eight
   * destination bytes, B, G, R from Y0 at 0..2 and from Y1 at 4..6 (bytes 3
   * and 7 are not written and have no value, 0 here). For YUYV to luma,
   * column c is byte j of group g with (g, j) = Locate(c, 2): Y0 and Y1.
   * For BGRx to luma a 4-byte pixel B G R x gives one byte.
   */
  function ColumnValue(conv: Conversion, src: seq<Byte>, base: int, c: nat): Byte
  {
    match conv
    case YuyvToRgb32 =>
      var gj := Locate(c, 8);
      var s := base + 4 * gj.0;
      if gj.1 == 3 || gj.1 == 7 then 0
      else if gj.1 < 4 then Rgb32Channel(At(src, s), At(src, s + 1), At(src, s + 3), gj.1)
      else Rgb32Channel(At(src, s + 2), At(src, s + 1), At(src, s + 3), gj.1 - 4)
    case YuyvToLuma =>
      var gj := Locate(c, 2);
      At(src, base + 4 * gj.0 + 2 * gj.1)
    case Rgb32ToLuma =>
      Rgb32Luma(At(src, base + 4 * c + 2), At(src, base + 4 * c + 1), At(src, base + 4 * c))
  }

  // ---------------------------------------------------------------------
  // Rows of a buffer

  /**
   * The offset of row y for a pitch, y * pitch, built up one row at a time
   * the way the conversions step their row pointers.
   */
  function Offset(y: nat, pitch: int): (o: int)
    ensures 0 <= pitch ==> 0 <= o
  {
    if y == 0 then 0 else Offset(y - 1, pitch) + pitch
  }

  lemma {:induction false} OffsetIsProduct(y: nat, pitch: int)
    ensures Offset(y, pitch) == y * pitch
  {
    if y > 0 {
      OffsetIsProduct(y - 1, pitch);
    }
  }

  /** With a non-negative pitch a later row never starts earlier. */
  lemma {:induction false} OffsetMonotone(y1: nat, y2: nat, pitch: int)
    requires y1 <= y2 && 0 <= pitch
    ensures Offset(y1, pitch) <= Offset(y2, pitch)
  {
    if y1 < y2 {
      OffsetMonotone(y1, y2 - 1, pitch);
    }
  }

  /** The row and the column of offset k, found by stepping over whole rows. */
  function Locate(k: nat, pitch: int): (rc: (nat, nat))
    requires 0 < pitch
    ensures rc.1 < pitch && Offset(rc.0, pitch) + rc.1 == k
    decreases k
  {
    if k < pitch then (0, k) else var rc := Locate(k - pitch, pitch); (rc.0 + 1, rc.1)
  }

  /** Column c of row y is located at row y, column c: rows do not overlap. */
  lemma {:induction false} LocateOffset(y: nat, c: nat, pitch: int)
    requires c < pitch
    ensures Locate(Offset(y, pitch) + c, pitch) == (y, c)
  {
    if y > 0 {
      LocateOffset(y - 1, c, pitch);
    }
  }

  /** Locating is C's division and remainder by the pitch. */
  lemma LocateIsDivMod(k: nat, pitch: int)
    requires 0 < pitch
    ensures Locate(k, pitch) == (k / pitch, k % pitch)
  {
    var rc := Locate(k, pitch);
    OffsetIsProduct(rc.0, pitch);
    RowColumn(rc.0, rc.1, pitch);
  }

  /** Offset y * pitch + c is column c of row y. */
  lemma RowColumn(y: int, c: int, pitch: int)
    requires 0 <= y && 0 <= c < pitch
    ensures (y * pitch + c) / pitch == y && (y * pitch + c) % pitch == c
  {
    var k := y * pitch + c;
    var q := k / pitch;
    if q < y {
      MulMonotone(q + 1, y, pitch);
    } else if q > y {
      MulMonotone(y + 1, q, pitch);
    }
  }

  /**
   * What a conversion demands of its buffers: a non-negative source pitch,
   * destination rows that do not overlap, and every row it reads and writes
   * inside its buffer.
   */
  predicate Fits(conv: Conversion, srcLen: int, srcPitch: int, w: int, h: int, dstLen: int, dstPitch: int)
  {
    0 <= srcPitch && 0 < dstPitch && RowSpan(conv, w) <= dstPitch &&
    (0 < h && 0 < RowSpan(conv, w) ==>
      Offset(h - 1, srcPitch) + SrcReach(conv, RowSpan(conv, w) - 1) <= srcLen &&
      Offset(h - 1, dstPitch) + DstReach(conv, w) <= dstLen)
  }

  /** Every column inside the span of every row has its source bytes inside the source. */
  lemma RowReadable(conv: Conversion, srcLen: int, srcPitch: int, w: int, h: int, dstLen: int, dstPitch: int,
                    y: nat, c: nat)
    requires Fits(conv, srcLen, srcPitch, w, h, dstLen, dstPitch)
    requires y < h && c < RowSpan(conv, w)
    ensures Offset(y, srcPitch) + SrcReach(conv, c) <= srcLen
  {
    OffsetMonotone(y, h - 1, srcPitch);
    SrcReachMonotone(conv, c, RowSpan(conv, w) - 1);
  }

  /** Every written column of every row lies inside the destination. */
  lemma RowWritable(conv: Conversion, srcLen: int, srcPitch: int, w: int, h: int, dstLen: int, dstPitch: int,
                    y: nat, c: nat)
    requires Fits(conv, srcLen, srcPitch, w, h, dstLen, dstPitch)
    requires y < h && c < RowSpan(conv, w) && Writes(conv, c)
    ensures Offset(y, dstPitch) + c < dstLen
  {
    OffsetMonotone(y, h - 1, dstPitch);
    if conv.YuyvToRgb32? {
      assert (RowSpan(conv, w) - 1) % 4 == 3;
    }
  }

  // ---------------------------------------------------------------------
  // Row-major write patterns

  /**
   * What a conversion writes, independent of how it computes it: `rows` rows
   * `pitch` bytes apart, each spanning `span` columns, of which those with
   * `writes(c)` get `value(y, c)`.
   */
  datatype Pattern = Pattern(rows: int, pitch: int, span: nat, writes: nat -> bool, value: (nat, nat) -> Byte)

  /** Rows lie at a positive pitch and do not overlap. */
  predicate Laid(pat: Pattern)
  {
    0 < pat.pitch && pat.span <= pat.pitch
  }

  /** The byte at offset k once the pattern is written over `d`. */
  function Painted(pat: Pattern, d: seq<Byte>, k: nat): Byte
    requires 0 < pat.pitch && k < |d|
  {
    var rc := Locate(k, pat.pitch);
    if rc.0 < pat.rows && rc.1 < pat.span && pat.writes(rc.1) then pat.value(rc.0, rc.1) else d[k]
  }

  /** `d` with the whole pattern written over it. */
  function Paint(pat: Pattern, d: seq<Byte>): (r: seq<Byte>)
    requires 0 < pat.pitch
    ensures |r| == |d|
  {
    seq(|d|, k requires 0 <= k < |d| => Painted(pat, d, k))
  }

  /** `d` once a row-major walk of the pattern has reached column `col` of row `y`. */
  function Walked(pat: Pattern, d: seq<Byte>, y: nat, col: int): (r: seq<Byte>)
    requires 0 < pat.pitch
    ensures |r| == |d|
  {
    seq(|d|, k requires 0 <= k < |d| => if k < Offset(y, pat.pitch) + col then Painted(pat, d, k) else d[k])
  }

  /** Before the walk nothing has changed. */
  lemma WalkStart(pat: Pattern, d: seq<Byte>)
    requires 0 < pat.pitch
    ensures Walked(pat, d, 0, 0) == d
  {
  }

  /** Writing column c of row y moves the walk past c and changes that offset only. */
  lemma StepWrite(pat: Pattern, d: seq<Byte>, y: nat, c: nat)
    requires Laid(pat) && y < pat.rows && c < pat.span && pat.writes(c)
    requires Offset(y, pat.pitch) + c < |d|
    ensures Walked(pat, d, y, c + 1) == Walked(pat, d, y, c)[Offset(y, pat.pitch) + c := pat.value(y, c)]
  {
    LocateOffset(y, c, pat.pitch);
  }

  /** Stepping over a column that is not written changes nothing. */
  lemma StepSkip(pat: Pattern, d: seq<Byte>, y: nat, c: nat)
    requires Laid(pat) && c < pat.span && !pat.writes(c)
    ensures Walked(pat, d, y, c + 1) == Walked(pat, d, y, c)
  {
    LocateOffset(y, c, pat.pitch);
  }

  /** At the end of the span, the walk is at the start of the next row. */
  lemma RowEnd(pat: Pattern, d: seq<Byte>, y: nat)
    requires Laid(pat)
    ensures Walked(pat, d, y, pat.span) == Walked(pat, d, y + 1, 0)
  {
    var row := Offset(y, pat.pitch);
    forall k: nat | row + pat.span <= k < row + pat.pitch && k < |d|
      ensures Painted(pat, d, k) == d[k]
    {
      LocateOffset(y, k - row, pat.pitch);
    }
  }

  /** Once every row is walked, the whole pattern is written. */
  lemma WalkDone(pat: Pattern, d: seq<Byte>, y: nat)
    requires Laid(pat) && pat.rows <= y
    ensures Walked(pat, d, y, 0) == Paint(pat, d)
  {
    forall k: nat | Offset(y, pat.pitch) <= k < |d|
      ensures pat.rows <= Locate(k, pat.pitch).0
    {
      var rc := Locate(k, pat.pitch);
      if rc.0 < pat.rows {
        OffsetMonotone(rc.0 + 1, y, pat.pitch);
      }
    }
  }

  /** Column c of row y of the painted buffer is the pattern's value when written, the old byte otherwise. */
  lemma PaintAt(pat: Pattern, d: seq<Byte>, y: nat, c: nat)
    requires Laid(pat) && y < pat.rows && c < pat.span && Offset(y, pat.pitch) + c < |d|
    ensures Paint(pat, d)[Offset(y, pat.pitch) + c] ==
      if pat.writes(c) then pat.value(y, c) else d[Offset(y, pat.pitch) + c]
  {
    var k := Offset(y, pat.pitch) + c;
    LocateOffset(y, c, pat.pitch);
    assert Paint(pat, d)[k] == Painted(pat, d, k);
  }

  /**
   * Eight columns c..c+7 of which the fourth and the eighth are not written
   * (one BGRx pixel pair) take six writes at offsets p..p+2 and p+4..p+6.
   */
  lemma PairStep(pat: Pattern, d: seq<Byte>, y: nat, c: nat, p: int)
    requires Laid(pat) && y < pat.rows && c + 7 < pat.span
    requires pat.writes(c) && pat.writes(c + 1) && pat.writes(c + 2) && !pat.writes(c + 3)
    requires pat.writes(c + 4) && pat.writes(c + 5) && pat.writes(c + 6) && !pat.writes(c + 7)
    requires p == Offset(y, pat.pitch) + c && p + 6 < |d|
    ensures Walked(pat, d, y, c + 8) ==
      Walked(pat, d, y, c)
        [p := pat.value(y, c)][p + 1 := pat.value(y, c + 1)][p + 2 := pat.value(y, c + 2)]
        [p + 4 := pat.value(y, c + 4)][p + 5 := pat.value(y, c + 5)][p + 6 := pat.value(y, c + 6)]
  {
    StepWrite(pat, d, y, c);
    StepWrite(pat, d, y, c + 1);
    StepWrite(pat, d, y, c + 2);
    StepSkip(pat, d, y, c + 3);
    StepWrite(pat, d, y, c + 4);
    StepWrite(pat, d, y, c + 5);
    StepWrite(pat, d, y, c + 6);
    StepSkip(pat, d, y, c + 7);
  }

  /** Six writes at p..p+2 and p+4..p+6 depend only on the values written. */
  lemma Relabel(a: seq<Byte>, b: seq<Byte>, p: int, u0: Byte, u1: Byte, u2: Byte, u4: Byte, u5: Byte, u6: Byte,
                v0: Byte, v1: Byte, v2: Byte, v4: Byte, v5: Byte, v6: Byte)
    requires 0 <= p && p + 6 < |a|
    requires u0 == v0 && u1 == v1 && u2 == v2 && u4 == v4 && u5 == v5 && u6 == v6
    requires b == a[p := u0][p + 1 := u1][p + 2 := u2][p + 4 := u4][p + 5 := u5][p + 6 := u6]
    ensures b == a[p := v0][p + 1 := v1][p + 2 := v2][p + 4 := v4][p + 5 := v5][p + 6 := v6]
  {
  }

  // ---------------------------------------------------------------------
  // The pattern of each conversion

  /** What a conversion writes: `h` rows of its span at the destination pitch. */
  function Layout(conv: Conversion, src: seq<Byte>, srcPitch: int, w: int, h: int, dstPitch: int): Pattern
  {
    Pattern(h, dstPitch, RowSpan(conv, w), (c: nat) => Writes(conv, c),
            (y: nat, c: nat) => ColumnValue(conv, src, Offset(y, srcPitch), c))
  }

  /** A conversion whose buffers fit lays its rows out without overlap. */
  lemma FitsLaid(conv: Conversion, src: seq<Byte>, srcPitch: int, w: int, h: int, dstLen: int, dstPitch: int)
    requires Fits(conv, |src|, srcPitch, w, h, dstLen, dstPitch)
    ensures Laid(Layout(conv, src, srcPitch, w, h, dstPitch))
  {
  }

  /** The destination after a whole conversion, from the destination `d` before it. */
  function Converted(conv: Conversion, src: seq<Byte>, srcPitch: int, w: int, h: int,
                     d: seq<Byte>, dstPitch: int): (r: seq<Byte>)
    requires Fits(conv, |src|, srcPitch, w, h, |d|, dstPitch)
    ensures |r| == |d|
  {
    Paint(Layout(conv, src, srcPitch, w, h, dstPitch), d)
  }

  // ---------------------------------------------------------------------
  // What a conversion does, stated position by position

  /**
   * A written column c of row y (y < h, c inside the row's span) gets its
   * converted value, read from source bytes that lie inside the source.
   */
  lemma ConvertedAt(conv: Conversion, src: seq<Byte>, srcPitch: int, w: int, h: int,
                    d: seq<Byte>, dstPitch: int, y: nat, c: nat)
    requires Fits(conv, |src|, srcPitch, w, h, |d|, dstPitch)
    requires y < h && c < RowSpan(conv, w) && Writes(conv, c) && y * dstPitch + c < |d|
    ensures 0 <= y * srcPitch && y * srcPitch + SrcReach(conv, c) <= |src|
    ensures Converted(conv, src, srcPitch, w, h, d, dstPitch)[y * dstPitch + c] ==
      ColumnValue(conv, src, y * srcPitch, c)
  {
    OffsetIsProduct(y, srcPitch);
    OffsetIsProduct(y, dstPitch);
    RowReadable(conv, |src|, srcPitch, w, h, |d|, dstPitch, y, c);
    PaintAt(Layout(conv, src, srcPitch, w, h, dstPitch), d, y, c);
  }

  /** A column of a row that is not written keeps its old byte. */
  lemma ConvertedKept(conv: Conversion, src: seq<Byte>, srcPitch: int, w: int, h: int,
                      d: seq<Byte>, dstPitch: int, y: nat, c: nat)
    requires Fits(conv, |src|, srcPitch, w, h, |d|, dstPitch)
    requires y < h && c < RowSpan(conv, w) && !Writes(conv, c) && y * dstPitch + c < |d|
    ensures Converted(conv, src, srcPitch, w, h, d, dstPitch)[y * dstPitch + c] == d[y * dstPitch + c]
  {
    OffsetIsProduct(y, dstPitch);
    PaintAt(Layout(conv, src, srcPitch, w, h, dstPitch), d, y, c);
  }

  /**
   * Every offset outside the written columns of the h rows (its row k / dstPitch
   * is h or later, or its column k % dstPitch is past the span or not written)
   * keeps its old byte.
   */
  lemma ConvertedFrame(conv: Conversion, src: seq<Byte>, srcPitch: int, w: int, h: int,
                       d: seq<Byte>, dstPitch: int, k: nat)
    requires Fits(conv, |src|, srcPitch, w, h, |d|, dstPitch)
    requires k < |d|
    requires h <= k / dstPitch || RowSpan(conv, w) <= k % dstPitch || !Writes(conv, k % dstPitch)
    ensures Converted(conv, src, srcPitch, w, h, d, dstPitch)[k] == d[k]
  {
    LocateIsDivMod(k, dstPitch);
  }

  /** YUYV to BGRx never writes byte 3 or byte 7 of a group's eight destination bytes. */
  lemma Rgb32PaddingUntouched(src: seq<Byte>, srcPitch: int, w: int, h: int,
                              d: seq<Byte>, dstPitch: int, y: nat, g: nat, j: nat)
    requires Fits(YuyvToRgb32, |src|, srcPitch, w, h, |d|, dstPitch)
    requires y < h && g < Groups(w) && (j == 3 || j == 7) && y * dstPitch + 8 * g + j < |d|
    ensures Converted(YuyvToRgb32, src, srcPitch, w, h, d, dstPitch)[y * dstPitch + 8 * g + j] ==
      d[y * dstPitch + 8 * g + j]
  {
    ColumnArith(g, j);
    ConvertedKept(YuyvToRgb32, src, srcPitch, w, h, d, dstPitch, y, 8 * g + j);
  }

  /**
   * YUYV to BGRx: byte j (j in 0..2 and 4..6) of group g of row y is channel
   * j % 4 (B, G, R) of Y0 for j < 4 and of Y1 for j > 4, with that group's Cb and Cr.
   */
  lemma Rgb32GroupLayout(src: seq<Byte>, srcPitch: int, w: int, h: int,
                         d: seq<Byte>, dstPitch: int, y: nat, g: nat, j: nat)
    requires Fits(YuyvToRgb32, |src|, srcPitch, w, h, |d|, dstPitch)
    requires y < h && g < Groups(w) && j < 8 && j != 3 && j != 7 && y * dstPitch + 8 * g + j < |d|
    ensures 0 <= y * srcPitch && y * srcPitch + 4 * g + 3 < |src|
    ensures var s := y * srcPitch + 4 * g;
      Converted(YuyvToRgb32, src, srcPitch, w, h, d, dstPitch)[y * dstPitch + 8 * g + j] ==
      if j < 4 then Rgb32Channel(src[s], src[s + 1], src[s + 3], j)
      else Rgb32Channel(src[s + 2], src[s + 1], src[s + 3], j - 4)
  {
    var c := 8 * g + j;
    ColumnArith(g, j);
    ConvertedAt(YuyvToRgb32, src, srcPitch, w, h, d, dstPitch, y, c);
    GroupColumn(src, y * srcPitch, g, j, y * srcPitch + 4 * g);
  }

  /** YUYV to luma keeps Y0 and Y1 of each group and drops Cb and Cr. */
  lemma LumaGroupLayout(src: seq<Byte>, srcPitch: int, w: int, h: int,
                        d: seq<Byte>, dstPitch: int, y: nat, g: nat)
    requires Fits(YuyvToLuma, |src|, srcPitch, w, h, |d|, dstPitch)
    requires y < h && g < Groups(w) && y * dstPitch + 2 * g + 1 < |d|
    ensures 0 <= y * srcPitch && y * srcPitch + 4 * g + 2 < |src|
    ensures var r := Converted(YuyvToLuma, src, srcPitch, w, h, d, dstPitch);
      r[y * dstPitch + 2 * g] == src[y * srcPitch + 4 * g] &&
      r[y * dstPitch + 2 * g + 1] == src[y * srcPitch + 4 * g + 2]
  {
    ConvertedAt(YuyvToLuma, src, srcPitch, w, h, d, dstPitch, y, 2 * g);
    ConvertedAt(YuyvToLuma, src, srcPitch, w, h, d, dstPitch, y, 2 * g + 1);
    LumaColumn(src, y * srcPitch, g, 0, y * srcPitch + 4 * g);
    LumaColumn(src, y * srcPitch, g, 1, y * srcPitch + 4 * g);
  }

  /** The YUYV loops write 2 * ceil(w / 2) luma bytes per row: exactly w when w is even, w + 1 when odd. */
  lemma LumaRowWidth(w: nat)
    ensures RowSpan(YuyvToLuma, w) == if w % 2 == 0 then w else w + 1
  {
  }

  /** BGRx to luma: pixel x of row y is the weighted sum of that pixel's R, G and B. */
  lemma Rgb32LumaLayout(src: seq<Byte>, srcPitch: int, w: int, h: int,
                        d: seq<Byte>, dstPitch: int, y: nat, x: nat)
    requires Fits(Rgb32ToLuma, |src|, srcPitch, w, h, |d|, dstPitch)
    requires y < h && x < w && y * dstPitch + x < |d|
    ensures 0 <= y * srcPitch && y * srcPitch + 4 * x + 2 < |src|
    ensures var s := y * srcPitch + 4 * x;
      Converted(Rgb32ToLuma, src, srcPitch, w, h, d, dstPitch)[y * dstPitch + x] ==
      Rgb32Luma(src[s + 2], src[s + 1], src[s])
  {
    ConvertedAt(Rgb32ToLuma, src, srcPitch, w, h, d, dstPitch, y, x);
  }

  // ---------------------------------------------------------------------
  // Column arithmetic of `yuyv_to_rgb32`

  /** Column 8 g + j of a BGRx row lies in group g at byte j. */
  lemma ColumnArith(g: nat, j: nat)
    requires j < 8
    ensures (8 * g + j) / 8 == g && (8 * g + j) % 8 == j && (8 * g + j) % 4 == j % 4
  {
    assert (8 * g + j) / 8 == g && (8 * g + j) % 8 == j;
    assert (8 * g + j) % 4 == j % 4 by {
      assert 8 * g + j == 4 * (2 * g) + j;
    }
  }

  /** Column 8 g + j of a BGRx row is channel j % 4 of Y0 (j < 4) or Y1 (j > 4) of group g. */
  lemma GroupColumn(src: seq<Byte>, base: int, g: nat, j: nat, s: int)
    requires j < 8 && j != 3 && j != 7 && s == base + 4 * g && 0 <= s && s + 4 <= |src|
    ensures ColumnValue(YuyvToRgb32, src, base, 8 * g + j) ==
      if j < 4 then Rgb32Channel(src[s], src[s + 1], src[s + 3], j)
      else Rgb32Channel(src[s + 2], src[s + 1], src[s + 3], j - 4)
  {
    OffsetIsProduct(g, 8);
    LocateOffset(g, j, 8);
  }

  /** Column 2 g + j of a luma row is Y0 (j = 0) or Y1 (j = 1) of group g. */
  lemma LumaColumn(src: seq<Byte>, base: int, g: nat, j: nat, s: int)
    requires j < 2 && s == base + 4 * g && 0 <= s && s + 2 < |src|
    ensures ColumnValue(YuyvToLuma, src, base, 2 * g + j) == src[s + 2 * j]
  {
    OffsetIsProduct(g, 2);
    LocateOffset(g, j, 2);
  }

  /** Group g of row y: its source bytes and destination bytes are in bounds, and byte j of it is written iff j % 4 != 3. */
  lemma GroupBounds(src: seq<Byte>, srcPitch: int, w: int, h: int, dstLen: int, dstPitch: int, y: nat, g: nat)
    requires Fits(YuyvToRgb32, |src|, srcPitch, w, h, dstLen, dstPitch)
    requires y < h && g < Groups(w)
    ensures Offset(y, srcPitch) + 4 * g + 4 <= |src|
    ensures Offset(y, dstPitch) + 8 * g + 6 < dstLen
    ensures var pat := Layout(YuyvToRgb32, src, srcPitch, w, h, dstPitch); var c := 8 * g;
      c + 7 < pat.span &&
      pat.writes(c) && pat.writes(c + 1) && pat.writes(c + 2) && !pat.writes(c + 3) &&
      pat.writes(c + 4) && pat.writes(c + 5) && pat.writes(c + 6) && !pat.writes(c + 7)
  {
    ColumnArith(g, 0);
    ColumnArith(g, 1);
    ColumnArith(g, 2);
    ColumnArith(g, 3);
    ColumnArith(g, 4);
    ColumnArith(g, 5);
    ColumnArith(g, 6);
    ColumnArith(g, 7);
    RowReadable(YuyvToRgb32, |src|, srcPitch, w, h, dstLen, dstPitch, y, 8 * g + 6);
    RowWritable(YuyvToRgb32, |src|, srcPitch, w, h, dstLen, dstPitch, y, 8 * g + 6);
  }

  /** Column 8 g + j of row y holds channel j % 4 of Y0 (j < 4) or Y1 (j > 4) of the group at source offset s. */
  lemma GroupValue(src: seq<Byte>, srcPitch: int, w: int, h: int, dstPitch: int, y: nat, g: nat, j: nat, s: int)
    requires s == Offset(y, srcPitch) + 4 * g && 0 <= srcPitch && s + 4 <= |src|
    requires j < 8 && j != 3 && j != 7
    ensures Layout(YuyvToRgb32, src, srcPitch, w, h, dstPitch).value(y, 8 * g + j) ==
      if j < 4 then ChannelClamp(src[s] as int * 256, ChromaTerm(src[s + 1], src[s + 3], j))
      else ChannelClamp(src[s + 2] as int * 256, ChromaTerm(src[s + 1], src[s + 3], j - 4))
  {
    GroupColumn(src, Offset(y, srcPitch), g, j, s);
  }

  /**
   * The three bytes the first pixel (Y0) of group g of row y writes, from the
   * group Y0 Cb Y1 Cr at source offset s, in the terms `yuyv_to_rgb32` computes them.
   */
  lemma FirstPixelValues(src: seq<Byte>, srcPitch: int, w: int, h: int, dstPitch: int, y: nat, g: nat, s: int)
    requires s == Offset(y, srcPitch) + 4 * g && 0 <= srcPitch && s + 4 <= |src|
    ensures var pat := Layout(YuyvToRgb32, src, srcPitch, w, h, dstPitch); var c := 8 * g;
      var y0 := src[s] as int * 256;
      var cr := src[s + 3] as int - 128;
      var cb := src[s + 1] as int - 128;
      pat.value(y, c) == ChannelClamp(y0, 454 * cb) &&
      pat.value(y, c + 1) == ChannelClamp(y0, -cb * 88 - 128 * cr) &&
      pat.value(y, c + 2) == ChannelClamp(y0, cr * 359)
  {
    GroupValue(src, srcPitch, w, h, dstPitch, y, g, 0, s);
    GroupValue(src, srcPitch, w, h, dstPitch, y, g, 1, s);
    GroupValue(src, srcPitch, w, h, dstPitch, y, g, 2, s);
  }

  /** The three bytes the second pixel (Y1) of group g of row y writes. */
  lemma SecondPixelValues(src: seq<Byte>, srcPitch: int, w: int, h: int, dstPitch: int, y: nat, g: nat, s: int)
    requires s == Offset(y, srcPitch) + 4 * g && 0 <= srcPitch && s + 4 <= |src|
    ensures var pat := Layout(YuyvToRgb32, src, srcPitch, w, h, dstPitch); var c := 8 * g;
      var y1 := src[s + 2] as int * 256;
      var cr := src[s + 3] as int - 128;
      var cb := src[s + 1] as int - 128;
      pat.value(y, c + 4) == ChannelClamp(y1, 454 * cb) &&
      pat.value(y, c + 5) == ChannelClamp(y1, -cb * 88 - 128 * cr) &&
      pat.value(y, c + 6) == ChannelClamp(y1, cr * 359)
  {
    GroupValue(src, srcPitch, w, h, dstPitch, y, g, 4, s);
    GroupValue(src, srcPitch, w, h, dstPitch, y, g, 5, s);
    GroupValue(src, srcPitch, w, h, dstPitch, y, g, 6, s);
  }

  /** Group k of row y of `yuyv_to_luma`: both columns are in bounds and hold Y0 and Y1 of source group s. */
  lemma LumaBounds(src: seq<Byte>, srcPitch: int, w: int, h: int, dstLen: int, dstPitch: int, y: nat, k: nat, s: int)
    requires Fits(YuyvToLuma, |src|, srcPitch, w, h, dstLen, dstPitch)
    requires y < h && k < Groups(w) && s == Offset(y, srcPitch) + 4 * k
    ensures 0 <= s && s + 2 < |src| && Offset(y, dstPitch) + 2 * k + 1 < dstLen
    ensures 2 * k + 1 < RowSpan(YuyvToLuma, w)
  {
    assert (2 * k + 1) / 2 == k && (2 * k + 1) % 2 == 1;
    RowReadable(YuyvToLuma, |src|, srcPitch, w, h, dstLen, dstPitch, y, 2 * k + 1);
    RowWritable(YuyvToLuma, |src|, srcPitch, w, h, dstLen, dstPitch, y, 2 * k + 1);
  }

  /** The two luma bytes group k of row y writes are Y0 and Y1 of the source group at s. */
  lemma LumaValues(src: seq<Byte>, srcPitch: int, w: int, h: int, dstPitch: int, y: nat, k: nat, s: int)
    requires s == Offset(y, srcPitch) + 4 * k && 0 <= s && s + 2 < |src|
    ensures var pat := Layout(YuyvToLuma, src, srcPitch, w, h, dstPitch);
      pat.value(y, 2 * k) == src[s] && pat.value(y, 2 * k + 1) == src[s + 2]
  {
    LumaColumn(src, Offset(y, srcPitch), k, 0, s);
    LumaColumn(src, Offset(y, srcPitch), k, 1, s);
  }

  /** Pixel i of row y of `rgb32_to_luma`: it is in bounds and its value is the luma of source pixel s. */
  lemma Rgb32LumaValue(src: seq<Byte>, srcPitch: int, w: int, h: int, dstLen: int, dstPitch: int, y: nat, i: nat, s: int)
    requires Fits(Rgb32ToLuma, |src|, srcPitch, w, h, dstLen, dstPitch)
    requires y < h && i < w && s == Offset(y, srcPitch) + 4 * i
    ensures 0 <= s && s + 2 < |src| && Offset(y, dstPitch) + i < dstLen
    ensures var pat := Layout(Rgb32ToLuma, src, srcPitch, w, h, dstPitch);
      i < pat.span && pat.writes(i) && pat.value(y, i) == Rgb32Luma(src[s + 2], src[s + 1], src[s])
  {
    RowReadable(Rgb32ToLuma, |src|, srcPitch, w, h, dstLen, dstPitch, y, i);
    RowWritable(Rgb32ToLuma, |src|, srcPitch, w, h, dstLen, dstPitch, y, i);
  }

  // ---------------------------------------------------------------------
  // The conversions

  /** `yuyv_to_rgb32`. */
  method YuyvToRgb32Rows(src: seq<Byte>, srcPitch: int, w: int, h: int, dst: array<Byte>, dstPitch: int)
    requires Fits(YuyvToRgb32, |src|, srcPitch, w, h, dst.Length, dstPitch)
    modifies dst
    ensures dst[..] == Converted(YuyvToRgb32, src, srcPitch, w, h, old(dst[..]), dstPitch)
  {
    ghost var d := dst[..];
    ghost var pat := Layout(YuyvToRgb32, src, srcPitch, w, h, dstPitch);
    FitsLaid(YuyvToRgb32, src, srcPitch, w, h, dst.Length, dstPitch);
    WalkStart(pat, d);
    var y := 0;
    while y < h
      invariant 0 <= y && (0 <= h ==> y <= h)
      invariant dst[..] == Walked(pat, d, y, 0)
    {
      YuyvToRgb32Row(src, srcPitch, w, h, dst, dstPitch, d, y);
      y := y + 1;
    }
    WalkDone(pat, d, y);
  }

  /** Row y of `yuyv_to_rgb32`: the walk moves from the start of row y to the start of row y + 1. */
  method YuyvToRgb32Row(src: seq<Byte>, srcPitch: int, w: int, h: int, dst: array<Byte>, dstPitch: int,
                        ghost d: seq<Byte>, y: nat)
    requires |d| == dst.Length && Fits(YuyvToRgb32, |src|, srcPitch, w, h, |d|, dstPitch)
    requires y < h
    requires dst[..] == Walked(Layout(YuyvToRgb32, src, srcPitch, w, h, dstPitch), d, y, 0)
    modifies dst
    ensures dst[..] == Walked(Layout(YuyvToRgb32, src, srcPitch, w, h, dstPitch), d, y + 1, 0)
  {
    ghost var pat := Layout(YuyvToRgb32, src, srcPitch, w, h, dstPitch);
    FitsLaid(YuyvToRgb32, src, srcPitch, w, h, |d|, dstPitch);
    OffsetIsProduct(y, srcPitch);
    OffsetIsProduct(y, dstPitch);
    var x := 0;
    var srow := y * srcPitch;
    var drow := y * dstPitch;
    ghost var k: nat := 0;
    while x < w
      invariant x == 2 * k && k <= Groups(w)
      invariant srow == Offset(y, srcPitch) + 4 * k && drow == Offset(y, dstPitch) + 8 * k
      invariant dst[..] == Walked(pat, d, y, 8 * k)
    {
      NextGroup(w, k);
      GroupBounds(src, srcPitch, w, h, |d|, dstPitch, y, k);
      FirstPixelValues(src, srcPitch, w, h, dstPitch, y, k, srow);
      SecondPixelValues(src, srcPitch, w, h, dstPitch, y, k, srow);
      PairStep(pat, d, y, 8 * k, drow);
      ghost var before: seq<Byte> := dst[..];
      YuyvToRgb32Group(src, srow, dst, drow);
      Relabel(before, dst[..], drow,
              ChannelClamp(src[srow] as int * 256, 454 * (src[srow + 1] as int - 128)),
              ChannelClamp(src[srow] as int * 256, -(src[srow + 1] as int - 128) * 88 - 128 * (src[srow + 3] as int - 128)),
              ChannelClamp(src[srow] as int * 256, (src[srow + 3] as int - 128) * 359),
              ChannelClamp(src[srow + 2] as int * 256, 454 * (src[srow + 1] as int - 128)),
              ChannelClamp(src[srow + 2] as int * 256, -(src[srow + 1] as int - 128) * 88 - 128 * (src[srow + 3] as int - 128)),
              ChannelClamp(src[srow + 2] as int * 256, (src[srow + 3] as int - 128) * 359),
              pat.value(y, 8 * k), pat.value(y, 8 * k + 1), pat.value(y, 8 * k + 2),
              pat.value(y, 8 * k + 4), pat.value(y, 8 * k + 5), pat.value(y, 8 * k + 6));

      srow := srow + 4;
      drow := drow + 8;
      x := x + 2;
      k := k + 1;
    }
    PastGroups(w, k);
    RowEnd(pat, d, y);
  }

  /**
   * One pass of the inner loop of `yuyv_to_rgb32`: the group Y0 Cb Y1 Cr at
   * `srow` becomes B, G, R of two pixels at drow..drow + 2 and drow + 4..drow + 6.
   */
  method YuyvToRgb32Group(src: seq<Byte>, srow: int, dst: array<Byte>, drow: int)
    requires 0 <= srow && srow + 4 <= |src| && 0 <= drow && drow + 6 < dst.Length
    modifies dst
    ensures var y0 := src[srow] as int * 256;
      var y1 := src[srow + 2] as int * 256;
      var cr := src[srow + 3] as int - 128;
      var cb := src[srow + 1] as int - 128;
      dst[..] == old(dst[..])
        [drow := ChannelClamp(y0, 454 * cb)]
        [drow + 1 := ChannelClamp(y0, -cb * 88 - 128 * cr)]
        [drow + 2 := ChannelClamp(y0, cr * 359)]
        [drow + 4 := ChannelClamp(y1, 454 * cb)]
        [drow + 5 := ChannelClamp(y1, -cb * 88 - 128 * cr)]
        [drow + 6 := ChannelClamp(y1, cr * 359)]
  {
    var y0: int := src[srow] as int * 256;
    var y1: int := src[srow + 2] as int * 256;
    var cr: int := src[srow + 3] as int - 128;
    var cb: int := src[srow + 1] as int - 128;
    var r: int := cr * 359;
    var g: int := -cb * 88 - 128 * cr;
    var b: int := 454 * cb;

    dst[drow] := ChannelClamp(y0, b);
    dst[drow + 1] := ChannelClamp(y0, g);
    dst[drow + 2] := ChannelClamp(y0, r);
    dst[drow + 4] := ChannelClamp(y1, b);
    dst[drow + 5] := ChannelClamp(y1, g);
    dst[drow + 6] := ChannelClamp(y1, r);
  }

  /** `yuyv_to_luma`. */
  method YuyvToLumaRows(src: seq<Byte>, srcPitch: int, w: int, h: int, dst: array<Byte>, dstPitch: int)
    requires Fits(YuyvToLuma, |src|, srcPitch, w, h, dst.Length, dstPitch)
    modifies dst
    ensures dst[..] == Converted(YuyvToLuma, src, srcPitch, w, h, old(dst[..]), dstPitch)
  {
    ghost var d := dst[..];
    ghost var pat := Layout(YuyvToLuma, src, srcPitch, w, h, dstPitch);
    FitsLaid(YuyvToLuma, src, srcPitch, w, h, dst.Length, dstPitch);
    WalkStart(pat, d);
    var y := 0;
    while y < h
      invariant 0 <= y && (0 <= h ==> y <= h)
      invariant dst[..] == Walked(pat, d, y, 0)
    {
      YuyvToLumaRow(src, srcPitch, w, h, dst, dstPitch, d, y);
      y := y + 1;
    }
    WalkDone(pat, d, y);
  }

  /** Row y of `yuyv_to_luma`: the walk moves from the start of row y to the start of row y + 1. */
  method YuyvToLumaRow(src: seq<Byte>, srcPitch: int, w: int, h: int, dst: array<Byte>, dstPitch: int,
                       ghost d: seq<Byte>, y: nat)
    requires |d| == dst.Length && Fits(YuyvToLuma, |src|, srcPitch, w, h, |d|, dstPitch)
    requires y < h
    requires dst[..] == Walked(Layout(YuyvToLuma, src, srcPitch, w, h, dstPitch), d, y, 0)
    modifies dst
    ensures dst[..] == Walked(Layout(YuyvToLuma, src, srcPitch, w, h, dstPitch), d, y + 1, 0)
  {
    ghost var pat := Layout(YuyvToLuma, src, srcPitch, w, h, dstPitch);
    FitsLaid(YuyvToLuma, src, srcPitch, w, h, |d|, dstPitch);
    OffsetIsProduct(y, srcPitch);
    OffsetIsProduct(y, dstPitch);
    var x := 0;
    var srow := y * srcPitch;
    var drow := y * dstPitch;
    ghost var k: nat := 0;
    while x < w
      invariant x == 2 * k && k <= Groups(w)
      invariant srow == Offset(y, srcPitch) + 4 * k && drow == Offset(y, dstPitch) + x
      invariant dst[..] == Walked(pat, d, y, x)
    {
      NextGroup(w, k);
      LumaBounds(src, srcPitch, w, h, |d|, dstPitch, y, k, srow);
      LumaValues(src, srcPitch, w, h, dstPitch, y, k, srow);
      StepWrite(pat, d, y, x);
      dst[drow] := src[srow];
      drow := drow + 1;
      StepWrite(pat, d, y, x + 1);
      dst[drow] := src[srow + 2];
      drow := drow + 1;
      srow := srow + 4;
      x := x + 2;
      k := k + 1;
    }
    PastGroups(w, k);
    RowEnd(pat, d, y);
  }

  /** One pass of the inner loop of `rgb32_to_luma`: the BGRx pixel at `rgb32` becomes one luma byte at `gray`. */
  method Rgb32ToLumaPixel(src: seq<Byte>, rgb32: int, dst: array<Byte>, gray: int)
    requires 0 <= rgb32 && rgb32 + 2 < |src| && 0 <= gray < dst.Length
    modifies dst
    ensures dst[..] == old(dst[..])[gray := Rgb32Luma(src[rgb32 + 2], src[rgb32 + 1], src[rgb32])]
  {
    var r: int := src[rgb32 + 2];
    var g: int := src[rgb32 + 1];
    var b: int := src[rgb32];
    var sum := r * 59 + g * 150 + b * 29;
    dst[gray] := sum / 256;
  }

  /** `rgb32_to_luma`. */
  method Rgb32ToLumaRows(src: seq<Byte>, srcPitch: int, w: int, h: int, dst: array<Byte>, dstPitch: int)
    requires Fits(Rgb32ToLuma, |src|, srcPitch, w, h, dst.Length, dstPitch)
    modifies dst
    ensures dst[..] == Converted(Rgb32ToLuma, src, srcPitch, w, h, old(dst[..]), dstPitch)
  {
    ghost var d := dst[..];
    ghost var pat := Layout(Rgb32ToLuma, src, srcPitch, w, h, dstPitch);
    FitsLaid(Rgb32ToLuma, src, srcPitch, w, h, dst.Length, dstPitch);
    WalkStart(pat, d);
    var y := 0;
    while y < h
      invariant 0 <= y && (0 <= h ==> y <= h)
      invariant dst[..] == Walked(pat, d, y, 0)
    {
      Rgb32ToLumaRow(src, srcPitch, w, h, dst, dstPitch, d, y);
      y := y + 1;
    }
    WalkDone(pat, d, y);
  }

  /** Row y of `rgb32_to_luma`: the walk moves from the start of row y to the start of row y + 1. */
  method Rgb32ToLumaRow(src: seq<Byte>, srcPitch: int, w: int, h: int, dst: array<Byte>, dstPitch: int,
                        ghost d: seq<Byte>, y: nat)
    requires |d| == dst.Length && Fits(Rgb32ToLuma, |src|, srcPitch, w, h, |d|, dstPitch)
    requires y < h
    requires dst[..] == Walked(Layout(Rgb32ToLuma, src, srcPitch, w, h, dstPitch), d, y, 0)
    modifies dst
    ensures dst[..] == Walked(Layout(Rgb32ToLuma, src, srcPitch, w, h, dstPitch), d, y + 1, 0)
  {
    ghost var pat := Layout(Rgb32ToLuma, src, srcPitch, w, h, dstPitch);
    FitsLaid(Rgb32ToLuma, src, srcPitch, w, h, |d|, dstPitch);
    OffsetIsProduct(y, srcPitch);
    OffsetIsProduct(y, dstPitch);
    var rgb32 := srcPitch * y;
    var gray := y * dstPitch;
    var i := 0;
    while i < w
      invariant 0 <= i && (0 <= w ==> i <= w)
      invariant rgb32 == Offset(y, srcPitch) + 4 * i && gray == Offset(y, dstPitch) + i
      invariant dst[..] == Walked(pat, d, y, i)
    {
      Rgb32LumaValue(src, srcPitch, w, h, |d|, dstPitch, y, i, rgb32);
      StepWrite(pat, d, y, i);
      Rgb32ToLumaPixel(src, rgb32, dst, gray);
      gray := gray + 1;
      rgb32 := rgb32 + 4;
      i := i + 1;
    }
    RowEnd(pat, d, y);
  }
}
