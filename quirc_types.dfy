/**
 * The value types that lib/quirc.hpp declares for users of the decoder:
 * the decode-error enumeration, points, detected codes with their cell
 * bitmap, decoded data and the (error, data) result pair.
 */
module QuircTypes {
  import opened Wrappers
  import opened Arith

  /** `Quirc::DecodeError`, in declaration order. */
  datatype DecodeError =
    | Success
    | InvalidGridSize
    | InvalidVersion
    | FormatEcc
    | DataEcc
    | UnknownDataType
    | DataOverflow
    | DataUnderflow

  /** The number of values in the enumeration. */
  const ErrorCount := 8

  /** The integer a C enumerator of this type carries. */
  function ErrorCode(e: DecodeError): (n: int)
    ensures 0 <= n < ErrorCount
    ensures n == 0 <==> e == Success
  {
    match e
    case Success => 0
    case InvalidGridSize => 1
    case InvalidVersion => 2
    case FormatEcc => 3
    case DataEcc => 4
    case UnknownDataType => 5
    case DataOverflow => 6
    case DataUnderflow => 7
  }

  /** The enumerator an integer names, if any. */
  function ErrorFromCode(n: int): (r: Option<DecodeError>)
    ensures r.Some? <==> 0 <= n < ErrorCount
    ensures r.Some? ==> ErrorCode(r.value) == n
  {
    if n == 0 then Some(Success)
    else if n == 1 then Some(InvalidGridSize)
    else if n == 2 then Some(InvalidVersion)
    else if n == 3 then Some(FormatEcc)
    else if n == 4 then Some(DataEcc)
    else if n == 5 then Some(UnknownDataType)
    else if n == 6 then Some(DataOverflow)
    else if n == 7 then Some(DataUnderflow)
    else None
  }

  /** Every enumerator survives the trip to its integer and back, so the codes are distinct. */
  lemma ErrorCodeRoundTrip(e: DecodeError)
    ensures ErrorFromCode(ErrorCode(e)) == Some(e)
  {
  }

  /** `Quirc::Point`. */
  datatype Point = Point(x: int, y: int)

  /** The four corners of a code, from the top left, clockwise. */
  datatype Corners = Corners(topLeft: Point, topRight: Point, bottomRight: Point, bottomLeft: Point)
  {
    /** The corners as the C array `corners[4]` holds them. */
    function AsArray(): (s: seq<Point>)
      ensures |s| == 4
      ensures s[0] == topLeft && s[1] == topRight && s[2] == bottomRight && s[3] == bottomLeft
    {
      [topLeft, topRight, bottomRight, bottomLeft]
    }
  }

  /**
   * `Quirc::Code`: corners, the number of cells across and the cell bitmap.
   * The bitmap's capacity, QUIRC_MAX_BITMAP, is declared in quirc.h, which
   * is not part of this model; a well-formed code's bitmap holds at least
   * one bit per cell.
   */
  datatype Code = Code(corners: Corners, size: int, cellBitmap: seq<bv8>)
  {
    ghost predicate WellFormed() {
      0 <= size && size * size <= 8 * |cellBitmap|
    }
  }

  /** `Quirc::Data`: decoded parameters and payload. */
  datatype Data = Data(
    version: int,
    eccLevel: int,
    mask: int,
    dataType: int,
    payload: seq<bv8>,
    payloadLen: int,
    eci: bv32)

  /** `Quirc::Result`: one error status together with one data record. */
  datatype Result = Result(error: DecodeError, data: Data)

  // ---------------------------------------------------------------------
  // Cell-bitmap addressing: cell (x, y) has linear index i = y * size + x,
  // and it is black when bit (i & 7) of byte cell_bitmap[i >> 3] is set.
  // `ShiftAndMask` shows that, for the non-negative indices used here,
  // i >> 3 is i / 8 and i & 7 is i % 8, which is how the model addresses bits.

  /** C's `a >> k` on a non-negative `a`: `k` halvings, each dropping the low bit. */
  function ShiftRight(a: nat, k: nat): nat
  {
    if k == 0 then a else ShiftRight(a / 2, k - 1)
  }

  /** C's `a & b` on non-negative operands, bit by bit from the lowest. */
  function BitAnd(a: nat, b: nat): nat
  {
    if a == 0 || b == 0 then 0 else 2 * BitAnd(a / 2, b / 2) + (a % 2) * (b % 2)
  }

  /** The header's byte index `i >> 3` is `i / 8`, and its bit index `i & 7` is `i % 8`. */
  lemma ShiftAndMask(i: nat)
    ensures ShiftRight(i, 3) == i / 8
    ensures BitAnd(i, 7) == i % 8
  {
    var q, r := i / 8, i % 8;
    assert i / 2 == 4 * q + r / 2;
    assert i / 2 / 2 == 2 * q + r / 4;
    assert i / 2 / 2 / 2 == q;
    assert ShiftRight(i, 3) == ShiftRight(i / 2, 2) == ShiftRight(i / 2 / 2, 1) == i / 2 / 2 / 2;
    assert BitAnd(i / 2 / 2, 1) == (i / 2 / 2) % 2;
  }

  /** Linear index of cell (x, y) in a code `size` cells across. */
  function CellIndex(size: nat, x: nat, y: nat): nat
  {
    y * size + x
  }

  /** The mask that selects bit `k` of a byte. */
  function BitMask(k: nat): (m: bv8)
    requires k < 8
  {
    (1 as bv8) << k
  }

  /** Whether the cell with linear index `i` is black in `bitmap`. */
  function CellBit(bitmap: seq<bv8>, i: nat): (black: bool)
    requires i / 8 < |bitmap|
    ensures ShiftRight(i, 3) < |bitmap| && BitAnd(i, 7) < 8 &&
      (black <==> bitmap[ShiftRight(i, 3)] & BitMask(BitAnd(i, 7)) != 0)
  {
    ShiftAndMask(i);
    bitmap[i / 8] & BitMask(i % 8) != 0
  }

  /** Two different bit positions of a byte have disjoint masks. */
  lemma MasksDisjoint(j: nat, k: nat)
    requires j < 8 && k < 8 && j != k
    ensures BitMask(j) & BitMask(k) == 0
    ensures BitMask(k) != 0
  {
  }

  /** The bitmap with the cell of linear index `i` set to `black`. */
  function WithCell(bitmap: seq<bv8>, i: nat, black: bool): (r: seq<bv8>)
    requires i / 8 < |bitmap|
    ensures |r| == |bitmap|
    ensures CellBit(r, i) == black
    ensures forall j: nat :: j / 8 < |bitmap| && j != i ==> CellBit(r, j) == CellBit(bitmap, j)
  {
    var b := bitmap[i / 8];
    var m := BitMask(i % 8);
    var r := bitmap[i / 8 := if black then b | m else b & !m];
    forall j: nat | j / 8 < |bitmap| && j != i
      ensures CellBit(r, j) == CellBit(bitmap, j)
    {
      if j / 8 == i / 8 {
        MasksDisjoint(j % 8, i % 8);
      }
    }
    MasksDisjoint(i % 8, (i + 1) % 8);
    r
  }

  /** Cells inside a code have indices inside the code's size * size cells. */
  lemma {:induction false} CellIndexInRange(size: nat, x: nat, y: nat)
    requires x < size && y < size
    ensures CellIndex(size, x, y) < size * size
  {
    calc {
      CellIndex(size, x, y);
      == y * size + x;
      < y * size + size;
      == (y + 1) * size;
      <= { MulMonotone(y + 1, size, size); } size * size;
    }
  }

  /** The cell index determines the cell: x and y are its remainder and quotient by `size`. */
  lemma {:induction false} CellIndexDecodes(size: nat, x: nat, y: nat)
    requires x < size
    ensures CellIndex(size, x, y) % size == x
    ensures CellIndex(size, x, y) / size == y
  {
    var i := CellIndex(size, x, y);
    var q, r := i / size, i % size;
    assert i == q * size + r && 0 <= r < size;
    // (y - q) * size == r - x, and |r - x| < size, so y == q.
    if y > q {
      MulMonotone(q + 1, y, size);
      assert false;
    } else if y < q {
      MulMonotone(y + 1, q, size);
      assert false;
    }
  }

  /** Distinct cells of one code occupy distinct bits of its bitmap. */
  lemma CellIndexInjective(size: nat, x1: nat, y1: nat, x2: nat, y2: nat)
    requires x1 < size && x2 < size
    requires CellIndex(size, x1, y1) == CellIndex(size, x2, y2)
    ensures x1 == x2 && y1 == y2
  {
    CellIndexDecodes(size, x1, y1);
    CellIndexDecodes(size, x2, y2);
  }

  /** Whether cell (x, y) of a well-formed code is black. */
  function CellAt(code: Code, x: nat, y: nat): (black: bool)
    requires code.WellFormed() && x < code.size && y < code.size
    ensures var i := y * code.size + x;
      ShiftRight(i, 3) < |code.cellBitmap| && BitAnd(i, 7) < 8 &&
      (black <==> code.cellBitmap[ShiftRight(i, 3)] & BitMask(BitAnd(i, 7)) != 0)
  {
    CellIndexInRange(code.size, x, y);
    CellBit(code.cellBitmap, CellIndex(code.size, x, y))
  }

  /** Setting one cell changes that cell and no other cell of the code. */
  lemma SetCellFrame(code: Code, x: nat, y: nat, black: bool, u: nat, v: nat)
    requires code.WellFormed() && x < code.size && y < code.size
    requires u < code.size && v < code.size
    ensures CellIndex(code.size, x, y) / 8 < |code.cellBitmap|
    ensures var c2 := code.(cellBitmap := WithCell(code.cellBitmap, CellIndex(code.size, x, y), black));
      c2.WellFormed() &&
      CellAt(c2, u, v) == if u == x && v == y then black else CellAt(code, u, v)
  {
    CellIndexInRange(code.size, x, y);
    CellIndexInRange(code.size, u, v);
    if u != x || v != y {
      if CellIndex(code.size, x, y) == CellIndex(code.size, u, v) {
        CellIndexInjective(code.size, x, y, u, v);
      }
    }
  }
}
