/**
 * The scratch arena of lib/quirc-glue.js (`ensureCache`) and the functions
 * that stage JavaScript strings and arrays into the Emscripten heap through
 * it (`ensureString`, `ensureInt8` .. `ensureFloat64`).
 *
 * Addresses are integers and 0 is the null address. `_malloc` is not
 * modelled: its result is a parameter of each operation that may call it.
 * Every call of `_free` is recorded, argument and all, in the ghost log
 * `released`. A heap view (`HEAP8`, `HEAP16`, ...) is an array of elements.
 */
module GlueCache {
  import opened Wrappers
  import opened Arith

  /** The typed views of the heap that the staging functions write through. */
  datatype HeapView = Heap8 | Heap16 | Heap32 | HeapF32 | HeapF64

  /** `view.BYTES_PER_ELEMENT`. */
  function BytesPerElement(view: HeapView): (n: nat)
    ensures n == 1 || n == 2 || n == 4 || n == 8
    ensures 8 % n == 0
  {
    match view
    case Heap8 => 1
    case Heap16 => 2
    case Heap32 | HeapF32 => 4
    case HeapF64 => 8
  }

  /**
   * `(len + 7) & -8`: a byte length rounded up to the next multiple of 8.
   * For the lengths the arena sees (non-negative, below 2^31 - 7) the
   * 32-bit mask is this rounding.
   */
  function RoundUp8(len: int): (r: int)
    requires 0 <= len
    ensures r % 8 == 0
    ensures len <= r < len + 8
  {
    (len + 7) / 8 * 8
  }

  /**
   * The element index a byte offset has in a view: the offset shifted right
   * by 1, 2 or 3 for 2-, 4- and 8-byte elements, unchanged for bytes.
   */
  function ElementIndex(offset: int, view: HeapView): (i: int)
    ensures i * BytesPerElement(view) <= offset < (i + 1) * BytesPerElement(view)
    ensures offset % BytesPerElement(view) == 0 ==> i * BytesPerElement(view) == offset
  {
    match BytesPerElement(view)
    case 2 => offset / 2
    case 4 => offset / 4
    case 8 => offset / 8
    case _ => offset
  }

  /** The total of a sequence of lengths. */
  function Sum(lens: seq<int>): int
  {
    if lens == [] then 0 else Sum(lens[..|lens| - 1]) + lens[|lens| - 1]
  }

  /** A prefix of non-negative lengths never totals more than the whole. */
  lemma {:induction false} SumPrefix(lens: seq<int>, k: nat)
    requires k <= |lens|
    requires forall i :: 0 <= i < |lens| ==> 0 <= lens[i]
    ensures Sum(lens[..k]) <= Sum(lens)
    decreases |lens|
  {
    if k < |lens| {
      var init := lens[..|lens| - 1];
      assert init[..k] == lens[..k];
      SumPrefix(init, k);
    } else {
      assert lens[..k] == lens;
    }
  }

  /**
   * When a round of allocations totals less than the buffer, replaying it in
   * order from offset 0 places every allocation inside the buffer: the
   * allocation number k starts at the total of the k before it.
   */
  lemma RoundFits(round: seq<int>, size: int)
    requires forall i :: 0 <= i < |round| ==> 0 <= round[i]
    requires Sum(round) < size
    ensures forall k :: 0 <= k < |round| ==> Sum(round[..k]) + round[k] < size
  {
    forall k | 0 <= k < |round|
      ensures Sum(round[..k]) + round[k] < size
    {
      assert round[..k + 1][..k] == round[..k];
      SumPrefix(round, k + 1);
    }
  }

  /** The arena, `ensureCache`. */
  class EnsureCache {
    /** The address of the main buffer, 0 when there is none. */
    var buffer: int
    var size: int
    /** The next free offset in the buffer. */
    var pos: int
    /** The spill allocations made since the last growth. */
    var temps: seq<int>
    /** The bytes the spills asked for: the growth due at the next `prepare`. */
    var needed: int
    /** The rounded length of every allocation since the last `prepare`. */
    ghost var round: seq<int>
    /** Every argument passed to `_free`, in order. */
    ghost var released: seq<int>

    /**
     * The arena's invariant: the offset is aligned and strictly inside a
     * present buffer; the round's lengths are aligned and account for the
     * bytes placed in the buffer plus the bytes spilled; there are spills
     * only when growth is due; and with no buffer nothing has been handed out.
     */
    ghost predicate Valid()
      reads this
    {
      0 <= pos && pos % 8 == 0 && 0 <= size && 0 <= needed &&
      (forall i :: 0 <= i < |round| ==> 0 <= round[i] && round[i] % 8 == 0) &&
      (needed == 0 ==> temps == []) &&
      (buffer == 0 ==> needed == 0 && round == []) &&
      (buffer != 0 ==> pos < size && Sum(round) == pos + needed)
    }

    /**
     * What one successful `alloc` of `len` rounded bytes, returning `at`, did
     * to the arena: the buffer, its size and the free log are as they were
     * and the round has grown by `len`. When the bytes fit strictly before
     * the end of the buffer they were carved at the old offset, which moved
     * past them; otherwise they were spilled to `mallocAddr`, which joined
     * the spills, and `len` was added to the growth due.
     */
    twostate predicate Allocated(len: int, at: int, mallocAddr: int)
      reads this
    {
      buffer == old(buffer) && size == old(size) && released == old(released) &&
      round == old(round) + [len] &&
      if old(pos) + len < old(size) then
        at == old(buffer) + old(pos) && pos == old(pos) + len &&
        needed == old(needed) && temps == old(temps)
      else
        at == mallocAddr && pos == old(pos) &&
        needed == old(needed) + len && temps == old(temps) + [mallocAddr]
    }

    /** The initial `ensureCache`: no buffer, everything zero. */
    constructor ()
      ensures Valid()
      ensures buffer == 0 && size == 0 && pos == 0 && temps == [] && needed == 0
      ensures released == []
    {
      buffer := 0;
      size := 0;
      pos := 0;
      temps := [];
      needed := 0;
      round := [];
      released := [];
    }

    /** `Module._free(p)`. */
    method Free(p: int)
      modifies this`released
      ensures released == old(released) + [p]
    {
      released := released + [p];
    }

    /**
     * `prepare`, with `mallocAddr` the address `_malloc` returns if it is
     * called. When growth is due it frees every spill and the buffer and
     * grows the size by what the spills needed; with no buffer it grows the
     * size by 128 and allocates one. `ok` is false when `_malloc` returned 0,
     * where the source's assertion throws before resetting the offset.
     * After a successful call the whole previous round fits in the buffer.
     */
    method Prepare(mallocAddr: int) returns (ok: bool)
      requires Valid()
      modifies this
      ensures Valid()
      ensures var grew := old(needed) > 0;
        (grew ==> released == old(released) + old(temps) + [old(buffer)]) &&
        (!grew ==> released == old(released)) &&
        buffer == (if grew || old(buffer) == 0 then mallocAddr else old(buffer)) &&
        size == old(size) + old(needed) + (if grew || old(buffer) == 0 then 128 else 0)
      ensures temps == [] && needed == 0 && round == []
      ensures ok <==> buffer != 0
      ensures pos == (if ok then 0 else old(pos))
      ensures ok ==> Sum(old(round)) < size
    {
      if needed != 0 {
        var i := 0;
        while i < |temps|
          invariant 0 <= i <= |temps|
          invariant released == old(released) + temps[..i]
          modifies this`released
        {
          Free(temps[i]);
          i := i + 1;
        }
        assert temps[..i] == temps;
        temps := [];
        Free(buffer);
        buffer := 0;
        size := size + needed;
        needed := 0;
      }
      round := [];
      if buffer == 0 {
        size := size + 128;
        buffer := mallocAddr;
        if buffer == 0 {
          return false;
        }
      }
      pos := 0;
      return true;
    }

    /**
     * `alloc(array, view)` for an array of `elements` elements, with
     * `mallocAddr` the address `_malloc` returns if it is called. The length
     * is rounded up to 8 bytes. If it fits strictly before the end of the
     * buffer it is carved at the current offset, which moves past it;
     * otherwise it is spilled to a fresh allocation that is remembered and
     * counted towards the next growth. With no buffer the source's assertion
     * throws (`None`) and nothing changes. The spill branch's own assertion,
     * that the length is positive, always holds.
     */
    method Alloc(elements: nat, view: HeapView, mallocAddr: int) returns (ret: Option<int>)
      requires Valid()
      modifies this
      ensures Valid()
      ensures ret.None? <==> old(buffer) == 0
      ensures ret.None? ==> unchanged(this)
      ensures ret.Some? ==> Allocated(RoundUp8(elements * BytesPerElement(view)), ret.value, mallocAddr)
      ensures ret.Some? && old(pos) + RoundUp8(elements * BytesPerElement(view)) < old(size) ==>
        buffer <= ret.value && (ret.value - buffer) % 8 == 0 &&
        ret.value + RoundUp8(elements * BytesPerElement(view)) < buffer + size
    {
      if buffer == 0 {
        return None;
      }
      var len := elements * BytesPerElement(view);
      len := RoundUp8(len);
      round := round + [len];
      assert round[..|round| - 1] == old(round);
      if pos + len >= size {
        assert len > 0;
        needed := needed + len;
        ret := Some(mallocAddr);
        temps := temps + [mallocAddr];
      } else {
        ret := Some(buffer + pos);
        pos := pos + len;
      }
    }
  }

  /**
   * `copy(array, view, offset)`: element i of `values` goes to element
   * `ElementIndex(offset, view) + i` of the view. A typed array ignores a
   * store outside its bounds, so such elements are dropped; every other
   * element of the view keeps its value.
   */
  method Copy(values: seq<int>, view: HeapView, heap: array<int>, offset: int)
    modifies heap
    ensures var start := ElementIndex(offset, view);
      forall i :: 0 <= i < |values| && 0 <= start + i < heap.Length ==> heap[start + i] == values[i]
    ensures var start := ElementIndex(offset, view);
      forall j :: 0 <= j < heap.Length && !(start <= j < start + |values|) ==> heap[j] == old(heap[j])
  {
    var start := ElementIndex(offset, view);
    var i := 0;
    while i < |values|
      invariant 0 <= i <= |values|
      invariant forall k :: 0 <= k < i && 0 <= start + k < heap.Length ==> heap[start + k] == values[k]
      invariant forall j :: 0 <= j < heap.Length && !(start <= j < start + i) ==> heap[j] == old(heap[j])
    {
      if 0 <= start + i < heap.Length {
        heap[start + i] := values[i];
      }
      i := i + 1;
    }
  }

  /** The JavaScript values the staging functions distinguish. */
  datatype JsValue =
    | JsUndefined
    | JsNull
    | JsBool(b: bool)
    | JsNumber(n: int)
    | JsString(s: string)
    | JsArray(elements: seq<int>)
    | JsObject  // a plain object, which has no `length`

  /**
   * The elements `alloc` and `copy` see in an object: an array's own, and
   * none for a plain object, whose `undefined` length rounds to 0 bytes and
   * stops the copy loop at once.
   */
  function ObjectElements(value: JsValue): (elements: seq<int>)
    requires value.JsArray? || value.JsObject?
    ensures value.JsObject? ==> elements == []
    ensures value.JsArray? ==> elements == value.elements
  {
    if value.JsArray? then value.elements else []
  }

  /** `typeof value === 'object'`: arrays, plain objects, and also `null`. */
  predicate IsObject(value: JsValue)
  {
    value.JsArray? || value.JsObject? || value.JsNull?
  }

  /** What a staging function does: return a value, or throw. */
  datatype Outcome = Returned(value: JsValue) | Thrown

  /**
   * `alloc` followed by `copy`: the staged elements, readable at the returned
   * offset, with the arena advanced as `Allocated` says; or the exception of
   * an arena without a buffer, which changes nothing.
   */
  method Stage(cache: EnsureCache, elements: seq<int>, view: HeapView, heap: array<int>, mallocAddr: int)
    returns (r: Outcome)
    requires cache.Valid()
    modifies cache, heap
    ensures cache.Valid()
    ensures r.Thrown? <==> old(cache.buffer) == 0
    ensures r.Thrown? ==> unchanged(cache) && unchanged(heap)
    ensures r.Returned? ==> (r.value.JsNumber? &&
      cache.Allocated(RoundUp8(|elements| * BytesPerElement(view)), r.value.n, mallocAddr))
    ensures r.Returned? && r.value.JsNumber? ==> Holds(heap, ElementIndex(r.value.n, view), elements)
    ensures r.Returned? && r.value.JsNumber? ==> FramedBy(heap, ElementIndex(r.value.n, view), |elements|)
  {
    var offset := cache.Alloc(|elements|, view, mallocAddr);
    if offset.None? {
      return Thrown;
    }
    Copy(elements, view, heap, offset.value);
    return Returned(JsNumber(offset.value));
  }

  /** The view holds `values` from element `start` on, wherever those elements exist. */
  ghost predicate Holds(heap: array<int>, start: int, values: seq<int>)
    reads heap
  {
    forall i :: 0 <= i < |values| && 0 <= start + i < heap.Length ==> heap[start + i] == values[i]
  }

  /** Every element of the view outside the `count` elements from `start` keeps its old value. */
  twostate predicate FramedBy(heap: array<int>, start: int, count: int)
    reads heap
  {
    forall j :: 0 <= j < heap.Length && !(start <= j < start + count) ==> heap[j] == old(heap[j])
  }

  /**
   * `ensureString(value)`, with `encoded` the result of `intArrayFromString`,
   * which is not part of this model. A string is staged through `HEAP8`
   * exactly as `Stage` does and its offset returned; any other value is
   * returned as it is and nothing changes.
   */
  method EnsureString(cache: EnsureCache, value: JsValue, encoded: seq<int>, heap8: array<int>, mallocAddr: int)
    returns (r: Outcome)
    requires cache.Valid()
    modifies cache, heap8
    ensures cache.Valid()
    ensures !value.JsString? ==> r == Returned(value) && unchanged(cache) && unchanged(heap8)
    ensures value.JsString? ==> (r.Thrown? <==> old(cache.buffer) == 0)
    ensures r.Thrown? ==> unchanged(cache) && unchanged(heap8)
    ensures value.JsString? && r.Returned? ==> (r.value.JsNumber? &&
      cache.Allocated(RoundUp8(|encoded|), r.value.n, mallocAddr))
    ensures value.JsString? && r.Returned? && r.value.JsNumber? ==>
      Holds(heap8, r.value.n, encoded) && FramedBy(heap8, r.value.n, |encoded|)
  {
    if value.JsString? {
      r := Stage(cache, encoded, Heap8, heap8, mallocAddr);
      return r;
    }
    return Returned(value);
  }

  /**
   * `ensureInt8`, `ensureInt16`, `ensureInt32`, `ensureFloat32` and
   * `ensureFloat64`, which differ only in the view. An array is staged
   * exactly as `Stage` does and its offset returned; `null`, also of type
   * 'object', throws when its length is read; any other value is returned as
   * it is. Whenever the call throws, nothing changes.
   */
  method EnsureArray(cache: EnsureCache, value: JsValue, view: HeapView, heap: array<int>, mallocAddr: int)
    returns (r: Outcome)
    requires cache.Valid()
    modifies cache, heap
    ensures cache.Valid()
    ensures !IsObject(value) ==> r == Returned(value) && unchanged(cache) && unchanged(heap)
    ensures value.JsNull? ==> r == Thrown
    ensures value.JsArray? || value.JsObject? ==> (r.Thrown? <==> old(cache.buffer) == 0)
    ensures r.Thrown? ==> unchanged(cache) && unchanged(heap)
    ensures value.JsArray? && r.Returned? ==> (r.value.JsNumber? &&
      cache.Allocated(RoundUp8(|value.elements| * BytesPerElement(view)), r.value.n, mallocAddr))
    ensures value.JsArray? && r.Returned? && r.value.JsNumber? ==>
      Holds(heap, ElementIndex(r.value.n, view), value.elements) &&
      FramedBy(heap, ElementIndex(r.value.n, view), |value.elements|)
    ensures value.JsObject? && r.Returned? ==> (
      r == Returned(JsNumber(old(cache.buffer) + old(cache.pos))) &&
      cache.Allocated(0, r.value.n, mallocAddr) && cache.pos == old(cache.pos) &&
      forall j :: 0 <= j < heap.Length ==> heap[j] == old(heap[j]))
  {
    if value.JsNull? {
      return Thrown;
    }
    if value.JsArray? || value.JsObject? {
      r := Stage(cache, ObjectElements(value), view, heap, mallocAddr);
      return r;
    }
    return Returned(value);
  }

  /**
   * Two stagings in one round whose rounded lengths fit in the buffer
   * together are carved back to back: the second starts where the first's
   * rounded length ends, so the two regions do not overlap and the first
   * staging's elements are still in the view after the second.
   */
  method StageTwice(cache: EnsureCache, first: seq<int>, second: seq<int>, view: HeapView, heap: array<int>,
                    mallocAddr1: int, mallocAddr2: int)
    returns (r1: Outcome, r2: Outcome)
    requires cache.Valid() && cache.buffer != 0
    requires cache.pos + RoundUp8(|first| * BytesPerElement(view)) +
             RoundUp8(|second| * BytesPerElement(view)) < cache.size
    modifies cache, heap
    ensures r1 == Returned(JsNumber(old(cache.buffer) + old(cache.pos)))
    ensures r2 == Returned(JsNumber(r1.value.n + RoundUp8(|first| * BytesPerElement(view))))
    ensures Holds(heap, ElementIndex(r1.value.n, view), first)
    ensures Holds(heap, ElementIndex(r2.value.n, view), second)
  {
    r1 := Stage(cache, first, view, heap, mallocAddr1);
    r2 := Stage(cache, second, view, heap, mallocAddr2);
    ElementIndexGap(r1.value.n, RoundUp8(|first| * BytesPerElement(view)), |first|, view);
  }

  /** An offset at least `n` elements' worth of bytes further on has an element index at least `n` further on. */
  lemma ElementIndexGap(offset: int, len: int, n: nat, view: HeapView)
    requires n * BytesPerElement(view) <= len
    ensures ElementIndex(offset, view) + n <= ElementIndex(offset + len, view)
  {
    var b := BytesPerElement(view);
    var i, j := ElementIndex(offset, view), ElementIndex(offset + len, view);
    assert i * b <= offset && offset + len < (j + 1) * b;
    if j < i + n {
      MulMonotone(j + 1, i + n, b);
      assert false;
    }
  }
}
