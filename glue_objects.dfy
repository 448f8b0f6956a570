/**
 * The wrapper-object bookkeeping of lib/quirc-glue.js: every bound class
 * keeps a cache from native pointers to the JavaScript objects wrapping
 * them (`__cache__`), `wrapPointer` reuses a cached wrapper or creates and
 * caches one, `destroy` runs a class's native destructor and forgets the
 * wrapper, and `compare` tests two wrappers for the same pointer.
 *
 * A bound class is a `WrapperClass`; `WrapperObject`, the class used when
 * none is given, is passed as `root`. The native destructor is not part of
 * this model: its calls are recorded in the ghost log `destroyed`.
 */
module GlueObjects {

  /** A bound class: whether its prototype has `__destroy__`, and its `__cache__`. */
  class WrapperClass {
    const destroyable: bool
    var cache: map<int, Wrapper>
    /** The pointers passed to the native destructor, in order. */
    ghost var destroyed: seq<int>

    /** Every cached wrapper wraps the pointer it is filed under and belongs to this class. */
    ghost predicate Valid()
      reads this
    {
      forall p :: p in cache ==> cache[p].ptr == p && cache[p].cls == this
    }

    /** A class with an empty cache. */
    constructor (destroyable: bool)
      ensures this.destroyable == destroyable && cache == map[] && destroyed == []
      ensures Valid()
    {
      this.destroyable := destroyable;
      cache := map[];
      destroyed := [];
    }
  }

  /** A wrapper object: its `ptr` and the `__class__` its prototype gives it. */
  class Wrapper {
    const ptr: int
    const cls: WrapperClass

    constructor (ptr: int, cls: WrapperClass)
      ensures this.ptr == ptr && this.cls == cls
    {
      this.ptr := ptr;
      this.cls := cls;
    }
  }

  /** `__class__ || WrapperObject`: the class given, or the root class when none is. */
  function ClassOf(cls: WrapperClass?, root: WrapperClass): (c: WrapperClass)
    ensures cls != null ==> c == cls
    ensures cls == null ==> c == root
  {
    if cls != null then cls else root
  }

  /** `getCache(__class__)`: the cache of the class given, or of the root class. */
  function GetCache(cls: WrapperClass?, root: WrapperClass): (m: map<int, Wrapper>)
    reads ClassOf(cls, root)
    ensures cls != null ==> m == cls.cache
    ensures cls == null ==> m == root.cache
  {
    ClassOf(cls, root).cache
  }

  /**
   * `wrapPointer(ptr, __class__)`: the wrapper already cached for `ptr` in
   * the class, unchanged, or else a new wrapper of that class for `ptr`,
   * which is cached.
   */
  method WrapPointer(ptr: int, cls: WrapperClass?, root: WrapperClass) returns (ret: Wrapper)
    requires ClassOf(cls, root).Valid()
    modifies ClassOf(cls, root)
    ensures ClassOf(cls, root).Valid()
    ensures ret.ptr == ptr && ret.cls == ClassOf(cls, root)
    ensures ptr in old(GetCache(cls, root)) ==>
      ret == old(GetCache(cls, root))[ptr] && GetCache(cls, root) == old(GetCache(cls, root))
    ensures ptr !in old(GetCache(cls, root)) ==>
      fresh(ret) && GetCache(cls, root) == old(GetCache(cls, root))[ptr := ret]
    ensures ClassOf(cls, root).destroyed == old(ClassOf(cls, root).destroyed)
  {
    var c := ClassOf(cls, root);
    if ptr in c.cache {
      return c.cache[ptr];
    }
    ret := new Wrapper(ptr, c);
    c.cache := c.cache[ptr := ret];
  }

  /**
   * `destroy(obj)`: throws when the object's class has no `__destroy__`;
   * otherwise runs the native destructor on the pointer and removes the
   * pointer from the class's cache.
   */
  method Destroy(obj: Wrapper) returns (thrown: bool)
    requires obj.cls.Valid()
    modifies obj.cls
    ensures obj.cls.Valid()
    ensures thrown <==> !obj.cls.destroyable
    ensures thrown ==> obj.cls.cache == old(obj.cls.cache) && obj.cls.destroyed == old(obj.cls.destroyed)
    ensures !thrown ==>
      obj.cls.cache == old(obj.cls.cache) - {obj.ptr} &&
      obj.cls.destroyed == old(obj.cls.destroyed) + [obj.ptr]
  {
    if !obj.cls.destroyable {
      return true;
    }
    obj.cls.destroyed := obj.cls.destroyed + [obj.ptr];
    obj.cls.cache := obj.cls.cache - {obj.ptr};
    return false;
  }

  /** `compare(obj1, obj2)`: whether the two wrap the same pointer. */
  function Compare(a: Wrapper, b: Wrapper): (same: bool)
    ensures same <==> a.ptr == b.ptr
  {
    a.ptr == b.ptr
  }

  /** Wrapping one pointer twice in one class gives one object, which compares equal to itself. */
  method WrapTwice(ptr: int, cls: WrapperClass) returns (first: Wrapper, second: Wrapper)
    requires cls.Valid()
    modifies cls
    ensures first == second && Compare(first, second)
  {
    first := WrapPointer(ptr, cls, cls);
    second := WrapPointer(ptr, cls, cls);
  }

  /** After `destroy`, wrapping the same pointer again creates a new object. */
  method DestroyThenWrap(obj: Wrapper) returns (again: Wrapper)
    requires obj.cls.Valid() && obj.cls.destroyable
    modifies obj.cls
    ensures fresh(again) && again != obj && Compare(again, obj)
  {
    var thrown := Destroy(obj);
    again := WrapPointer(obj.ptr, obj.cls, obj.cls);
  }

  /**
   * Two classes wrapping one pointer (as `castObject` does) give two
   * distinct objects that `compare` still reports equal, while wrappers of
   * different pointers in one class are distinct and compare unequal.
   */
  method CompareByPointer(p: int, q: int, c1: WrapperClass, c2: WrapperClass) returns (a: Wrapper, b: Wrapper, c: Wrapper)
    requires c1 != c2 && c1.Valid() && c2.Valid()
    modifies c1, c2
    ensures a != b && Compare(a, b)
    ensures p != q ==> a != c && !Compare(a, c)
  {
    a := WrapPointer(p, c1, c1);
    b := WrapPointer(p, c2, c2);
    c := WrapPointer(q, c1, c1);
  }
}
