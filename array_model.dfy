/** The nginx growable array (ngx_array_t) as values: one step function per
    operation, taking the array's fields and the pool's state before the call
    to the fields, the pool's state and the returned slot after it. The class
    in module NgxArray is proved to follow these functions step for step. */
module ArrayModel {
  import opened NgxCore
  import opened NgxPool

  /** sizeof(ngx_array_t) on an LP64 target: five 8-byte fields. */
  const HeaderSize: nat := 40

  /** The fields of an ngx_array_t. `buf` holds the contents of the `nalloc`
      slots of the element buffer at `elts`; None stands for bytes whose value
      the array code never wrote or copied (fresh pool memory). */
  datatype ArrayState<T> = ArrayState(elts: int, nelts: nat, size: nat, nalloc: nat, buf: seq<Option<T>>)
  {
    /** An initialised array: a real buffer with one entry per allocated slot. */
    predicate Valid() { elts > Null && |buf| == nalloc }

    /** The invariant the array is meant to keep: no slot past the buffer is in use. */
    predicate WithinCapacity() { nelts <= nalloc }

    /** The elements in use, slots 0 .. nelts-1. */
    function Used(): seq<Option<T>>
      requires Valid() && WithinCapacity()
    {
      buf[..nelts]
    }
  }

  /** The byte length of `count` slots of `size` bytes. */
  function Bytes(count: nat, size: nat): nat
  {
    count * size
  }

  /** The buffer ends exactly at the pool head block's bump pointer, so the
      buffer is the most recent allocation of the head block. */
  predicate IsTail<T>(a: ArrayState<T>, p: PoolState)
  {
    a.elts + Bytes(a.nalloc, a.size) == p.last
  }

  /** The buffer is the head block's tail and `bytes` more bytes fit behind it. */
  predicate CanGrowInPlace<T>(a: ArrayState<T>, p: PoolState, bytes: int)
  {
    IsTail(a, p) && p.last + bytes <= p.end
  }

  /** `k` slots whose contents are unknown. */
  function Indeterminate<T>(k: nat): (r: seq<Option<T>>)
    ensures |r| == k
  {
    seq(k, _ => None)
  }

  // ---------------------------------------------------------------- init

  datatype Inited<T> = Inited(status: Status, arr: ArrayState<T>, pool: PoolState)

  /** ngx_array_init: the fields are written first, then the element buffer
      of n * size bytes is requested from the pool. */
  function Init<T>(p: PoolState, n: nat, size: nat, where: Placement): (r: Inited<T>)
    requires p.Valid()
    // the fields are set before the allocation, so also when it fails
    ensures r.arr.nelts == 0 && r.arr.size == size && r.arr.nalloc == n
    ensures r.status == Ok <==> where != Exhausted
    ensures r.status == Ok ==> r.arr.Valid() && r.arr.WithinCapacity() && r.arr.Used() == []
    ensures r.status == Error ==> r.arr.elts == Null && r.pool == p
    // exactly n * size bytes are requested for the buffer
    ensures r.arr.elts == Alloc(p, Bytes(n, size), where).addr && r.pool == Alloc(p, Bytes(n, size), where).pool
  {
    var m := Alloc(p, Bytes(n, size), where);
    var buf: seq<Option<T>> := if m.addr == Null then [] else Indeterminate(n);
    Inited(if m.addr == Null then Error else Ok, ArrayState(m.addr, 0, size, n, buf), m.pool)
  }

  // -------------------------------------------------------------- create

  datatype Created<T> = NullArray(pool: PoolState) | Created(at: int, arr: ArrayState<T>, pool: PoolState)

  /** ngx_array_create: the header is allocated from the pool, then initialised. */
  function Create<T>(p: PoolState, n: nat, size: nat, whereHeader: Placement, whereElts: Placement): (r: Created<T>)
    requires p.Valid()
    ensures r.pool.Valid() && r.pool.end == p.end && p.last <= r.pool.last
    ensures r.NullArray? <==> whereHeader == Exhausted || whereElts == Exhausted
    ensures r.Created? ==>
      r.at > Null && r.arr.Valid() && r.arr.nelts == 0 && r.arr.size == size && r.arr.nalloc == n
    // a failed header allocation leaves the pool untouched; a failed buffer
    // allocation leaves the header allocated (it is not handed back)
    ensures whereHeader == Exhausted ==> r.pool == p
    ensures whereHeader != Exhausted && whereElts == Exhausted ==>
      r.pool == Alloc(p, HeaderSize, whereHeader).pool
    // both from the head block: header and buffer are adjacent at the old frontier
    ensures whereHeader == InHead && whereElts == InHead && p.last + HeaderSize + Bytes(n, size) <= p.end ==>
      r.Created? && r.at == p.last && r.arr.elts == r.at + HeaderSize &&
      r.pool == p.(last := p.last + HeaderSize + Bytes(n, size))
  {
    var h := Alloc(p, HeaderSize, whereHeader);
    if h.addr == Null then NullArray(p)
    else
      var i := Init<T>(h.pool, n, size, whereElts);
      if i.status != Ok then NullArray(i.pool) else Created(h.addr, i.arr, i.pool)
  }

  // ---------------------------------------------------------------- push

  datatype Pushed<T> = Pushed(slot: Option<nat>, arr: ArrayState<T>, pool: PoolState)

  /** ngx_array_push: make room for one more element and return its slot index
      (the C function returns its address, elts + size * nelts). */
  function Push<T>(a: ArrayState<T>, p: PoolState, where: Placement): (r: Pushed<T>)
    requires a.Valid() && p.Valid()
    ensures r.pool.Valid() && r.pool.end == p.end && p.last <= r.pool.last
    // it fails only when the array is full, cannot grow in place and the pool is exhausted
    ensures r.slot.None? <==> a.nelts == a.nalloc && !CanGrowInPlace(a, p, a.size) && where == Exhausted
    // failure changes nothing
    ensures r.slot.None? ==> r.arr == a && r.pool == p
    // success hands out slot nelts and keeps every old slot's contents
    ensures r.slot.Some? ==>
      r.slot.value == a.nelts && r.arr.Valid() && r.arr.nelts == a.nelts + 1 &&
      r.arr.size == a.size && a.nalloc <= r.arr.nalloc && r.arr.buf[..a.nalloc] == a.buf
    // room to spare: no allocation at all
    ensures a.nelts != a.nalloc ==>
      r.arr.elts == a.elts && r.arr.nalloc == a.nalloc && r.arr.buf == a.buf && r.pool == p
    // full, at the tail and room behind it: grow in place by exactly one slot
    ensures a.nelts == a.nalloc && CanGrowInPlace(a, p, a.size) ==>
      r.arr.elts == a.elts && r.arr.nalloc == a.nalloc + 1 && r.pool == p.(last := p.last + a.size)
    // full otherwise: a new buffer of twice the byte size, twice the slots
    ensures a.nelts == a.nalloc && !CanGrowInPlace(a, p, a.size) && r.slot.Some? ==>
      r.arr.nalloc == 2 * a.nalloc &&
      r.arr.elts == Alloc(p, 2 * Bytes(a.nalloc, a.size), where).addr &&
      r.pool == Alloc(p, 2 * Bytes(a.nalloc, a.size), where).pool
    // nelts <= nalloc is kept, but only for a non-empty buffer
    ensures a.WithinCapacity() && a.nalloc > 0 ==> r.arr.WithinCapacity() && r.arr.nalloc > 0
  {
    if a.nelts == a.nalloc then
      if CanGrowInPlace(a, p, a.size) then
        var grown := a.(nelts := a.nelts + 1, nalloc := a.nalloc + 1, buf := a.buf + [None]);
        Pushed(Some(a.nelts), grown, p.(last := p.last + a.size))
      else
        var m := Alloc(p, 2 * Bytes(a.nalloc, a.size), where);
        if m.addr == Null then Pushed(None, a, p)
        else
          // the whole old buffer (size * nalloc bytes) is copied to the front of the new one
          var moved := a.(elts := m.addr, nelts := a.nelts + 1, nalloc := a.nalloc * 2,
                          buf := a.buf + Indeterminate(a.nalloc));
          Pushed(Some(a.nelts), moved, m.pool)
    else
      Pushed(Some(a.nelts), a.(nelts := a.nelts + 1), p)
  }

  // -------------------------------------------------------------- push_n

  /** ngx_array_push_n: make room for n more elements and return the first slot's index. */
  function PushN<T>(a: ArrayState<T>, p: PoolState, n: nat, where: Placement): (r: Pushed<T>)
    requires a.Valid() && p.Valid()
    ensures r.pool.Valid() && r.pool.end == p.end && p.last <= r.pool.last
    ensures r.slot.None? <==>
      a.nelts + n > a.nalloc && !CanGrowInPlace(a, p, Bytes(n, a.size)) && where == Exhausted
    ensures r.slot.None? ==> r.arr == a && r.pool == p
    ensures r.slot.Some? ==>
      r.slot.value == a.nelts && r.arr.Valid() && r.arr.nelts == a.nelts + n && r.arr.size == a.size
    // the slots in use keep their contents
    ensures r.slot.Some? && a.WithinCapacity() ==>
      a.nelts <= r.arr.nalloc && r.arr.buf[..a.nelts] == a.buf[..a.nelts]
    ensures a.nelts + n <= a.nalloc ==>
      r.arr.elts == a.elts && r.arr.nalloc == a.nalloc && r.arr.buf == a.buf && r.pool == p
    ensures a.nelts + n > a.nalloc && CanGrowInPlace(a, p, Bytes(n, a.size)) ==>
      r.arr.elts == a.elts && r.arr.nalloc == a.nalloc + n && r.pool == p.(last := p.last + Bytes(n, a.size))
    ensures a.nelts + n > a.nalloc && !CanGrowInPlace(a, p, Bytes(n, a.size)) && r.slot.Some? ==>
      r.arr.nalloc == 2 * Max(n, a.nalloc) &&
      r.arr.elts == Alloc(p, Bytes(2 * Max(n, a.nalloc), a.size), where).addr &&
      r.pool == Alloc(p, Bytes(2 * Max(n, a.nalloc), a.size), where).pool
    // nelts <= nalloc is kept for every n and every nalloc, including 0
    ensures a.WithinCapacity() ==> r.arr.WithinCapacity()
  {
    var bytes := Bytes(n, a.size);
    if a.nelts + n > a.nalloc then
      if CanGrowInPlace(a, p, bytes) then
        var grown := a.(nelts := a.nelts + n, nalloc := a.nalloc + n, buf := a.buf + Indeterminate(n));
        Pushed(Some(a.nelts), grown, p.(last := p.last + bytes))
      else
        var nalloc := 2 * Max(n, a.nalloc);
        var m := Alloc(p, Bytes(nalloc, a.size), where);
        if m.addr == Null then Pushed(None, a, p)
        else
          // nelts * size bytes are copied; slots past the old buffer hold nothing known
          var kept := Min(a.nelts, a.nalloc);
          var moved := a.(elts := m.addr, nelts := a.nelts + n, nalloc := nalloc,
                          buf := a.buf[..kept] + Indeterminate(nalloc - kept));
          Pushed(Some(a.nelts), moved, m.pool)
    else
      Pushed(Some(a.nelts), a.(nelts := a.nelts + n), p)
  }

  // ------------------------------------------------------------- destroy

  /** ngx_array_destroy of the array whose header sits at address `at`: only
      the pool's bump pointer can change. */
  function Destroy<T>(a: ArrayState<T>, at: int, p: PoolState): (r: PoolState)
    requires a.Valid() && p.Valid() && at > Null
    ensures r.Valid() && r.end == p.end && r.beyond == p.beyond
    // memory is only ever handed back, never taken
    ensures r.last <= p.last
    // neither the buffer nor the header is the tail: nothing happens
    ensures !IsTail(a, p) && at + HeaderSize != p.last ==> r == p
    // the buffer is the tail: its nalloc * size bytes are handed back ...
    ensures IsTail(a, p) && at + HeaderSize != a.elts ==> r.last == a.elts
    // ... and the header too when it lies right below the buffer
    ensures IsTail(a, p) && at + HeaderSize == a.elts ==> r.last == at
    // only the header is the tail
    ensures !IsTail(a, p) && at + HeaderSize == p.last ==> r.last == at
  {
    var last := if IsTail(a, p) then p.last - Bytes(a.nalloc, a.size) else p.last;
    p.(last := if at + HeaderSize == last then at else last)
  }

  // --------------------------------------------------------------- store

  /** The caller's write `*elt = v` through a slot returned by Push or PushN. */
  function Store<T>(a: ArrayState<T>, i: nat, v: T): (r: ArrayState<T>)
    requires a.Valid() && i < a.nalloc
    ensures r.Valid() && r.elts == a.elts && r.nelts == a.nelts && r.size == a.size && r.nalloc == a.nalloc
    ensures r.buf[i] == Some(v)
    ensures forall j :: 0 <= j < a.nalloc && j != i ==> r.buf[j] == a.buf[j]
  {
    a.(buf := a.buf[i := Some(v)])
  }
}
