/** Properties of the growable array that relate several calls: pushes keep
    what was written in order, create and destroy undo each other, and the
    single-element push agrees with push_n of one element except for the
    zero-capacity case, where push never grows the buffer. */
module ArrayProps {
  import opened NgxCore
  import opened NgxPool
  import opened ArrayModel

  /** `xs` as slot contents. */
  function Written<T>(xs: seq<T>): (r: seq<Option<T>>)
    ensures |r| == |xs|
  {
    seq(|xs|, i requires 0 <= i < |xs| => Some(xs[i]))
  }

  datatype Run<T> = Failed | Done(arr: ArrayState<T>, pool: PoolState)

  /** The callers' pattern `elt = ngx_array_push(a); *elt = x;` for each x of
      `xs` in turn, the i-th push served as `wheres[i]` says. */
  function AppendAll<T>(a: ArrayState<T>, p: PoolState, wheres: seq<Placement>, xs: seq<T>): (r: Run<T>)
    requires a.Valid() && p.Valid() && a.WithinCapacity() && a.nalloc > 0 && |wheres| == |xs|
    // a finished run leaves a well-formed array of the same element size,
    // with |xs| more elements, still within its capacity
    ensures r.Done? ==>
      r.arr.Valid() && r.pool.Valid() && r.arr.WithinCapacity() && r.arr.nalloc > 0 &&
      r.arr.size == a.size && r.arr.nelts == a.nelts + |xs| && r.pool.end == p.end
    decreases |xs|
  {
    if xs == [] then Done(a, p)
    else
      var r := Push(a, p, wheres[0]);
      if r.slot.None? then Failed
      else AppendAll(Store(r.arr, r.slot.value, xs[0]), r.pool, wheres[1..], xs[1..])
  }

  /** Pushing k elements and writing each one leaves exactly those k elements,
      in insertion order, behind the ones already there; the run can only
      fail if the pool is exhausted at some step. */
  lemma {:induction false} AppendAllInOrder<T>(a: ArrayState<T>, p: PoolState, wheres: seq<Placement>, xs: seq<T>)
    requires a.Valid() && p.Valid() && a.WithinCapacity() && a.nalloc > 0 && |wheres| == |xs|
    ensures (forall i :: 0 <= i < |wheres| ==> wheres[i] != Exhausted) ==> AppendAll(a, p, wheres, xs).Done?
    ensures AppendAll(a, p, wheres, xs).Done? ==>
      var b := AppendAll(a, p, wheres, xs).arr;
      b.Used() == a.Used() + Written(xs)
    decreases |xs|
  {
    if xs != [] {
      var r := Push(a, p, wheres[0]);
      if r.slot.Some? {
        var b := Store(r.arr, r.slot.value, xs[0]);
        AppendAllInOrder(b, r.pool, wheres[1..], xs[1..]);
        assert b.Used() == a.Used() + [Some(xs[0])] by {
          assert r.arr.buf[..a.nalloc] == a.buf;
          forall j | 0 <= j < a.nelts
            ensures b.buf[j] == a.buf[j]
          {
            assert r.arr.buf[..a.nalloc][j] == a.buf[j];
          }
        }
        assert Written(xs) == [Some(xs[0])] + Written(xs[1..]);
        assert forall i :: 0 <= i < |wheres[1..]| ==> wheres[1..][i] == wheres[i + 1];
      }
    }
  }

  /** With a zero-slot buffer that is not the pool's tail, push takes the
      reallocation branch, doubles nalloc from 0 to 0 and hands out slot 0,
      which lies outside the buffer: nelts <= nalloc no longer holds. */
  lemma ZeroCapacityPushOverflows<T>(a: ArrayState<T>, p: PoolState, where: Placement)
    requires a.Valid() && p.Valid() && a.nelts == 0 && a.nalloc == 0
    requires !CanGrowInPlace(a, p, a.size) && where != Exhausted
    ensures Push(a, p, where).slot == Some(0)
    ensures Push(a, p, where).arr.nalloc == 0 && !Push(a, p, where).arr.WithinCapacity()
  {
  }

  /** On an array with at least one slot that keeps nelts <= nalloc, push is
      push_n of one element: same slot, same fields, same pool. */
  lemma PushIsPushNOfOne<T>(a: ArrayState<T>, p: PoolState, where: Placement)
    requires a.Valid() && p.Valid() && a.WithinCapacity() && a.nalloc > 0
    ensures Push(a, p, where) == PushN(a, p, 1, where)
  {
    if a.nelts == a.nalloc && !CanGrowInPlace(a, p, a.size) {
      assert a.buf[..Min(a.nelts, a.nalloc)] == a.buf;
    }
  }

  /** For an empty buffer the two disagree: push_n of one element reallocates
      to two slots where push stays at zero. */
  lemma PushDiffersFromPushNOnEmptyBuffer<T>(a: ArrayState<T>, p: PoolState, where: Placement)
    requires a.Valid() && p.Valid() && a.nelts == 0 && a.nalloc == 0
    requires !CanGrowInPlace(a, p, a.size) && where != Exhausted
    ensures Push(a, p, where).arr.nalloc == 0 && PushN(a, p, 1, where).arr.nalloc == 2
  {
  }

  /** Destroying an array right after creating it from the head block gives
      the pool back exactly as it was before the create. */
  lemma CreateThenDestroy<T>(p: PoolState, n: nat, size: nat)
    requires p.Valid() && p.last + HeaderSize + Bytes(n, size) <= p.end
    ensures Create<T>(p, n, size, InHead, InHead).Created?
    ensures var c := Create<T>(p, n, size, InHead, InHead); Destroy(c.arr, c.at, c.pool) == p
  {
  }

  /** While the head block has room for every growth step, a run of appends
      never moves the buffer: it stays the head block's tail and the head's
      bump pointer only advances over it. */
  lemma {:induction false} AppendAllInPlace<T>(a: ArrayState<T>, p: PoolState, wheres: seq<Placement>, xs: seq<T>)
    requires a.Valid() && p.Valid() && a.WithinCapacity() && a.nalloc > 0 && |wheres| == |xs|
    requires IsTail(a, p) && p.last + Bytes(|xs|, a.size) <= p.end
    ensures AppendAll(a, p, wheres, xs).Done?
    ensures var r := AppendAll(a, p, wheres, xs);
      r.arr.elts == a.elts && r.arr.size == a.size && IsTail(r.arr, r.pool) &&
      r.pool.end == p.end && r.pool.beyond == p.beyond
    decreases |xs|
  {
    if xs != [] {
      var r := Push(a, p, wheres[0]);
      assert Bytes(|xs|, a.size) == a.size + Bytes(|xs| - 1, a.size);
      assert r.slot.Some? && r.arr.elts == a.elts && IsTail(r.arr, r.pool) by {
        if a.nelts == a.nalloc {
          assert Bytes(a.nalloc + 1, a.size) == Bytes(a.nalloc, a.size) + a.size;
        }
      }
      var b := Store(r.arr, r.slot.value, xs[0]);
      AppendAllInPlace(b, r.pool, wheres[1..], xs[1..]);
    }
  }

  /** Create an array in the head block, append to it without ever leaving
      the head block, destroy it: the pool is back to where it started. */
  lemma CreateAppendDestroy<T>(p: PoolState, n: nat, size: nat, wheres: seq<Placement>, xs: seq<T>)
    requires p.Valid() && n > 0 && |wheres| == |xs|
    requires p.last + HeaderSize + Bytes(n, size) + Bytes(|xs|, size) <= p.end
    ensures Create<T>(p, n, size, InHead, InHead).Created?
    ensures var c := Create<T>(p, n, size, InHead, InHead);
      var r := AppendAll(c.arr, c.pool, wheres, xs);
      r.Done? && Destroy(r.arr, c.at, r.pool) == p
  {
    var c := Create<T>(p, n, size, InHead, InHead);
    AppendAllInPlace(c.arr, c.pool, wheres, xs);
    var r := AppendAll(c.arr, c.pool, wheres, xs);
    assert r.pool.beyond == c.pool.beyond == p.beyond;
    var q := Destroy(r.arr, c.at, r.pool);
    assert q.last == p.last && q.end == p.end && q.beyond == p.beyond;
  }
}
