/** The growable array as the C code has it: an object whose fields push,
    push_n and init update in place, allocated from a shared pool object
    whose bump pointer push, push_n and destroy move. Each method is proved
    to do exactly what the matching step function of ArrayModel describes. */
module NgxArray {
  import opened NgxCore
  import opened NgxPool
  import ArrayModel

  /** A non-null address, where a header struct can live. */
  type HeaderAddress = x: int | x > Null witness 1

  /** An ngx_array_t header at address `at`. */
  class Array<T> {
    const at: HeaderAddress
    var elts: int
    var nelts: nat
    var size: nat
    var nalloc: nat
    var pool: Pool?
    /** Contents of the element buffer, one entry per allocated slot. */
    var buf: seq<Option<T>>

    function State(): ArrayModel.ArrayState<T>
      reads this
    {
      ArrayModel.ArrayState(elts, nelts, size, nalloc, buf)
    }

    ghost predicate Valid()
      reads this, pool
    {
      pool != null && pool.Valid() && State().Valid()
    }

    /** Storage for a header at address `at`, not yet initialised. */
    constructor Storage(at: HeaderAddress)
      ensures this.at == at && pool == null && State() == ArrayModel.ArrayState(Null, 0, 0, 0, [])
    {
      this.at := at;
      elts, nelts, size, nalloc, pool, buf := Null, 0, 0, 0, null, [];
    }

    /** ngx_array_init. */
    method Init(pool: Pool, n: nat, size: nat, where: Placement) returns (rc: Status)
      requires pool.Valid()
      modifies this, pool
      ensures this.pool == pool && pool.Valid()
      ensures ArrayModel.Inited(rc, State(), pool.State()) == ArrayModel.Init(old(pool.State()), n, size, where)
      ensures rc == Ok ==> Valid()
    {
      nelts := 0;
      this.size := size;
      nalloc := n;
      this.pool := pool;
      elts := pool.Palloc(ArrayModel.Bytes(n, size), where);
      if elts == Null {
        buf := [];
        return Error;
      }
      buf := ArrayModel.Indeterminate(n);
      return Ok;
    }

    /** ngx_array_push: returns the index of the new slot, None for NULL. */
    method Push(where: Placement) returns (slot: Option<nat>)
      requires Valid()
      modifies this, pool
      ensures Valid() && pool == old(pool)
      ensures ArrayModel.Pushed(slot, State(), pool.State()) == ArrayModel.Push(old(State()), old(pool.State()), where)
    {
      if nelts == nalloc {
        var bytes := ArrayModel.Bytes(nalloc, size);
        if elts + bytes == pool.last && pool.last + size <= pool.end {
          pool.last := pool.last + size;
          nalloc := nalloc + 1;
          buf := buf + [None];
        } else {
          var m := pool.Palloc(2 * bytes, where);
          if m == Null {
            return None;
          }
          buf := buf + ArrayModel.Indeterminate(nalloc);
          elts := m;
          nalloc := nalloc * 2;
        }
      }
      slot := Some(nelts);
      nelts := nelts + 1;
    }

    /** ngx_array_push_n: returns the index of the first of n new slots, None for NULL. */
    method PushN(n: nat, where: Placement) returns (slot: Option<nat>)
      requires Valid()
      modifies this, pool
      ensures Valid() && pool == old(pool)
      ensures ArrayModel.Pushed(slot, State(), pool.State()) == ArrayModel.PushN(old(State()), old(pool.State()), n, where)
    {
      var bytes := ArrayModel.Bytes(n, size);
      if nelts + n > nalloc {
        if elts + ArrayModel.Bytes(nalloc, size) == pool.last && pool.last + bytes <= pool.end {
          pool.last := pool.last + bytes;
          nalloc := nalloc + n;
          buf := buf + ArrayModel.Indeterminate(n);
        } else {
          var newNalloc := 2 * Max(n, nalloc);
          var m := pool.Palloc(ArrayModel.Bytes(newNalloc, size), where);
          if m == Null {
            return None;
          }
          var kept := Min(nelts, nalloc);
          buf := buf[..kept] + ArrayModel.Indeterminate(newNalloc - kept);
          elts := m;
          nalloc := newNalloc;
        }
      }
      slot := Some(nelts);
      nelts := nelts + n;
    }

    /** ngx_array_destroy: touches only the pool's bump pointer. */
    method Destroy()
      requires Valid()
      modifies pool
      ensures pool.Valid()
      ensures pool.State() == ArrayModel.Destroy(State(), at, old(pool.State()))
    {
      if elts + ArrayModel.Bytes(nalloc, size) == pool.last {
        pool.last := pool.last - ArrayModel.Bytes(nalloc, size);
      }
      if at + ArrayModel.HeaderSize == pool.last {
        pool.last := at;
      }
    }

    /** The caller's `*elt = v` through a slot inside the buffer. */
    method Store(i: nat, v: T)
      requires Valid() && i < nalloc
      modifies this
      ensures Valid()
      ensures State() == ArrayModel.Store(old(State()), i, v)
    {
      buf := buf[i := Some(v)];
    }
  }

  /** ngx_array_create: a header from the pool, then ngx_array_init on it. */
  method Create<T>(p: Pool, n: nat, size: nat, whereHeader: Placement, whereElts: Placement) returns (a: Array?<T>)
    requires p.Valid()
    modifies p
    ensures p.Valid()
    ensures var c := ArrayModel.Create<T>(old(p.State()), n, size, whereHeader, whereElts);
      p.State() == c.pool &&
      (a == null <==> c.NullArray?) &&
      (a != null ==> fresh(a) && a.Valid() && a.pool == p && a.at == c.at && a.State() == c.arr)
  {
    var h := p.Palloc(ArrayModel.HeaderSize, whereHeader);
    if h == Null {
      return null;
    }
    a := new Array<T>.Storage(h);
    var rc := a.Init(p, n, size, whereElts);
    if rc != Ok {
      return null;
    }
  }
}
