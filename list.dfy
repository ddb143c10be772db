/** The nginx segmented list (ngx_list_t): a chain of parts that share one
    capacity, its initialisation, and the loop that callers use to visit
    every element. Each part's element buffer is an array of `nalloc` slots
    of which the first `nelts` are in use. */
module NgxList {
  import opened NgxCore
  import opened NgxPool

  /** One segment, ngx_list_part_t. */
  class Part<T(0)> {
    var elts: int
    var data: array<T>
    var nelts: nat
    var next: Part?<T>

    /** Storage for a part, not yet initialised. */
    constructor ()
      ensures elts == Null && nelts == 0 && next == null && data.Length == 0
    {
      elts, nelts, next := Null, 0, null;
      data := new T[0];
    }
  }

  /** The elements in use of each part of `parts`, in chain order. */
  ghost function InUse<T(0)>(parts: seq<Part<T>>): seq<T>
    reads set p | p in parts, set p | p in parts :: p.data
    requires forall p | p in parts :: p.nelts <= p.data.Length
  {
    if parts == [] then []
    else InUse(parts[..|parts| - 1]) + parts[|parts| - 1].data[..parts[|parts| - 1].nelts]
  }

  /** The list header, ngx_list_t. `part` is the first part, embedded in the
      header; `Parts` is the chain of parts reached from it through `next`. */
  class List<T(0)> {
    var last: Part<T>
    const part: Part<T>
    var size: nat
    var nalloc: nat
    var pool: Pool?
    ghost var Parts: seq<Part<T>>

    ghost predicate Valid()
      reads this, Parts
    {
      |Parts| >= 1 && Parts[0] == part && last == Parts[|Parts| - 1] && last.next == null &&
      (forall k :: 0 <= k < |Parts| - 1 ==> Parts[k].next == Parts[k + 1]) &&
      (forall k :: 0 <= k < |Parts| ==> Parts[k].nelts <= Parts[k].data.Length == nalloc)
    }

    /** Every part after the first holds at least one element. */
    ghost predicate LaterPartsNonEmpty()
      reads this, Parts
    {
      forall k :: 0 < k < |Parts| ==> Parts[k].nelts > 0
    }

    /** The list's elements: the parts' elements in use, in chain order. */
    ghost function Items(): seq<T>
      reads this, Parts, set p | p in Parts :: p.data
      requires Valid()
    {
      InUse(Parts)
    }

    /** Storage for a list header, not yet initialised. */
    constructor ()
      ensures fresh(part) && last == part && pool == null && Parts == []
    {
      part := new Part();
      last := part;
      size, nalloc, pool := 0, 0, null;
      Parts := [];
    }

    /** ngx_list_init: one first part of n slots of `size` bytes. */
    method Init(pool: Pool, n: nat, size: nat, where: Placement) returns (rc: Status)
      requires pool.Valid()
      modifies this, part, pool
      ensures pool.Valid()
      // the part's buffer is exactly n * size bytes from the pool
      ensures Allocation(part.elts, pool.State()) == Alloc(old(pool.State()), n * size, where)
      ensures rc == Error <==> where == Exhausted
      // on failure only the first part's buffer pointer is written
      ensures rc == Error ==>
        part.elts == Null && last == old(last) && this.size == old(this.size) &&
        nalloc == old(nalloc) && this.pool == old(this.pool) &&
        part.nelts == old(part.nelts) && part.next == old(part.next) && part.data == old(part.data)
      // on success: one empty part, shared element size and capacity recorded
      ensures rc == Ok ==>
        Valid() && Parts == [part] && last == part && part.next == null && part.nelts == 0 &&
        this.size == size && nalloc == n && this.pool == pool &&
        fresh(part.data) && Items() == []
    {
      part.elts := pool.Palloc(n * size, where);
      if part.elts == Null {
        return Error;
      }
      part.data := new T[n];
      part.nelts := 0;
      part.next := null;
      last := part;
      this.size := size;
      nalloc := n;
      this.pool := pool;
      Parts := [part];
      assert Valid();
      assert Parts[..0] == [];
      assert InUse(Parts[..0]) == [];
      assert part.data[..part.nelts] == [];
      assert InUse(Parts) == [];
      return Ok;
    }

    /** The iteration loop documented in ngx_list.h, collecting `data[i]` for
        each step. After moving to the next part it reads slot 0 without
        checking that part's nelts, so it needs every later part non-empty. */
    method Iterate() returns (visited: seq<T>)
      requires Valid() && LaterPartsNonEmpty()
      ensures visited == Items()
    {
      var part := this.part;
      var data := part.data;
      ghost var k := 0;
      visited := [];
      var i := 0;
      while true
        invariant 0 <= k < |Parts| && part == Parts[k] && data == part.data
        invariant k < |Parts| - 1 ==> part.next == Parts[k + 1]
        invariant i <= part.nelts
        invariant visited == InUse(Parts[..k]) + data[..i]
        decreases |Parts| - k, part.nelts - i
      {
        if i >= part.nelts {
          if part.next == null {
            break;
          }
          assert InUse(Parts[..k + 1]) == InUse(Parts[..k]) + data[..i] by {
            assert Parts[..k + 1][..k] == Parts[..k];
          }
          part := part.next;
          data := part.data;
          i := 0;
          k := k + 1;
          assert Parts[k].nelts > 0;
        }
        visited := visited + [data[i]];
        assert data[..i + 1] == data[..i] + [data[i]];
        i := i + 1;
      }
      assert Parts[..k + 1] == Parts;
    }
  }
}
