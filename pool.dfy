/** An abstract model of the nginx memory pool (ngx_pool_t) as far as the
    array and list code depends on it: the head block's bump pointer
    `d.last` and its limit `d.end`, and an allocator that either fails or
    hands out a fresh region. Regions that come from another block of the
    pool are modelled by a second bump pointer, `beyond`, that lies above
    the head block, so they can never be mistaken for the head block's tail. */
module NgxPool {
  import opened NgxCore

  /** Where the allocator satisfies a request. The allocator itself is not
      part of this model, so its choice is an input: it may serve the head
      block (when the request fits there), another block of the pool, or fail. */
  datatype Placement = InHead | InOtherBlock | Exhausted

  datatype PoolState = PoolState(last: int, end: int, beyond: int) {
    /** The head block's free space is [last, end); other blocks lie above end. */
    predicate Valid() { Null < last <= end < beyond }
  }

  datatype Allocation = Allocation(addr: int, pool: PoolState)

  /** One call of the pool allocator for `size` bytes. */
  function Alloc(p: PoolState, size: nat, where: Placement): (r: Allocation)
    requires p.Valid()
    ensures r.pool.Valid() && r.pool.end == p.end
    ensures p.last <= r.pool.last && p.beyond <= r.pool.beyond
    ensures r.addr == Null <==> where == Exhausted
    ensures r.addr == Null ==> r.pool == p
    // a region handed out is fresh: it starts at the old frontier of the block
    // it comes from, and that frontier moves past it by exactly `size`
    ensures r.addr != Null ==>
      (r.addr == p.last && r.pool == p.(last := p.last + size) && r.pool.last <= p.end) ||
      (r.addr == p.beyond && r.pool == p.(beyond := p.beyond + size))
    // a head-block request that fits is served from the head block
    ensures where == InHead && p.last + size <= p.end ==> r.addr == p.last
  {
    match where
    case Exhausted => Allocation(Null, p)
    case InHead =>
      if p.last + size <= p.end then Allocation(p.last, p.(last := p.last + size))
      else Allocation(p.beyond, p.(beyond := p.beyond + size))
    case InOtherBlock => Allocation(p.beyond, p.(beyond := p.beyond + size))
  }

  /** The pool object shared by every array and list allocated from it. */
  class Pool {
    var last: int
    var end: int
    var beyond: int

    function State(): PoolState
      reads this
    {
      PoolState(last, end, beyond)
    }

    ghost predicate Valid()
      reads this
    {
      State().Valid()
    }

    constructor (last: int, end: int, beyond: int)
      requires Null < last <= end < beyond
      ensures Valid() && State() == PoolState(last, end, beyond)
    {
      this.last, this.end, this.beyond := last, end, beyond;
    }

    /** ngx_palloc: returns the address of a fresh region of `size` bytes, or Null. */
    method Palloc(size: nat, where: Placement) returns (m: int)
      requires Valid()
      modifies this
      ensures Valid()
      ensures Allocation(m, State()) == Alloc(old(State()), size, where)
    {
      if where == Exhausted {
        return Null;
      }
      if where == InHead && last + size <= end {
        m := last;
        last := last + size;
      } else {
        m := beyond;
        beyond := beyond + size;
      }
    }
  }
}
