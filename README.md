# nginx pool-backed array and segmented list, in Dafny

This project models the two container types at the bottom of nginx's core
library and proves what their code promises:

- **`ngx_array_t`**, a growable array of fixed-size elements allocated from a
  memory pool. It keeps `nelts` used slots out of `nalloc` allocated ones. When
  `ngx_array_push` / `ngx_array_push_n` find it full, it grows in one of two ways:
  - *in place*, when its buffer is the most recent allocation of the pool's head
    block (its end equals `d.last`) and the block has room: `d.last` is bumped;
  - *by reallocation* otherwise: a bigger buffer is taken from the pool and the
    old elements are copied into it.
  `ngx_array_destroy` hands memory back only when the buffer, and then the
  header, are the head block's tail.
- **`ngx_list_t`**, a chain of parts (segments) that all have the same capacity:
  its initialisation and the loop that callers use to visit every element.

The pool allocator (`ngx_palloc`) is not part of this model. It is represented
abstractly:
- addresses are integers, and address 0 is the null pointer;
- the head block has a bump pointer `last` and a limit `end`;
- regions served by other blocks of the pool come from a second bump pointer
  `beyond`, which lies above `end`;
- where a request is served is an input (`Placement`): the head block (if the
  request fits there; otherwise another block), another block, or failure.

## Layout

- `core.dfy` (`NgxCore`): the null address, `Option`, the `Ok`/`Error` status.
- `pool.dfy` (`NgxPool`): pool state, the allocation step `Alloc`, and the
  `Pool` class whose `Palloc` method follows it.
- `array_model.dfy` (`ArrayModel`): the array as values. There is one step
  function per operation (`Init`, `Create`, `Push`, `PushN`, `Destroy`, and
  `Store` for the caller's write through a returned slot). Each one's contract
  states the branch-by-branch behaviour of the C code.
- `array.dfy` (`NgxArray`): the `Array` class. Its fields are those of
  `ngx_array_t`, and its methods update them and the pool in place. Each method
  is proved to produce exactly the state its step function gives.
- `array_props.dfy` (`ArrayProps`): properties that span several calls.
- `list.dfy` (`NgxList`): the `Part` and `List` classes, `Init` and `Iterate`.

Slot contents are kept as `seq<Option<T>>`. `None` marks memory whose value
the array code never wrote or copied. A push returns the slot's index; the C
code returns its address, `elts + size * nelts`.

### Where the code departs from the usual description of these containers

The model follows the code in each of these cases.

- **Growth size of `push_n`.** The array is usually described as growing "to
  the exact demand if larger". The code reallocates to `2 * max(n, nalloc)` slots
  (src/core/ngx_array.c:151).
- **`nelts <= nalloc` is not unconditional.** It is usually stated as an
  invariant. With `nalloc = 0`, the reallocation branch of `ngx_array_push`
  doubles 0 to 0 and still hands out slot 0. `ArrayModel.Push` therefore
  promises the invariant only for `nalloc > 0`. `ArrayProps.ZeroCapacityPushOverflows`
  exhibits the case. `push_n` keeps the invariant for every `n` and `nalloc`.
- **List iteration.** Iteration is usually described as moving to the next
  segment "when exhausted". The documented loop does not re-check `nelts` after moving to the
  next part: it reads slot 0 of that part unconditionally. `NgxList.List.Iterate`
  therefore requires every part after the first to be non-empty.

## Model

| member | source | states |
|---|---|---|
| `NgxPool.Alloc` | src/core/ngx_array.c:95-107 | A pool allocation either fails (Null, pool unchanged) or returns a fresh region. The region starts at the old frontier of the head block or of another block, and that frontier advances by exactly the requested size. `end` never changes. |
| `NgxPool.Pool.Palloc` | src/core/ngx_array.c:97-100 | The pool object's allocation returns the address and new bump pointers that `Alloc` gives. |
| `ArrayModel.Init` | src/core/ngx_array.h:37-56 | `nelts = 0`, `size` and `nalloc = n` are set whether or not the allocation succeeds. Exactly `n * size` bytes are requested. The status is `Ok` iff the allocation succeeded. On failure `elts` is Null and the pool is unchanged. On success the array is well-formed and empty. |
| `NgxArray.Array.Init` | src/core/ngx_array.h:37-56 | Writes the fields of caller-supplied storage and the pool exactly as `ArrayModel.Init` describes, and records the pool. |
| `NgxArray.Array.Storage` | src/core/ngx_array.h:22-28 | An `ngx_array_t` header at a non-null address, before initialisation. |
| `ArrayModel.Create` | src/core/ngx_array.c:17-32 | The result is NULL iff the header allocation or the buffer allocation fails. Otherwise the array has `nelts = 0`, `nalloc = n`, the given `size`, and a non-null header. A failed header allocation leaves the pool untouched. A failed buffer allocation keeps the header's bytes. When both allocations come from the head block, the buffer directly follows the header. |
| `NgxArray.Create` | src/core/ngx_array.c:17-32 | Returns null exactly when `ArrayModel.Create` does. Otherwise it returns a fresh, well-formed array whose fields, header address and pool are those that `ArrayModel.Create` gives. |
| `ArrayModel.Push` | src/core/ngx_array.c:62-116 | Fails only if the array is full, cannot grow in place and the pool is exhausted; failure changes nothing. Success returns slot `nelts` and increments `nelts` by 1. Size and all old slot contents are kept. With spare room there is no allocation and `elts`, `nalloc` and the pool are unchanged. Full at the tail with room: `nalloc + 1` and `last + size`, buffer not moved. Otherwise a `2 * size * nalloc`-byte buffer is allocated and `nalloc` is doubled. `nelts <= nalloc` is preserved when `nalloc > 0`. |
| `NgxArray.Array.Push` | src/core/ngx_array.c:62-116 | Updates the fields, contents and pool in place exactly as `ArrayModel.Push` describes, and returns its slot. |
| `ArrayModel.PushN` | src/core/ngx_array.c:121-168 | Fails only if the n slots do not fit, the buffer cannot grow in place by `n * size` bytes and the pool is exhausted; failure changes nothing. Success returns slot `nelts` and adds `n` to `nelts`; the used slots keep their contents. Growth in place adds exactly `n` slots and `n * size` bytes. Reallocation gives `2 * max(n, nalloc)` slots. `nelts <= nalloc` is preserved for every `n`. |
| `NgxArray.Array.PushN` | src/core/ngx_array.c:121-168 | Updates the fields, contents and pool in place exactly as `ArrayModel.PushN` describes, and returns its slot. |
| `ArrayModel.Destroy` | src/core/ngx_array.c:38-57 | Only the pool's `last` can change, and it never rises. The buffer's bytes are handed back iff the buffer is the tail. The header is handed back too when it is then the tail. If neither is the tail, the pool is unchanged. |
| `NgxArray.Array.Destroy` | src/core/ngx_array.c:38-57 | Modifies only the pool, which ends in the state `ArrayModel.Destroy` gives; the array's fields are untouched. |
| `ArrayModel.Store` | src/core/ngx_array.c:111-115 | Writing through a returned slot sets that slot and no other; the layout fields are unchanged. |
| `NgxArray.Array.Store` | src/core/ngx_array.c:111-115 | Writes one slot of the buffer in place as `ArrayModel.Store` describes. |
| `ArrayProps.AppendAll` | src/core/ngx_array.c:62-116 | A run of push-then-write steps that completes leaves a well-formed array within capacity. It has the same element size and exactly one more element per step. |
| `ArrayProps.AppendAllInOrder` | src/core/ngx_array.c:94-115 | After k successful push-and-write steps, the used slots are the old ones followed by the k written values in order. The run cannot fail unless some allocation reports exhaustion. |
| `ArrayProps.ZeroCapacityPushOverflows` | src/core/ngx_array.c:94-113 | With `nalloc = 0` and no in-place growth, a successful push returns slot 0 while `nalloc` stays 0, so `nelts > nalloc`. |
| `ArrayProps.PushIsPushNOfOne` | src/core/ngx_array.c:62-168 | For arrays with `0 < nalloc` and `nelts <= nalloc`, `push` and `push_n(1)` give the same slot, fields and pool. |
| `ArrayProps.PushDiffersFromPushNOnEmptyBuffer` | src/core/ngx_array.c:104-151 | On a zero-slot buffer that cannot grow in place, `push` leaves `nalloc` at 0, where `push_n(1)` reallocates to 2. |
| `ArrayProps.CreateThenDestroy` | src/core/ngx_array.c:17-57 | Creating an array from the head block and destroying it right away restores the pool exactly. |
| `ArrayProps.AppendAllInPlace` | src/core/ngx_array.c:83-92 | While the head block has room for every growth step, pushes never move the buffer, which stays the pool's tail. |
| `ArrayProps.CreateAppendDestroy` | src/core/ngx_array.c:17-116 | Create in the head block, append k elements that fit there, destroy: the pool is back to its state before the create. |
| `NgxList.Part.constructor` | src/core/ngx_list.h:20-24 | A list part before initialisation: null buffer, no elements, no successor. |
| `NgxList.List.constructor` | src/core/ngx_list.h:27-33 | A list header whose first part is embedded (fresh) and is also `last`. |
| `NgxList.List.Init` | src/core/ngx_list.h:38-54 | Allocates exactly `n * size` bytes for the first part. Returns `Error` iff that allocation fails; then only the part's buffer pointer is written (Null). On `Ok` the chain is the one empty part, `next` is null, `last` is that part, `size` and `nalloc = n` are recorded, and the list has no elements. |
| `NgxList.List.Iterate` | src/core/ngx_list.h:57-79 | The documented loop visits exactly the concatenation of every part's used elements, in chain order. It needs every part after the first to be non-empty. |

## Left out

- The wildcard hash table (src/core/ngx_hash.h): only its records and prototypes
  are visible; the algorithms live in ngx_hash.c, which is not part of this
  model. The same goes for the `ngx_hash` step macro.
- `ngx_list_push` and `ngx_list_create`: only declared, their bodies are not part
  of this model, so lists are not grown beyond `Init`. `Iterate` is stated for any
  chain that satisfies the list invariant.
- `ngx_palloc` itself: alignment of returned addresses, the walk over the
  pool's block chain, large allocations and `ngx_pfree`. Its choice is an
  input, and a head-block request that does not fit is served by another block.
- Machine integer widths: `size_t` and `ngx_uint_t` arithmetic (`n * size`,
  `2 * size`, `nelts + n`) is unbounded here; wrap-around is not modelled.
- Byte-level copying and raw pointers: `ngx_memcpy` is a sequence copy of whole
  slots, and slots are indices rather than addresses.
- Memory outside an array's buffer: a write through a slot at or past `nalloc`
  (possible after the zero-capacity case) is not modelled. `Store` requires the
  slot to lie inside the buffer.
- ArrayModel.PushN: promises that used slots keep their contents only for
  arrays with `nelts <= nalloc`. For other arrays the copy reads past the old
  buffer, whose bytes are not modelled.
- Aliasing after `destroy`: the array object stays readable after its memory is
  handed back, and reuse of that memory by later allocations is not tracked.
- `ngx_table_elt_t` and the other records with no behaviour in the modelled
  files.
