/** The fixed-size block pools behind the allocators
    (src/interfaces/defs/include/linked_list_node_allocator.h and its siblings):
    a bounded set of live objects. */
module Pools {

  class Pool {
    const capacity: nat
    var live: set<object>

    constructor (capacity: nat)
      ensures this.capacity == capacity && live == {}
    {
      this.capacity := capacity;
      live := {};
    }

    /** An exhausted pool gives nothing, for which the source returns NULL. */
    method Alloc(block: object) returns (ok: bool)
      requires block !in live
      modifies this
      ensures ok <==> |old(live)| < capacity
      ensures live == if ok then old(live) + {block} else old(live)
    {
      ok := |live| < capacity;
      if ok {
        live := live + {block};
      }
    }

    /** Freeing a block that is not allocated fires an assert. */
    method Free(block: object)
      requires block in live
      modifies this
      ensures live == old(live) - {block}
    {
      live := live - {block};
    }
  }
}
