/** The C allocator as both sides of the C interface see it: live blocks,
    `malloc` that may fail, and `free`, which may be called only on a live
    block or on the null pointer. */
module Memory {
  datatype Option<+T> = None | Some(value: T)

  type Ptr = nat
  const NULL: Ptr := 0

  datatype Block = Text(text: string) | Bytes(bytes: seq<int>)

  class CHeap {
    var blocks: map<Ptr, Block>
    var next: Ptr
    ghost var failures: nat         // how many mallocs have failed

    ghost predicate Valid()
      reads this
    {
      NULL < next && forall p :: p in blocks ==> NULL < p < next
    }

    constructor ()
      ensures Valid() && blocks == map[] && failures == 0
    {
      blocks := map[];
      next := 1;
      failures := 0;
    }

    /** Since `before`, the block at `p`, when there is one, has been handed
        out and nothing else has changed. */
    ghost predicate Handed(before: map<Ptr, Block>, p: Ptr)
      reads this
    {
      && Valid()
      && (p == NULL ==> blocks == before)
      && (p != NULL ==> p !in before && p in blocks && blocks == before[p := blocks[p]])
    }

    ghost predicate HandedText(before: map<Ptr, Block>, p: Ptr)
      reads this
    {
      Handed(before, p) && (p != NULL ==> blocks[p].Text?)
    }

    method Malloc(block: Block) returns (p: Ptr)
      requires Valid()
      modifies this
      ensures Handed(old(blocks), p)
      ensures p != NULL ==> blocks[p] == block
      ensures failures == old(failures) + (if p == NULL then 1 else 0)
    {
      if * {
        failures := failures + 1;
        return NULL;
      }
      p := next;
      blocks := blocks[p := block];
      next := next + 1;
    }

    /** Freeing anything that is neither null nor live is what the
        precondition excludes: no block is freed twice. */
    method Free(p: Ptr)
      requires Valid()
      requires p == NULL || p in blocks
      modifies this
      ensures Valid()
      ensures blocks == old(blocks) - {p} && failures == old(failures)
    {
      blocks := blocks - {p};
    }

    method SetError(message: string) returns (p: Ptr)
      requires Valid()
      modifies this
      ensures HandedText(old(blocks), p)
      ensures p != NULL ==> blocks[p] == Text(message)
      ensures failures == old(failures) + (if p == NULL then 1 else 0)
    {
      p := Malloc(Text(message));
    }
  }
}
