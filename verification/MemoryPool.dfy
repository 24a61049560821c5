/** `MemoryPool` as an object, over a map of the pointers stored in memory. */
module MemoryPools {
  import opened Slots

  class MemoryPool {
    const g: Geometry
    var currentBlock: int
    var currentSlot: int
    var lastSlot: int
    var freeSlots: int
    var memory: map<int, int>
    ghost var book: Book

    ghost function State(): Pool
      reads this
    {
      Pool(Fields(currentBlock, currentSlot, lastSlot, freeSlots, memory), book)
    }

    ghost predicate Valid()
      reads this
    {
      Compiled(g) && Inv(g, State())
    }

    constructor (geometry: Geometry)
      requires Compiled(geometry)
      ensures Valid() && State() == EMPTY && g == geometry
    {
      g := geometry;
      currentBlock, currentSlot, lastSlot, freeSlots := NULL, NULL, NULL, NULL;
      memory := map[];
      book := EMPTY.book;
      new;
      EmptyInv(g);
    }

    /** A slot from the free list, else the next of the current block, else the first of a new one. */
    method Take(added: int) returns (p: int)
      requires 0 < g.align
      modifies this
      ensures State() == Allocate(g, old(State()), added) && p == Given(g, old(State()), added)
    {
      ghost var after := Allocate(g, State(), added);
      if freeSlots != NULL {
        p := freeSlots;
        freeSlots := Word(memory, freeSlots);
      } else {
        if currentSlot >= lastSlot {
          memory := memory[added := currentBlock];
          currentBlock := added;
          var body := added + HEADER_SIZE;
          var bodyPadding := g.align - body % g.align;
          currentSlot := body + bodyPadding;
          lastSlot := added + g.blockSize - g.slotSize + 1;
        }
        p := currentSlot;
        currentSlot := currentSlot + g.slotSize;
      }
      book := after.book;
    }

    /** The pool stays intact exactly when the slot taken fits in its block. */
    method AllocateSlot(added: int) returns (p: int)
      requires Valid() && NewBlock(g, book, added)
      modifies this
      ensures Valid() <==> TakenFits(g, old(State()), added)
      ensures State() == Allocate(g, old(State()), added) && p == Given(g, old(State()), added)
      ensures Valid() ==> p !in old(book.live) && book.live == old(book.live) + {p}
    {
      AllocateIff(g, State(), added);
      if TakenFits(g, State(), added) {
        GivenIsNew(g, State(), added);
      }
      p := Take(added);
    }

    method DeallocateSlot(p: int)
      requires Valid() && (p == NULL || p in book.live)
      modifies this
      ensures Valid() && State() == Deallocate(old(State()), p)
    {
      DeallocateKeepsInv(g, State(), p);
      ghost var after := Deallocate(State(), p);
      if p != NULL {
        memory := memory[p := freeSlots];
        freeSlots := p;
        book := after.book;
      }
    }

    /** Headers are never null, and each leads to the next block. */
    lemma ValidIsChained()
      requires Valid()
      ensures Linked(memory, currentBlock, book.blocks)
      ensures forall i :: 0 <= i < |book.blocks| ==> book.blocks[i] != NULL
    {
    }

    /** The destructor follows the chain of headers: every block is released once, newest first. */
    method Destroy() returns (released: seq<int>)
      requires Valid()
      ensures released == book.blocks
    {
      ValidIsChained();
      released := [];
      var curr := currentBlock;
      while curr != NULL
        invariant |released| <= |book.blocks| && released == book.blocks[..|released|]
        invariant curr == Next(book.blocks, |released|)
        decreases |book.blocks| - |released|
      {
        var prev := Word(memory, curr);
        released := released + [curr];
        curr := prev;
      }
    }
  }
}
