/** The memory pool: slots bumped out of blocks and recycled through pointers stored in free slots. */
module Slots {

  const HEADER_SIZE := 8
  const NULL := 0

  /** Sizes fixed by the element type and the block size parameter. */
  datatype Geometry = Geometry(blockSize: int, slotSize: int, align: int)

  /** What the compiler guarantees of a slot, and the pool's static assertion. */
  predicate Compiled(g: Geometry) {
    && 0 < g.align && HEADER_SIZE <= g.slotSize && g.slotSize % g.align == 0
    && 2 * g.slotSize <= g.blockSize
  }

  /** The distance from the header's end to the first slot: between one byte and a whole alignment. */
  function Padding(g: Geometry, block: int): int
    requires 0 < g.align
  {
    g.align - (block + HEADER_SIZE) % g.align
  }

  function FirstSlot(g: Geometry, block: int): int
    requires 0 < g.align
  {
    block + HEADER_SIZE + Padding(g, block)
  }

  /** One alignment divides the other, as powers of two do. `unit` is that of the memory `operator new` gives. */
  predicate Comparable(g: Geometry, unit: int)
    requires 0 < g.align && 0 < unit
  {
    unit % g.align == 0 || g.align % unit == 0
  }

  /** The largest padding over the blocks of the allocator: what the header leaves over, up to an alignment. */
  function WorstPadding(g: Geometry, unit: int): int
    requires 0 < g.align && 0 < unit
  {
    g.align - HEADER_SIZE % (if unit < g.align then unit else g.align)
  }

  /** What the first slot of a block needs besides. */
  predicate Roomy(g: Geometry, unit: int)
    requires 0 < unit
  {
    Compiled(g) && HEADER_SIZE + WorstPadding(g, unit) + g.slotSize <= g.blockSize
  }

  /** The pool's fields and the pointers stored in memory. */
  datatype Fields = Fields(block: int, slot: int, last: int, head: int, memory: map<int, int>)

  /** The block of every slot carved so far, the slots in use, the free list, and the blocks, newest first. */
  datatype Book = Book(home: map<int, int>, live: set<int>, free: seq<int>, blocks: seq<int>)

  datatype Pool = Pool(fields: Fields, book: Book)

  const EMPTY := Pool(Fields(NULL, NULL, NULL, NULL, map[]), Book(map[], {}, [], []))

  function Word(memory: map<int, int>, a: int): int {
    if a in memory then memory[a] else NULL
  }

  predicate NeedsBlock(f: Fields) {
    f.slot >= f.last
  }

  /** Take the first free slot. */
  function Reuse(s: Pool): Pool {
    var b := s.book;
    Pool(s.fields.(head := Word(s.fields.memory, s.fields.head)),
         b.(live := b.live + {s.fields.head}, free := if b.free == [] then [] else b.free[1..]))
  }

  /** A new block is chained to the previous one; its first slot comes next, unchecked. */
  function Grow(g: Geometry, s: Pool, added: int): Pool
    requires 0 < g.align
  {
    var f := s.fields;
    Pool(Fields(added, FirstSlot(g, added), added + g.blockSize - g.slotSize + 1, f.head, f.memory[added := f.block]),
         s.book.(blocks := [added] + s.book.blocks))
  }

  /** Take the next slot of the current block. */
  function Carve(g: Geometry, s: Pool): Pool {
    var f, b := s.fields, s.book;
    Pool(f.(slot := f.slot + g.slotSize), b.(home := b.home[f.slot := f.block], live := b.live + {f.slot}))
  }

  /** `added` is the address of the new block, should one be needed. */
  function Allocate(g: Geometry, s: Pool, added: int): Pool
    requires 0 < g.align
  {
    if s.fields.head != NULL then Reuse(s) else Carve(g, if NeedsBlock(s.fields) then Grow(g, s, added) else s)
  }

  /** The slot handed out. */
  function Given(g: Geometry, s: Pool, added: int): int
    requires 0 < g.align
  {
    if s.fields.head != NULL then s.fields.head
    else if NeedsBlock(s.fields) then FirstSlot(g, added) else s.fields.slot
  }

  /** The freed slot itself holds the pointer to the rest of the free list. */
  function Deallocate(s: Pool, p: int): Pool {
    if p == NULL then s
    else Pool(s.fields.(head := p, memory := s.fields.memory[p := s.fields.head]),
              s.book.(live := s.book.live - {p}, free := [p] + s.book.free))
  }

  /** The owner of a slot in use may store anything there. */
  function Store(s: Pool, p: int, word: int): Pool {
    s.(fields := s.fields.(memory := s.fields.memory[p := word]))
  }

  // ---------- Invariant ----------

  predicate Apart(p: int, q: int, size: int) {
    p + size <= q || q + size <= p
  }

  /** Every carved slot is aligned and lies in its block, past the header. */
  ghost predicate Placed(g: Geometry, b: Book) {
    forall p :: p in b.home ==>
      0 < g.align && p % g.align == 0 && b.home[p] + HEADER_SIZE <= p && p + g.slotSize <= b.home[p] + g.blockSize
  }

  ghost predicate Owned(b: Book) {
    forall p :: p in b.home ==> b.home[p] in b.blocks
  }

  ghost predicate SlotsApart(g: Geometry, b: Book) {
    forall p, q :: p in b.home && q in b.home && p != q ==> Apart(p, q, g.slotSize)
  }

  ghost predicate BlocksApart(g: Geometry, b: Book) {
    && (forall i :: 0 <= i < |b.blocks| ==> 0 < b.blocks[i])
    && (forall i, j :: 0 <= i < j < |b.blocks| ==> Apart(b.blocks[i], b.blocks[j], g.blockSize))
  }

  /** The bump pointer is aligned and past every slot carved from the current block. */
  ghost predicate Bump(g: Geometry, s: Pool) {
    var f := s.fields;
    if s.book.blocks == [] then f.block == NULL && f.slot == NULL && f.last == NULL
    else
      && f.block == s.book.blocks[0] && f.last == f.block + g.blockSize - g.slotSize + 1
      && 0 < g.align && f.slot % g.align == 0 && f.block + HEADER_SIZE <= f.slot
      && forall p :: p in s.book.home && s.book.home[p] == f.block ==> p + g.slotSize <= f.slot
  }

  /** Carved slots are in use or free, never both. */
  ghost predicate Partition(b: Book) {
    && (forall p :: p in b.live ==> p in b.home)
    && (forall i :: 0 <= i < |b.free| ==> b.free[i] in b.home && b.free[i] !in b.live)
    && (forall i, j :: 0 <= i < j < |b.free| ==> b.free[i] != b.free[j])
    && |b.live| + |b.free| == |b.home.Keys|
  }

  function Next(list: seq<int>, i: nat): int {
    if i < |list| then list[i] else NULL
  }

  /** A list whose every element stores the address of the next. */
  ghost predicate Linked(memory: map<int, int>, head: int, list: seq<int>) {
    && head == Next(list, 0)
    && forall i :: 0 <= i < |list| ==> Word(memory, list[i]) == Next(list, i + 1)
  }

  ghost predicate Inv(g: Geometry, s: Pool) {
    && Placed(g, s.book) && Owned(s.book) && SlotsApart(g, s.book) && BlocksApart(g, s.book)
    && Bump(g, s) && Partition(s.book)
    && Linked(s.fields.memory, s.fields.head, s.book.free)
    && Linked(s.fields.memory, s.fields.block, s.book.blocks)
  }

  // ---------- Every operation keeps the invariant ----------

  lemma LinkedStore(memory: map<int, int>, head: int, list: seq<int>, p: int, word: int)
    requires Linked(memory, head, list) && forall i :: 0 <= i < |list| ==> list[i] != p
    ensures Linked(memory[p := word], head, list)
  {
  }

  lemma LinkedPush(memory: map<int, int>, head: int, list: seq<int>, p: int)
    requires Linked(memory, head, list) && forall i :: 0 <= i < |list| ==> list[i] != p
    ensures Linked(memory[p := head], p, [p] + list)
  {
    LinkedStore(memory, head, list, p, head);
    var longer := [p] + list;
    assert forall i :: 0 < i < |longer| ==> longer[i] == list[i - 1] && Next(longer, i + 1) == Next(list, i);
  }

  lemma LinkedPop(memory: map<int, int>, head: int, list: seq<int>)
    requires Linked(memory, head, list) && list != []
    ensures Linked(memory, Word(memory, head), list[1..])
  {
    var rest := list[1..];
    forall i | 0 <= i < |rest|
      ensures Word(memory, rest[i]) == Next(rest, i + 1)
    {
      assert rest[i] == list[i + 1] && Next(list, i + 2) == Next(rest, i + 1);
    }
  }

  /** A slot is never the header of a block. */
  lemma NoSlotIsHeader(g: Geometry, b: Book, p: int, i: nat)
    requires Compiled(g) && Placed(g, b) && Owned(b) && BlocksApart(g, b) && p in b.home && i < |b.blocks|
    ensures p != b.blocks[i] && 0 < p
  {
    var j :| 0 <= j < |b.blocks| && b.blocks[j] == b.home[p];
    assert i == j || Apart(b.blocks[if i < j then i else j], b.blocks[if i < j then j else i], g.blockSize);
  }

  lemma FreeIsPositive(g: Geometry, s: Pool)
    requires Compiled(g) && Inv(g, s)
    ensures (s.fields.head == NULL) == (s.book.free == [])
  {
    if s.book.free != [] {
      assert s.book.free[0] in s.book.home;
      assert s.book.home[s.book.free[0]] in s.book.blocks;
    }
  }

  lemma ReusePartition(b: Book)
    requires Partition(b) && b.free != []
    ensures Partition(b.(live := b.live + {b.free[0]}, free := b.free[1..]))
  {
    assert |b.live + {b.free[0]}| == |b.live| + 1;
  }

  lemma ReuseKeepsInv(g: Geometry, s: Pool)
    requires Compiled(g) && Inv(g, s) && s.fields.head != NULL
    ensures Inv(g, Reuse(s)) && s.book.free != []
  {
    ReusePartition(s.book);
    LinkedPop(s.fields.memory, s.fields.head, s.book.free);
  }

  ghost predicate NewBlock(g: Geometry, b: Book, added: int) {
    0 < added && forall i :: 0 <= i < |b.blocks| ==> Apart(b.blocks[i], added, g.blockSize)
  }

  lemma FirstSlotPlace(g: Geometry, block: int)
    requires 0 < g.align
    ensures 1 <= Padding(g, block) <= g.align && FirstSlot(g, block) % g.align == 0
  {
    var q := (block + HEADER_SIZE) / g.align;
    assert block + HEADER_SIZE == q * g.align + (block + HEADER_SIZE) % g.align;
    assert FirstSlot(g, block) == (q + 1) * g.align;
    MultipleOf(q + 1, g.align);
  }

  lemma MultipleOf(k: int, n: int)
    requires 0 < n
    ensures k * n % n == 0
  {
    var q, r := k * n / n, k * n % n;
    assert k * n == q * n + r;
    assert (k - q) * n == r;
    assert k - q <= -1 || k == q || 1 <= k - q;
  }

  lemma GrowBlocks(g: Geometry, s: Pool, added: int)
    requires Compiled(g) && Inv(g, s) && NewBlock(g, s.book, added)
    ensures var t := Grow(g, s, added);
      BlocksApart(g, t.book) && Owned(t.book) && Linked(t.fields.memory, t.fields.block, t.book.blocks)
  {
    var t := Grow(g, s, added);
    assert forall i :: 0 <= i < |s.book.blocks| ==> s.book.blocks[i] == t.book.blocks[i + 1];
    assert forall i :: 0 <= i < |s.book.blocks| ==> s.book.blocks[i] != added by {
      assert forall i :: 0 <= i < |s.book.blocks| ==> Apart(s.book.blocks[i], added, g.blockSize);
    }
    LinkedPush(s.fields.memory, s.fields.block, s.book.blocks, added);
  }

  lemma GrowFree(g: Geometry, s: Pool, added: int)
    requires Compiled(g) && Inv(g, s) && NewBlock(g, s.book, added)
    ensures Linked(Grow(g, s, added).fields.memory, s.fields.head, s.book.free)
  {
    forall i | 0 <= i < |s.book.free|
      ensures s.book.free[i] != added
    {
      OldSlotOutside(g, s.book, s.book.free[i], added);
    }
    LinkedStore(s.fields.memory, s.fields.head, s.book.free, added, s.fields.block);
  }

  /** Slots carved earlier lie outside a new block. */
  lemma OldSlotOutside(g: Geometry, b: Book, p: int, added: int)
    requires Compiled(g) && Placed(g, b) && Owned(b) && p in b.home && NewBlock(g, b, added)
    ensures b.home[p] != added && (p + g.slotSize <= added || added + g.blockSize <= p)
  {
    var j :| 0 <= j < |b.blocks| && b.blocks[j] == b.home[p];
    assert Apart(b.blocks[j], added, g.blockSize);
  }

  lemma GrowKeepsInv(g: Geometry, s: Pool, added: int)
    requires Compiled(g) && Inv(g, s) && NewBlock(g, s.book, added)
    ensures Inv(g, Grow(g, s, added))
  {
    GrowBlocks(g, s, added);
    GrowFree(g, s, added);
    FirstSlotPlace(g, added);
    forall p | p in s.book.home
      ensures s.book.home[p] != added
    {
      OldSlotOutside(g, s.book, p, added);
    }
  }

  /** There is room for the next slot in the current block. */
  ghost predicate Fits(g: Geometry, s: Pool) {
    s.book.blocks != [] && s.fields.slot + g.slotSize <= s.fields.block + g.blockSize
  }

  lemma NextSlotApart(g: Geometry, s: Pool, p: int)
    requires Compiled(g) && Inv(g, s) && Fits(g, s) && p in s.book.home
    ensures p + g.slotSize <= s.fields.slot || s.fields.slot + g.slotSize <= p
  {
    var b := s.book;
    if b.home[p] != s.fields.block {
      var j :| 0 <= j < |b.blocks| && b.blocks[j] == b.home[p];
      assert Apart(b.blocks[0], b.blocks[j], g.blockSize);
    }
  }

  lemma NextAligned(g: Geometry, p: int)
    requires Compiled(g) && p % g.align == 0
    ensures (p + g.slotSize) % g.align == 0
  {
    var a, b := p / g.align, g.slotSize / g.align;
    assert p + g.slotSize == (a + b) * g.align;
    MultipleOf(a + b, g.align);
  }

  lemma CarvePartition(b: Book, p: int, block: int)
    requires Partition(b) && p !in b.home
    ensures Partition(b.(home := b.home[p := block], live := b.live + {p}))
  {
    assert |b.live + {p}| == |b.live| + 1;
    assert b.home[p := block].Keys == b.home.Keys + {p};
  }

  lemma CarveApart(g: Geometry, s: Pool)
    requires Compiled(g) && Inv(g, s) && Fits(g, s)
    ensures s.fields.slot !in s.book.home && SlotsApart(g, Carve(g, s).book)
  {
    var p := s.fields.slot;
    forall q | q in s.book.home
      ensures q + g.slotSize <= p || p + g.slotSize <= q
    {
      NextSlotApart(g, s, q);
    }
  }

  lemma CarveKeepsInv(g: Geometry, s: Pool)
    requires Compiled(g) && Inv(g, s) && Fits(g, s)
    ensures Inv(g, Carve(g, s)) && s.fields.slot !in s.book.home
  {
    CarveApart(g, s);
    CarvePartition(s.book, s.fields.slot, s.fields.block);
    NextAligned(g, s.fields.slot);
    assert s.book.blocks[0] in s.book.blocks;
  }

  /** Either no block is needed, or the first slot of the new block ends within it. */
  predicate TakenFits(g: Geometry, s: Pool, added: int)
    requires 0 < g.align
  {
    s.fields.head == NULL && NeedsBlock(s.fields) ==> FirstSlot(g, added) + g.slotSize <= added + g.blockSize
  }

  /** The residue of the first address past the header never falls below that of the header itself. */
  lemma PaddingAtMost(g: Geometry, unit: int, block: int)
    requires 0 < g.align && 0 < unit && Comparable(g, unit) && block % unit == 0
    ensures Padding(g, block) <= WorstPadding(g, unit)
  {
    var m := if unit < g.align then unit else g.align;
    CommonDivisor(g, unit, block);
    ResidueAtLeast(block + HEADER_SIZE, g.align, m);
    SameResidue(block, m);
  }

  /** The smaller alignment divides the block's address and the larger alignment. */
  lemma CommonDivisor(g: Geometry, unit: int, block: int)
    requires 0 < g.align && 0 < unit && Comparable(g, unit) && block % unit == 0
    ensures var m := if unit < g.align then unit else g.align; block % m == 0 && g.align % m == 0
  {
    if g.align <= unit {
      if unit % g.align != 0 {
        assert g.align % unit == 0 && g.align < unit;
        SmallModulus(g.align, unit);
      }
      var a, b := block / unit, unit / g.align;
      assert block == a * b * g.align;
      MultipleOf(a * b, g.align);
    } else if g.align % unit != 0 {
      SmallModulus(unit, g.align);
    }
  }

  /** A residue modulo a multiple of `m` is no less than that modulo `m`. */
  lemma ResidueAtLeast(x: int, n: int, m: int)
    requires 0 < m && 0 < n && n % m == 0
    ensures x % m <= x % n
  {
    var q, k := x / n, n / m;
    var r := x % n;
    assert x == q * n + r && n == k * m;
    assert x == r + (q * k) * m;
    AddMultiple(r, q * k, m);
    AtMost(r, m);
  }

  lemma AddMultiple(r: int, k: int, m: int)
    requires 0 < m
    ensures (r + k * m) % m == r % m
  {
    var x := r + k * m;
    var a, b, p, q := r / m, x / m, r % m, x % m;
    assert r == a * m + p && x == b * m + q;
    Distribute(a, k, b, m);
    OnlyZero(b - (a + k), m);
  }

  lemma Distribute(a: int, k: int, b: int, m: int)
    ensures (b - (a + k)) * m == b * m - a * m - k * m
  {
  }

  lemma OnlyZero(d: int, m: int)
    requires 0 < m && -m < d * m < m
    ensures d == 0
  {
    assert 1 <= d ==> m <= d * m;
    assert d <= -1 ==> d * m <= -m;
  }

  lemma AtMost(r: int, m: int)
    requires 0 < m && 0 <= r
    ensures r % m <= r
  {
    if r < m {
      SmallModulus(r, m);
    }
  }

  lemma SmallModulus(r: int, m: int)
    requires 0 <= r < m
    ensures r % m == r
  {
  }

  lemma SameResidue(block: int, m: int)
    requires 0 < m && block % m == 0
    ensures (block + HEADER_SIZE) % m == HEADER_SIZE % m
  {
    var k := block / m;
    assert block == k * m;
    AddMultiple(HEADER_SIZE, k, m);
  }

  lemma RoomyFits(g: Geometry, s: Pool, added: int, unit: int)
    requires 0 < unit && Roomy(g, unit) && Comparable(g, unit) && added % unit == 0
    ensures TakenFits(g, s, added)
  {
    PaddingAtMost(g, unit, added);
  }

  lemma AllocateKeepsInv(g: Geometry, s: Pool, added: int)
    requires Compiled(g) && Inv(g, s) && NewBlock(g, s.book, added) && TakenFits(g, s, added)
    ensures Inv(g, Allocate(g, s, added))
  {
    if s.fields.head != NULL {
      ReuseKeepsInv(g, s);
    } else if NeedsBlock(s.fields) {
      GrowKeepsInv(g, s, added);
      CarveKeepsInv(g, Grow(g, s, added));
    } else {
      CarveKeepsInv(g, s);
    }
  }

  /** Whatever the geometry, an allocation leaves the pool intact exactly when the slot it takes fits. */
  lemma AllocateIff(g: Geometry, s: Pool, added: int)
    requires Compiled(g) && Inv(g, s) && NewBlock(g, s.book, added)
    ensures Inv(g, Allocate(g, s, added)) <==> TakenFits(g, s, added)
  {
    if TakenFits(g, s, added) {
      AllocateKeepsInv(g, s, added);
    } else {
      var b := Allocate(g, s, added).book;
      assert FirstSlot(g, added) in b.home && b.home[FirstSlot(g, added)] == added;
    }
  }

  lemma DeallocateKeepsInv(g: Geometry, s: Pool, p: int)
    requires Compiled(g) && Inv(g, s) && (p == NULL || p in s.book.live)
    ensures Inv(g, Deallocate(s, p))
  {
    if p != NULL {
      var b := s.book;
      forall i | 0 <= i < |b.blocks|
        ensures b.blocks[i] != p
      {
        NoSlotIsHeader(g, b, p, i);
      }
      LinkedPush(s.fields.memory, s.fields.head, b.free, p);
      LinkedStore(s.fields.memory, s.fields.block, b.blocks, p, s.fields.head);
      assert |b.live - {p}| == |b.live| - 1;
    }
  }

  lemma StoreKeepsInv(g: Geometry, s: Pool, p: int, word: int)
    requires Compiled(g) && Inv(g, s) && p in s.book.live
    ensures Inv(g, Store(s, p, word))
  {
    var b := s.book;
    forall i | 0 <= i < |b.blocks|
      ensures b.blocks[i] != p
    {
      NoSlotIsHeader(g, b, p, i);
    }
    LinkedStore(s.fields.memory, s.fields.head, b.free, p, word);
    LinkedStore(s.fields.memory, s.fields.block, b.blocks, p, word);
  }

  // ---------- Runs ----------

  datatype Op = Alloc(added: int) | Free(p: int) | Write(p: int, word: int)

  function Apply(g: Geometry, s: Pool, op: Op): Pool
    requires 0 < g.align
  {
    match op
    case Alloc(added) => Allocate(g, s, added)
    case Free(p) => Deallocate(s, p)
    case Write(p, word) => Store(s, p, word)
  }

  /** New memory lies outside the old; only slots in use are freed or written. */
  ghost predicate Legal(g: Geometry, s: Pool, op: Op) {
    match op
    case Alloc(added) => NewBlock(g, s.book, added)
    case Free(p) => p == NULL || p in s.book.live
    case Write(p, _) => p in s.book.live
  }

  ghost predicate LegalRun(g: Geometry, s: Pool, ops: seq<Op>)
    requires 0 < g.align
    decreases |ops|
  {
    ops != [] ==> Legal(g, s, ops[0]) && LegalRun(g, Apply(g, s, ops[0]), ops[1..])
  }

  function Run(g: Geometry, s: Pool, ops: seq<Op>): Pool
    requires 0 < g.align
    decreases |ops|
  {
    if ops == [] then s else Run(g, Apply(g, s, ops[0]), ops[1..])
  }

  /** Every new block of the run takes its first slot. */
  ghost predicate AllFit(g: Geometry, s: Pool, ops: seq<Op>)
    requires 0 < g.align
    decreases |ops|
  {
    ops != [] ==> (ops[0].Alloc? ==> TakenFits(g, s, ops[0].added)) && AllFit(g, Apply(g, s, ops[0]), ops[1..])
  }

  ghost predicate InvThroughout(g: Geometry, s: Pool, ops: seq<Op>)
    requires 0 < g.align
    decreases |ops|
  {
    Inv(g, s) && (ops != [] ==> InvThroughout(g, Apply(g, s, ops[0]), ops[1..]))
  }

  lemma ApplyIff(g: Geometry, s: Pool, op: Op)
    requires Compiled(g) && Inv(g, s) && Legal(g, s, op)
    ensures Inv(g, Apply(g, s, op)) <==> (op.Alloc? ==> TakenFits(g, s, op.added))
  {
    match op
    case Alloc(added) => AllocateIff(g, s, added);
    case Free(p) => DeallocateKeepsInv(g, s, p);
    case Write(p, word) => StoreKeepsInv(g, s, p, word);
  }

  /** Whatever the geometry, the pool stays intact over a run exactly when each new block takes its first slot. */
  lemma {:induction false} RunInvIff(g: Geometry, s: Pool, ops: seq<Op>)
    requires Compiled(g) && Inv(g, s) && LegalRun(g, s, ops)
    ensures InvThroughout(g, s, ops) <==> AllFit(g, s, ops)
    ensures AllFit(g, s, ops) ==> Inv(g, Run(g, s, ops))
    decreases |ops|
  {
    if ops != [] {
      ApplyIff(g, s, ops[0]);
      if Inv(g, Apply(g, s, ops[0])) {
        RunInvIff(g, Apply(g, s, ops[0]), ops[1..]);
      } else {
        assert !InvThroughout(g, Apply(g, s, ops[0]), ops[1..]);
      }
    }
  }

  ghost predicate AlignedRun(ops: seq<Op>, unit: int)
    requires 0 < unit
  {
    forall i :: 0 <= i < |ops| && ops[i].Alloc? ==> ops[i].added % unit == 0
  }

  /** With room for the worst padding every run fits. */
  lemma {:induction false} RoomyAllFit(g: Geometry, s: Pool, ops: seq<Op>, unit: int)
    requires 0 < unit && Roomy(g, unit) && Comparable(g, unit) && AlignedRun(ops, unit)
    ensures AllFit(g, s, ops)
    decreases |ops|
  {
    if ops != [] {
      if ops[0].Alloc? {
        RoomyFits(g, s, ops[0].added, unit);
      }
      RoomyAllFit(g, Apply(g, s, ops[0]), ops[1..], unit);
    }
  }

  lemma InvSafe(g: Geometry, s: Pool, p: int, q: int)
    requires Compiled(g) && Inv(g, s)
    ensures
      var b := s.book;
      && (p in b.live ==>
            && p in b.home && p % g.align == 0 && p !in b.free && b.home[p] in b.blocks
            && b.home[p] + HEADER_SIZE <= p && p + g.slotSize <= b.home[p] + g.blockSize)
      && (p in b.live && q in b.live && p != q ==> p + g.slotSize <= q || q + g.slotSize <= p)
      && |b.live| + |b.free| == |b.home.Keys|
  {
  }

  lemma EmptyInv(g: Geometry)
    requires Compiled(g)
    ensures Inv(g, EMPTY)
  {
  }

  /** After any allocations, frees and writes by the owners of slots, each new block taking its first slot:
      slots in use are aligned, inside one block past its header and apart from one another, none is on the
      free list, and slots in use and free slots add up to the slots carved. */
  lemma RunSafe(g: Geometry, ops: seq<Op>, p: int, q: int)
    requires Compiled(g) && LegalRun(g, EMPTY, ops) && AllFit(g, EMPTY, ops)
    ensures
      var b := Run(g, EMPTY, ops).book;
      && (p in b.live ==>
            && p in b.home && p % g.align == 0 && p !in b.free && b.home[p] in b.blocks
            && b.home[p] + HEADER_SIZE <= p && p + g.slotSize <= b.home[p] + g.blockSize)
      && (p in b.live && q in b.live && p != q ==> p + g.slotSize <= q || q + g.slotSize <= p)
      && |b.live| + |b.free| == |b.home.Keys|
  {
    EmptyInv(g);
    RunInvIff(g, EMPTY, ops);
    InvSafe(g, Run(g, EMPTY, ops), p, q);
  }

  /** The slot handed out was not in use, and comes from the free list as long as there is one. */
  lemma GivenIsNew(g: Geometry, s: Pool, added: int)
    requires Compiled(g) && Inv(g, s) && NewBlock(g, s.book, added) && TakenFits(g, s, added)
    ensures
      var p, b, c := Given(g, s, added), s.book, Allocate(g, s, added).book;
      && p != NULL && p !in b.live && c.live == b.live + {p}
      && (b.free != [] ==> p == b.free[0] && c.free == b.free[1..] && c.home == b.home && c.blocks == b.blocks)
      && (b.free == [] ==> p !in b.home && c.free == [] && c.home.Keys == b.home.Keys + {p})
  {
    FreeIsPositive(g, s);
    if s.fields.head == NULL {
      if NeedsBlock(s.fields) {
        GrowKeepsInv(g, s, added);
        CarveKeepsInv(g, Grow(g, s, added));
      } else {
        CarveKeepsInv(g, s);
      }
    }
  }

  /** A slot freed and then asked for comes back, with everything else as before. */
  lemma FreeThenAllocate(g: Geometry, s: Pool, p: int, added: int)
    requires Compiled(g) && Inv(g, s) && p in s.book.live
    ensures
      var t := Allocate(g, Deallocate(s, p), added);
      && Given(g, Deallocate(s, p), added) == p && t.book == s.book
      && t.fields == s.fields.(memory := s.fields.memory[p := s.fields.head])
  {
    assert s.book.home[p] in s.book.blocks;
    assert ([p] + s.book.free)[1..] == s.book.free;
    assert s.book.live - {p} + {p} == s.book.live;
  }

  /** A slot freed last is given first. */
  lemma TakesFreed(g: Geometry, s: Pool, added: int)
    requires Compiled(g) && Inv(g, s) && s.book.free != []
    ensures Given(g, s, added) == s.book.free[0]
    ensures var b := Allocate(g, s, added).book;
      b.free == s.book.free[1..] && b.blocks == s.book.blocks && b.home == s.book.home
  {
    FreeIsPositive(g, s);
  }

  /** Without free slots the next one of the current block is given as long as it fits there. */
  lemma TakesNext(g: Geometry, s: Pool, added: int)
    requires Compiled(g) && Inv(g, s) && s.book.free == []
    requires s.book.blocks != [] && s.fields.slot + g.slotSize <= s.book.blocks[0] + g.blockSize
    ensures Given(g, s, added) == s.fields.slot
    ensures var t := Allocate(g, s, added);
      t.book.blocks == s.book.blocks && t.fields.slot == s.fields.slot + g.slotSize
  {
  }

  /** Only then is a new block taken, and its first slot is at the first multiple of the alignment after the
      header, one whole alignment on when the header itself ends at a multiple. */
  lemma TakesBlock(g: Geometry, s: Pool, added: int)
    requires Compiled(g) && Inv(g, s) && s.book.free == []
    requires s.book.blocks == [] || s.book.blocks[0] + g.blockSize < s.fields.slot + g.slotSize
    ensures var t, p := Allocate(g, s, added), Given(g, s, added);
      && t.book.blocks == [added] + s.book.blocks && t.fields.slot == p + g.slotSize
      && added + 8 < p <= added + 8 + g.align && p % g.align == 0
  {
    FirstSlotPlace(g, added);
  }

  /** The first slot of a block is never checked: it fits in every block the allocator gives exactly when
      header, the worst padding and the slot fit together. */
  lemma FirstSlotFitsIff(g: Geometry, unit: int)
    requires Compiled(g) && 0 < unit && Comparable(g, unit)
    ensures (forall block :: 0 < block && block % unit == 0 ==> FirstSlot(g, block) + g.slotSize <= block + g.blockSize)
       <==> Roomy(g, unit)
  {
    forall block | 0 < block && block % unit == 0
      ensures Padding(g, block) <= WorstPadding(g, unit)
    {
      PaddingAtMost(g, unit, block);
    }
    var worst := WorstBlock(g, unit);
    assert FirstSlot(g, worst) + g.slotSize <= worst + g.blockSize <==> Roomy(g, unit);
  }

  /** A block with the worst padding. */
  lemma WorstBlock(g: Geometry, unit: int) returns (block: int)
    requires 0 < g.align && 0 < unit && Comparable(g, unit)
    ensures 0 < block && block % unit == 0 && Padding(g, block) == WorstPadding(g, unit)
  {
    if g.align <= unit {
      block := unit;
      MultipleOf(1, unit);
      CommonDivisor(g, unit, block);
      SameResidue(block, g.align);
    } else {
      // the next multiple of the alignment, less the whole units of the header
      var k := HEADER_SIZE / unit;
      block := (HEADER_SIZE + 1) * g.align - k * unit;
      assert HEADER_SIZE == k * unit + HEADER_SIZE % unit;
      UnitsOfAlign(g, unit, k);
      var r := HEADER_SIZE % unit;
      assert block + HEADER_SIZE == r + (HEADER_SIZE + 1) * g.align;
      AddMultiple(r, HEADER_SIZE + 1, g.align);
      SmallModulus(r, g.align);
    }
  }

  lemma UnitsOfAlign(g: Geometry, unit: int, k: int)
    requires 0 < unit < g.align && Comparable(g, unit) && 0 <= k && k * unit <= HEADER_SIZE
    ensures var block := (HEADER_SIZE + 1) * g.align - k * unit; 0 < block && block % unit == 0
  {
    if g.align % unit != 0 {
      SmallModulus(unit, g.align);
    }
    var n := g.align / unit;
    assert g.align == n * unit;
    var block := (HEADER_SIZE + 1) * g.align - k * unit;
    assert block == ((HEADER_SIZE + 1) * n - k) * unit;
    MultipleOf((HEADER_SIZE + 1) * n - k, unit);
  }

  /** The static assertion alone is not enough: one-word elements in blocks of two words, at an address of
      `operator new`, give a first slot past the end of its block. */
  lemma StaticAssertionTooWeak()
    ensures var g := Geometry(16, 8, 8);
      Compiled(g) && !Roomy(g, 16) && 64 % 16 == 0 && 64 + g.blockSize < FirstSlot(g, 64) + g.slotSize
  {
  }

  /** The unit matters: a block of two 16-byte slots has room for one behind its header wherever memory comes
      in units of 16, but not at every address. */
  lemma UnitMatters()
    ensures var g := Geometry(32, 16, 16); Roomy(g, 16) && !Roomy(g, 1)
  {
  }
}
