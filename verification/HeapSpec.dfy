/** The kernel heap as a value: which blocks are on the free list, which chunks are handed out,
    and what one `allocate` call does to them (src/mm/allocator.rs). */
module HeapSpec {
  import opened Arithmetic

  const HEADER_SIZE := 40
  const MIN_BLOCK_SIZE := 1024

  datatype Block = Block(start: nat, size: nat)

  /** A block taken from the free list, with the payload handed to the caller. */
  datatype Chunk = Chunk(block: Block, payload: nat, size: nat, align: nat)

  /** The region is `lo .. hi`; `free` is the free list from its head. */
  datatype Heap = Heap(lo: nat, hi: nat, free: seq<Block>, taken: seq<Chunk>)

  datatype Request = Request(size: nat, align: nat)

  function Max(a: nat, b: nat): nat
  {
    if a >= b then a else b
  }

  /** `(x + a - 1) & !(a - 1)` for a power of two `a`. */
  function AlignUp(x: nat, a: nat): (r: nat)
    requires a > 0
    ensures x <= r < x + a && r % a == 0
  {
    var q := (x + a - 1) / a;
    DivBounds(x + a - 1, a);
    MulMod(q, a);
    q * a
  }

  /** `(x + 39) & !39`. 39 is 0b100111, so the mask clears bits 0, 1, 2 and 5 and keeps bits 3
      and 4: not a rounding to a multiple of 40, but still at most 39 above `x` and a multiple
      of 8. */
  function AlignHeader(x: nat): (r: nat)
    ensures x <= r <= x + 39 && r % 8 == 0
  {
    var e := (x + 39) / 8;
    e / 8 * 64 + e % 4 * 8
  }

  /** That is what the mask computes. */
  lemma AlignHeaderIsMask(x: nat)
    ensures AndNot(x + 39, 39) == AlignHeader(x)
  {
    hide AndNot;
    LowThree(x + 39);
    MaskOfFour((x + 39) / 8);
  }

  lemma LowThree(y: nat)
    ensures AndNot(y, 39) == 8 * AndNot(y / 8, 4)
  {
    hide AndNot;
    AndNotStep(y, 39);
    AndNotStep(y / 2, 19);
    AndNotStep(y / 4, 9);
    Halves(y);
  }

  lemma Halves(y: nat)
    ensures y / 2 / 2 == y / 4 && y / 4 / 2 == y / 8
  {
  }

  lemma MaskOfFour(e: nat)
    ensures AndNot(e, 4) == e / 8 * 8 + e % 4
  {
    hide AndNot;
    AndNotStep(e, 4);
    AndNotStep(e / 2, 2);
    AndNotStep(e / 4, 1);
    AndNotNothing(e / 8);
    Halves(e);
  }

  lemma AlignUpIsMask(x: nat, a: nat)
    requires PowerOfTwo(a)
    ensures a > 0 && AndNot(x + a - 1, a - 1) == AlignUp(x, a)
  {
    AndNotPower(x + a - 1, a);
  }

  /** Room for header and payload, and never less than a minimal block. */
  function TotalSize(size: nat): (r: nat)
    ensures size + 40 <= r && 1024 <= r && (r == size + 40 || r == 1024)
  {
    Max(size + HEADER_SIZE, MIN_BLOCK_SIZE)
  }

  function Payload(b: Block, align: nat): (p: nat)
    ensures b.start + 40 <= p < b.start + 40 + Max(align, 8) && p % Max(align, 8) == 0
  {
    AlignUp(b.start + HEADER_SIZE, Max(align, 8))
  }

  predicate Suits(b: Block, q: Request)
  {
    b.size >= TotalSize(q.size) && b.start + b.size >= Payload(b, q.align) + q.size
  }

  /** The first block of the list that suits, or its length. */
  function FirstFit(free: seq<Block>, q: Request): (k: nat)
    ensures k <= |free| && (k < |free| ==> Suits(free[k], q))
    ensures forall i :: 0 <= i < k ==> !Suits(free[i], q)
  {
    if free == [] || Suits(free[0], q) then 0 else 1 + FirstFit(free[1..], q)
  }

  /** What the caller's block keeps after the split, and what goes back on the list. */
  function Split(b: Block, q: Request): (r: (Block, seq<Block>))
    requires Suits(b, q)
  {
    var end := Payload(b, q.align) + q.size;
    if b.start + b.size - end < MIN_BLOCK_SIZE then (b, [])
    else
      var kept := Block(b.start, end - b.start);
      var next := AlignHeader(end);
      var rest := b.start + b.size - next;
      (kept, if rest >= MIN_BLOCK_SIZE then [Block(next, rest)] else [])
  }

  /** One `allocate` call. The chosen block's link is cleared before the block is unlinked, so
      the list keeps only what stood in front of it. */
  function Allocate(h: Heap, q: Request): (r: (Heap, nat))
  {
    var k := FirstFit(h.free, q);
    if q.size == 0 || k == |h.free| then (h, 0)
    else
      var b := h.free[k];
      var (kept, rest) := Split(b, q);
      var p := Payload(b, q.align);
      (h.(free := rest + h.free[..k], taken := h.taken + [Chunk(kept, p, q.size, q.align)]), p)
  }

  /** What a successful call leaves on the list: at most one split-off block, and then what stood in
      front of the block it chose. Everything behind that block is off the list. */
  lemma ListExact(h: Heap, q: Request, k: nat)
    requires k < |h.free| && q.size > 0 && Suits(h.free[k], q) && forall i :: 0 <= i < k ==> !Suits(h.free[i], q)
    ensures var (h', p) := Allocate(h, q);
      && h'.free == Split(h.free[k], q).1 + h.free[..k] && |h'.free| <= k + 1
      && p == AlignUp(h.free[k].start + 40, Max(q.align, 8))
      && h'.taken == h.taken + [Chunk(Split(h.free[k], q).0, p, q.size, q.align)]
  {
    assert FirstFit(h.free, q) == k;
  }

  function Init(lo: nat, size: nat): Heap
  {
    Heap(lo, lo + size, [Block(lo, size)], [])
  }

  function AllocateAll(h: Heap, qs: seq<Request>): (Heap, seq<nat>)
    decreases |qs|
  {
    if qs == [] then (h, [])
    else
      var (h1, p) := Allocate(h, qs[0]);
      var (h2, ps) := AllocateAll(h1, qs[1..]);
      (h2, [p] + ps)
  }

  // Safety

  predicate Apart(a: Block, b: Block)
  {
    a.start + a.size <= b.start || b.start + b.size <= a.start
  }

  predicate Inside(h: Heap, b: Block)
  {
    h.lo <= b.start && b.start + b.size <= h.hi && b.start % 8 == 0 && b.size >= HEADER_SIZE
  }

  /** The payload lies in its block behind the header, and is aligned as asked. */
  predicate ChunkOk(h: Heap, c: Chunk)
  {
    && Inside(h, c.block)
    && c.block.start + HEADER_SIZE <= c.payload && c.payload + c.size <= c.block.start + c.block.size
    && c.payload % Max(c.align, 8) == 0
  }

  ghost predicate FreeOk(h: Heap)
  {
    && (forall i :: 0 <= i < |h.free| ==> Inside(h, h.free[i]))
    && (forall i, j :: 0 <= i < j < |h.free| ==> Apart(h.free[i], h.free[j]))
  }

  ghost predicate TakenOk(h: Heap)
  {
    && (forall i :: 0 <= i < |h.taken| ==> ChunkOk(h, h.taken[i]))
    && (forall i, j :: 0 <= i < j < |h.taken| ==> Apart(h.taken[i].block, h.taken[j].block))
    && (forall i, j :: 0 <= i < |h.taken| && 0 <= j < |h.free| ==> Apart(h.taken[i].block, h.free[j]))
  }

  ghost predicate HeapOk(h: Heap)
  {
    FreeOk(h) && TakenOk(h)
  }

  /** What a split gives, exactly: with fewer than 1024 bytes left behind the payload the caller
      keeps the whole block; otherwise its block ends with the payload, and the rest starts at the
      masked address, fewer than 40 bytes behind, unless it is too small to be a block. */
  lemma SplitExact(b: Block, q: Request)
    requires Suits(b, q)
    ensures var end, (kept, rest) := Payload(b, q.align) + q.size, Split(b, q);
      var next := AndNot(end + 39, 39);
      && end <= next < end + 40 && kept.start == b.start
      && (b.start + b.size < end + 1024 <==> kept == b && rest == [])
      && (b.start + b.size >= end + 1024 ==> kept.start + kept.size == end)
      && (b.start + b.size >= next + 1024 ==> rest == [Block(next, b.start + b.size - next)])
      && (b.start + b.size < next + 1024 ==> rest == [])
  {
    hide AndNot, AlignUp, AlignHeader;
    AlignHeaderIsMask(Payload(b, q.align) + q.size);
  }

  /** A request is refused exactly when it asks for nothing or no free block has room for a header,
      the aligned payload behind it and the minimal size. */
  lemma RefusedIff(h: Heap, q: Request)
    ensures Allocate(h, q).1 == 0 <==> q.size == 0 || forall i :: 0 <= i < |h.free| ==>
      || h.free[i].size < q.size + 40 || h.free[i].size < 1024
      || h.free[i].start + h.free[i].size < AlignUp(h.free[i].start + 40, Max(q.align, 8)) + q.size
  {
  }

  /** The two parts of a split lie inside the block, apart from each other. */
  lemma SplitInside(b: Block, q: Request)
    requires Suits(b, q) && b.start % 8 == 0
    ensures var (kept, rest) := Split(b, q);
      && kept.start == b.start && HEADER_SIZE <= kept.size <= b.size
      && Payload(b, q.align) + q.size <= kept.start + kept.size
      && |rest| <= 1
      && (forall i :: 0 <= i < |rest| ==>
            && kept.start + kept.size <= rest[i].start && rest[i].start % 8 == 0
            && rest[i].start + rest[i].size == b.start + b.size && rest[i].size >= MIN_BLOCK_SIZE)
  {
  }

  /** Every call keeps all blocks in bounds and apart. */
  lemma AllocateKeepsOk(h: Heap, q: Request)
    requires HeapOk(h)
    ensures HeapOk(Allocate(h, q).0)
  {
    hide AlignUp, AlignHeader, Payload, Suits, Split;
    var k := FirstFit(h.free, q);
    if q.size > 0 && k < |h.free| {
      var b := h.free[k];
      assert Inside(h, b);
      SplitInside(b, q);
      var h' := Allocate(h, q).0;
      var (kept, rest) := Split(b, q);
      assert forall i :: 0 <= i < k ==> Apart(h.free[i], b);
      assert forall i :: 0 <= i < |h.free[..k]| ==> h.free[..k][i] == h.free[i];
      assert h'.free == rest + h.free[..k];
      TakenKept(h, q, k);
    }
  }

  lemma TakenKept(h: Heap, q: Request, k: nat)
    requires HeapOk(h) && q.size > 0 && k == FirstFit(h.free, q) < |h.free|
    ensures TakenOk(Allocate(h, q).0)
  {
    hide AlignUp, AlignHeader, Payload, Suits, Split, FirstFit;
    var b := h.free[k];
    assert Inside(h, b);
    SplitInside(b, q);
    PayloadOf(b, q.align);
    var h' := Allocate(h, q).0;
    assert forall i :: 0 <= i < |h.taken| ==> h'.taken[i] == h.taken[i] && Apart(h.taken[i].block, b);
    assert forall i :: 0 <= i < k ==> Apart(h.free[i], b);
  }

  lemma PayloadOf(b: Block, align: nat)
    ensures Payload(b, align) >= b.start + HEADER_SIZE && Payload(b, align) % Max(align, 8) == 0
  {
  }

  /** The successful requests of a run with their results, in order. */
  function Successes(qs: seq<Request>, ps: seq<nat>): seq<(Request, nat)>
    requires |qs| == |ps|
  {
    if qs == [] then []
    else (if ps[0] == 0 then [] else [(qs[0], ps[0])]) + Successes(qs[1..], ps[1..])
  }

  predicate GrantedBy(c: Chunk, s: (Request, nat))
  {
    c.payload == s.1 && c.size == s.0.size && c.align == s.0.align
  }

  /** Over any run of calls the invariant holds, no chunk is moved or given up, and the chunks
      added are the successful requests, one for one. */
  lemma {:induction false} RunKeepsOk(h: Heap, qs: seq<Request>)
    requires HeapOk(h)
    ensures var (h', ps) := AllocateAll(h, qs);
      && HeapOk(h') && h'.lo == h.lo && h'.hi == h.hi && h.taken <= h'.taken && |ps| == |qs|
      && |h'.taken| == |h.taken| + |Successes(qs, ps)|
      && (forall i :: 0 <= i < |Successes(qs, ps)| ==> GrantedBy(h'.taken[|h.taken| + i], Successes(qs, ps)[i]))
    decreases |qs|
  {
    hide HeapOk, Payload, FirstFit, Split;
    if qs != [] {
      var (h1, p) := Allocate(h, qs[0]);
      AllocateKeepsOk(h, qs[0]);
      AllocateAdds(h, qs[0]);
      RunKeepsOk(h1, qs[1..]);
      var (h', ps) := AllocateAll(h, qs);
      assert ps[1..] == AllocateAll(h1, qs[1..]).1;
      if p != 0 {
        assert h'.taken[|h.taken|] == h1.taken[|h.taken|];
      }
    }
  }

  lemma AllocateAdds(h: Heap, q: Request)
    ensures var (h', p) := Allocate(h, q);
      && h'.lo == h.lo && h'.hi == h.hi
      && (p == 0 ==> h' == h)
      && (p != 0 ==> |h'.taken| == |h.taken| + 1 && h.taken <= h'.taken && GrantedBy(h'.taken[|h.taken|], (q, p)))
  {
  }

  /** From a fresh heap: the chunks of any run are in bounds, aligned, and pairwise disjoint with
      their headers and payloads. */
  lemma RunDisjoint(lo: nat, size: nat, qs: seq<Request>)
    requires lo % 8 == 0 && size >= HEADER_SIZE
    ensures var h := AllocateAll(Init(lo, size), qs).0;
      && (forall i :: 0 <= i < |h.taken| ==> ChunkOk(h, h.taken[i]))
      && (forall i, j :: 0 <= i < j < |h.taken| ==> Apart(h.taken[i].block, h.taken[j].block))
      && h.lo == lo && h.hi == lo + size
  {
    RunKeepsOk(Init(lo, size), qs);
  }

  // What the cleared link costs: a run of allocations only ever moves upwards.

  /** At most one free block, which ends the region and lies above everything handed out. */
  ghost predicate Stacked(h: Heap)
  {
    && |h.free| <= 1
    && (forall i :: 0 <= i < |h.free| ==> h.free[i].start + h.free[i].size == h.hi && h.free[i].start % 8 == 0)
    && (forall i, j :: 0 <= i < |h.taken| && 0 <= j < |h.free| ==>
          h.taken[i].block.start + h.taken[i].block.size <= h.free[j].start)
    && (forall i, j :: 0 <= i < j < |h.taken| ==>
          h.taken[i].block.start + h.taken[i].block.size <= h.taken[j].block.start)
  }

  lemma {:induction false} RunStacked(h: Heap, qs: seq<Request>)
    requires Stacked(h)
    ensures Stacked(AllocateAll(h, qs).0)
    decreases |qs|
  {
    if qs != [] {
      AllocateStacked(h, qs[0]);
      RunStacked(Allocate(h, qs[0]).0, qs[1..]);
    }
  }

  lemma AllocateStacked(h: Heap, q: Request)
    requires Stacked(h)
    ensures Stacked(Allocate(h, q).0)
  {
    hide AlignUp, AlignHeader, Payload, Suits, Split;
    var k := FirstFit(h.free, q);
    if q.size > 0 && k < |h.free| {
      var b := h.free[k];
      assert k == 0;
      SplitInside(b, q);
      var h' := Allocate(h, q).0;
      assert h'.free == Split(b, q).1;
      assert forall i :: 0 <= i < |h.taken| ==> h'.taken[i] == h.taken[i];
    }
  }

  /** Where the block behind a chunk starts. */
  function Behind(c: Chunk): nat
  {
    AndNot(c.payload + c.size + 39, 39)
  }

  predicate InPlace(lo: nat, taken: seq<Chunk>, i: nat)
    requires i < |taken|
  {
    && taken[i].block.start == (if i == 0 then lo else Behind(taken[i - 1]))
    && taken[i].payload == AlignUp(taken[i].block.start + 40, Max(taken[i].align, 8))
  }

  /** No space is wasted but by alignment: the first chunk starts the region, each next one starts
      at the masked end of the one before, and so does the free block behind the last. */
  ghost predicate Tight(h: Heap)
  {
    && |h.free| <= 1
    && (forall i :: 0 <= i < |h.taken| ==> InPlace(h.lo, h.taken, i))
    && (|h.free| == 1 ==>
          && h.free[0].start == (if h.taken == [] then h.lo else Behind(h.taken[|h.taken| - 1]))
          && h.free[0].start + h.free[0].size == h.hi)
  }

  lemma AllocateTight(h: Heap, q: Request)
    requires Tight(h)
    ensures Tight(Allocate(h, q).0)
  {
    hide AlignUp, AlignHeader, Split, AndNot, Suits;
    var k := FirstFit(h.free, q);
    if q.size > 0 && k < |h.free| {
      var b := h.free[0];
      SplitExact(b, q);
      var h' := Allocate(h, q).0;
      assert h'.free == Split(b, q).1;
      forall i | 0 <= i < |h'.taken|
        ensures InPlace(h'.lo, h'.taken, i)
      {
        assert i < |h.taken| ==> InPlace(h.lo, h.taken, i);
      }
    }
  }

  lemma {:induction false} RunKeepsTight(h: Heap, qs: seq<Request>)
    requires Tight(h)
    ensures Tight(AllocateAll(h, qs).0)
    decreases |qs|
  {
    hide Tight, Allocate;
    if qs != [] {
      AllocateTight(h, qs[0]);
      RunKeepsTight(Allocate(h, qs[0]).0, qs[1..]);
    }
  }

  /** From a fresh heap: every address any run hands out is determined by the requests before it,
      and neighbouring blocks are fewer than 40 bytes apart. */
  lemma RunTight(lo: nat, size: nat, qs: seq<Request>)
    ensures var h := AllocateAll(Init(lo, size), qs).0;
      && Tight(h) && h.lo == lo && h.hi == lo + size
      && (forall i, j :: 0 <= i && j == i + 1 < |h.taken| ==>
            var end := h.taken[i].payload + h.taken[i].size; end <= h.taken[j].block.start < end + 40)
      && (|h.free| == 1 && h.taken != [] ==>
            var end := h.taken[|h.taken| - 1].payload + h.taken[|h.taken| - 1].size; end <= h.free[0].start < end + 40)
  {
    hide AndNot, AlignUp, Allocate;
    var h0 := Init(lo, size);
    RunKeepsTight(h0, qs);
    SameRegion(h0, qs);
    var h := AllocateAll(h0, qs).0;
    forall i, j | 0 <= i && j == i + 1 < |h.taken|
      ensures h.taken[j].block.start == Behind(h.taken[i])
    {
      assert InPlace(h.lo, h.taken, j);
    }
    forall i | 0 <= i < |h.taken|
      ensures h.taken[i].payload + h.taken[i].size <= Behind(h.taken[i]) < h.taken[i].payload + h.taken[i].size + 40
    {
      AlignHeaderIsMask(h.taken[i].payload + h.taken[i].size);
    }
  }

  lemma {:induction false} SameRegion(h: Heap, qs: seq<Request>)
    ensures AllocateAll(h, qs).0.lo == h.lo && AllocateAll(h, qs).0.hi == h.hi
    decreases |qs|
  {
    hide Allocate;
    if qs != [] {
      AllocateAdds(h, qs[0]);
      SameRegion(Allocate(h, qs[0]).0, qs[1..]);
    }
  }

  lemma OneRequest(h: Heap, q: Request)
    ensures AllocateAll(h, [q]).1 == [Allocate(h, q).1]
  {
    assert [q][1..] == [];
  }

  /** For instance: two requests for 100 bytes get 4136 and 4280 of a region at 4096. */
  lemma TwoExample()
    ensures AllocateAll(Init(4096, 8192), [Request(100, 8), Request(100, 8)]).1 == [4136, 4280]
  {
    var h0, q := Init(4096, 8192), Request(100, 8);
    assert Payload(Block(4096, 8192), 8) == 4136 && AlignHeader(4236) == 4240;
    var h1 := Allocate(h0, q).0;
    assert h1.free == [Block(4240, 8048)];
    assert Payload(Block(4240, 8048), 8) == 4280;
    assert Allocate(h1, q).1 == 4280;
    OneRequest(h1, q);
    assert [q, q][1..] == [q];
  }

  /** Once the list is empty no request succeeds any more. */
  lemma {:induction false} DryForever(h: Heap, qs: seq<Request>)
    requires h.free == []
    ensures AllocateAll(h, qs).0 == h && |AllocateAll(h, qs).1| == |qs|
    ensures forall i :: 0 <= i < |qs| ==> AllocateAll(h, qs).1[i] == 0
  {
    if qs != [] {
      DryForever(h, qs[1..]);
    }
  }

  /** The request takes the last free block and leaves less than a minimal block behind the
      rounded end. */
  predicate Dries(h: Heap, q: Request)
    requires |h.free| == 1
  {
    q.size > 0 && Suits(h.free[0], q) && h.hi < AlignHeader(Payload(h.free[0], q.align) + q.size) + MIN_BLOCK_SIZE
  }

  lemma DriesIff(h: Heap, q: Request)
    requires Stacked(h) && |h.free| == 1
    ensures Allocate(h, q).0.free == [] <==> Dries(h, q)
    ensures !Dries(h, q) ==> |Allocate(h, q).0.free| == 1
  {
    hide AlignUp, AlignHeader, Payload;
    assert h.free[..0] == [];
  }

  /** A run leaves nothing free exactly when one of its requests dries the list up. */
  lemma {:induction false} RunDryIff(h: Heap, qs: seq<Request>)
    requires Stacked(h) && |h.free| == 1
    ensures AllocateAll(h, qs).0.free == [] <==>
      exists i :: 0 <= i < |qs| && var g := AllocateAll(h, qs[..i]).0; |g.free| == 1 && Dries(g, qs[i])
    decreases |qs|
  {
    hide Dries, Stacked, Allocate;
    if qs != [] {
      var h1 := Allocate(h, qs[0]).0;
      AllocateStacked(h, qs[0]);
      DriesIff(h, qs[0]);
      assert qs[..0] == [];
      if Dries(h, qs[0]) {
        DryForever(h1, qs[1..]);
        assert AllocateAll(h, qs[..0]).0 == h;
      } else {
        RunDryIff(h1, qs[1..]);
        ShiftedRun(h, qs);
      }
    }
  }

  lemma ShiftedRun(h: Heap, qs: seq<Request>)
    requires qs != []
    ensures forall i :: 0 <= i < |qs[1..]| ==>
      AllocateAll(Allocate(h, qs[0]).0, qs[1..][..i]).0 == AllocateAll(h, qs[..i + 1]).0
  {
    hide Allocate;
    forall i | 0 <= i < |qs[1..]|
      ensures AllocateAll(Allocate(h, qs[0]).0, qs[1..][..i]).0 == AllocateAll(h, qs[..i + 1]).0
    {
      assert qs[..i + 1][0] == qs[0] && qs[..i + 1][1..] == qs[1..][..i];
    }
  }

  /** For instance: one request for 1000 of 2048 bytes leaves 1008 bytes that no later request gets. */
  lemma DryExample(qs: seq<Request>)
    ensures var (h, p) := Allocate(Init(4096, 2048), Request(1000, 8));
      && p == 4136 && h.hi - (p + 1000) == 1008 && h.free == []
      && forall i :: 0 <= i < |qs| ==> |AllocateAll(h, qs).1| == |qs| && AllocateAll(h, qs).1[i] == 0
  {
    var h0, q := Init(4096, 2048), Request(1000, 8);
    assert Payload(h0.free[0], 8) == 4136;
    assert FirstFit(h0.free, q) == 0;
    DryForever(Allocate(h0, q).0, qs);
  }
}
