/** The linked-list heap allocator on its block headers (src/mm/allocator.rs). The bytes of the
    headers are a map from header addresses; 0 is the null pointer. */
module Heaps {
  import opened Arithmetic
  import opened HeapSpec

  const BLOCK_MAGIC := 0xDEADBEEFCAFEBABE

  datatype BlockHeader = BlockHeader(size: nat, free: bool, magic: nat, prev: nat, next: nat)

  type Headers = map<nat, BlockHeader>

  /** Address `i` of the list, 0 past its end. */
  ghost function LinkAt(free: seq<Block>, i: nat): nat
  {
    if i < |free| then free[i].start else 0
  }

  ghost predicate HeaderOf(headers: Headers, b: Block, next: nat)
  {
    b.start > 0 && b.start in headers && var e := headers[b.start];
    e.size == b.size && e.free && e.magic == BLOCK_MAGIC && e.next == next
  }

  /** The headers reached from `head` are the blocks of `free`. */
  ghost predicate Linked(headers: Headers, head: nat, free: seq<Block>)
  {
    head == LinkAt(free, 0) && forall i :: 0 <= i < |free| ==> HeaderOf(headers, free[i], LinkAt(free, i + 1))
  }

  /** Blocks that lie apart have different headers. */
  ghost predicate Distinct(free: seq<Block>)
  {
    forall i, j :: 0 <= i < j < |free| ==> free[i].start != free[j].start
  }

  ghost predicate Absent(free: seq<Block>, a: nat)
  {
    forall i :: 0 <= i < |free| ==> free[i].start != a
  }

  lemma FreeDistinct(h: HeapSpec.Heap)
    requires HeapOk(h)
    ensures Distinct(h.free)
  {
    forall i, j | 0 <= i < j < |h.free|
      ensures h.free[i].start != h.free[j].start
    {
      assert Inside(h, h.free[i]) && Inside(h, h.free[j]) && Apart(h.free[i], h.free[j]);
    }
  }

  /** Writing a header outside the list keeps the list. */
  lemma LinkedElsewhere(headers: Headers, head: nat, free: seq<Block>, a: nat, e: BlockHeader)
    requires Linked(headers, head, free) && Absent(free, a)
    ensures Linked(headers[a := e], head, free)
  {
    var headers' := headers[a := e];
    forall i | 0 <= i < |free|
      ensures HeaderOf(headers', free[i], LinkAt(free, i + 1))
    {
      assert HeaderOf(headers, free[i], LinkAt(free, i + 1));
    }
  }

  /** Clearing the link in front of block `k` cuts the list there. */
  lemma LinkedCut(headers: Headers, head: nat, free: seq<Block>, k: nat)
    requires Linked(headers, head, free) && Distinct(free) && 0 < k <= |free|
    ensures free[k - 1].start in headers
    ensures Linked(headers[free[k - 1].start := headers[free[k - 1].start].(next := 0)], head, free[..k])
  {
    var prev := free[k - 1].start;
    assert HeaderOf(headers, free[k - 1], LinkAt(free, k));
    var headers' := headers[prev := headers[prev].(next := 0)];
    forall i | 0 <= i < k
      ensures HeaderOf(headers', free[..k][i], LinkAt(free[..k], i + 1))
    {
      assert HeaderOf(headers, free[i], LinkAt(free, i + 1));
      assert i < k - 1 ==> free[i].start != prev;
    }
  }

  /** Writing the `prev` field of the second block keeps the list. */
  lemma LinkedSecond(headers: Headers, head: nat, free: seq<Block>, prev: nat)
    requires Linked(headers, head, free) && |free| > 1
    ensures var a := free[1].start; a in headers && Linked(headers[a := headers[a].(prev := prev)], head, free)
  {
    var a := free[1].start;
    assert HeaderOf(headers, free[1], LinkAt(free, 2));
    var headers' := headers[a := headers[a].(prev := prev)];
    forall i | 0 <= i < |free|
      ensures HeaderOf(headers', free[i], LinkAt(free, i + 1))
    {
      assert HeaderOf(headers, free[i], LinkAt(free, i + 1));
    }
  }

  /** A new header in front of the list. */
  lemma LinkedPush(headers: Headers, head: nat, free: seq<Block>, b: Block)
    requires Linked(headers, head, free) && Absent(free, b.start) && b.start > 0
    ensures Linked(headers[b.start := BlockHeader(b.size, true, BLOCK_MAGIC, 0, head)], b.start, [b] + free)
  {
    var e := BlockHeader(b.size, true, BLOCK_MAGIC, 0, head);
    LinkedElsewhere(headers, head, free, b.start, e);
    var headers', free' := headers[b.start := e], [b] + free;
    forall i | 0 <= i < |free'|
      ensures HeaderOf(headers', free'[i], LinkAt(free', i + 1))
    {
      if i > 0 {
        assert HeaderOf(headers', free[i - 1], LinkAt(free, i));
      }
    }
  }

  /** Neither the chosen block nor what is split off it is on the list in front of it. */
  lemma CutAbsent(h: HeapSpec.Heap, k: nat, a: nat)
    requires HeapOk(h) && k < |h.free| && h.free[k].start <= a < h.free[k].start + h.free[k].size
    ensures Absent(h.free[..k], a)
  {
    forall i | 0 <= i < k
      ensures h.free[i].start != a
    {
      assert Inside(h, h.free[i]) && Apart(h.free[i], h.free[k]);
    }
  }

  lemma HeadOf(headers: Headers, head: nat, free: seq<Block>)
    requires Linked(headers, head, free)
    ensures head == LinkAt(free, 0) && forall i :: 0 <= i < |free| ==> free[i].start > 0
  {
    forall i | 0 <= i < |free|
      ensures free[i].start > 0
    {
      assert HeaderOf(headers, free[i], LinkAt(free, i + 1));
    }
  }

  lemma HeaderAt(headers: Headers, head: nat, h: HeapSpec.Heap, k: nat)
    requires HeapOk(h) && Linked(headers, head, h.free) && k < |h.free|
    ensures HeaderOf(headers, h.free[k], LinkAt(h.free, k + 1))
    ensures h.free[k].start % 8 == 0 && h.free[k].size >= HEADER_SIZE
  {
    assert HeaderOf(headers, h.free[k], LinkAt(h.free, k + 1));
    assert Inside(h, h.free[k]);
  }

  lemma {:induction false} FirstFitIs(free: seq<Block>, q: Request, k: nat)
    requires k <= |free| && (k < |free| ==> Suits(free[k], q)) && forall i :: 0 <= i < k ==> !Suits(free[i], q)
    ensures FirstFit(free, q) == k
  {
    if free != [] && k > 0 {
      FirstFitIs(free[1..], q, k - 1);
    }
  }

  lemma EightIsPower()
    ensures PowerOfTwo(8)
  {
    assert PowerOfTwo(2) && PowerOfTwo(4);
  }

  /** The tests of the search loop, on the header's fields. */
  lemma SuitsTest(b: Block, q: Request)
    ensures Suits(b, q) <==>
      b.size >= TotalSize(q.size) && b.size >= AlignUp(b.start + HEADER_SIZE, Max(q.align, 8)) - b.start + q.size
    ensures Payload(b, q.align) == AlignUp(b.start + HEADER_SIZE, Max(q.align, 8)) >= b.start
  {
  }

  lemma AllocateResult(h: HeapSpec.Heap, q: Request)
    ensures var k := FirstFit(h.free, q);
      HeapSpec.Allocate(h, q) ==
      if q.size == 0 || k == |h.free| then (h, 0) else (HeapSpec.Allocate(h, q).0, Payload(h.free[k], q.align))
  {
  }

  class LinkedListAllocator {
    var freeList: nat
    var heapStart: nat
    var heapSize: nat
    var initialized: bool
    var headers: Headers
    ghost var heap: HeapSpec.Heap

    ghost predicate Valid()
      reads this
    {
      initialized ==>
        && heap.lo == heapStart && heap.hi == heapStart + heapSize
        && HeapOk(heap) && Linked(headers, freeList, heap.free)
    }

    constructor ()
      ensures Valid() && !initialized
    {
      freeList := 0;
      heapStart := 0;
      heapSize := 0;
      initialized := false;
      headers := map[];
      heap := HeapSpec.Heap(0, 0, [], []);
    }

    method Initialize(start: nat, size: nat)
      requires start > 0 && start % 8 == 0 && size >= HEADER_SIZE
      modifies this
      ensures Valid() && initialized && heap == Init(start, size)
    {
      heapStart := start;
      heapSize := size;
      initialized := true;
      headers := headers[start := BlockHeader(size, true, BLOCK_MAGIC, 0, 0)];
      freeList := start;
      heap := Init(start, size);
    }

    /** Walks the free list; the first block that suits is unlinked, split and handed out. */
    method Allocate(size: nat, align: nat) returns (r: nat)
      requires Valid() && PowerOfTwo(align)
      modifies this
      ensures Valid() && initialized == old(initialized)
      ensures !initialized ==> r == 0 && heap == old(heap)
      ensures initialized ==> (heap, r) == HeapSpec.Allocate(old(heap), Request(size, align))
    {
      hide HeapOk, Linked, AlignUp, Payload, Suits, FirstFit, HeapSpec.Allocate, TotalSize, AndNot, PowerOfTwo;
      ghost var q := Request(size, align);
      AllocateResult(heap, q);
      if !initialized || size == 0 {
        return 0;
      }
      HeadOf(headers, freeList, heap.free);
      var blockSize := TotalSize(size);
      var actualAlign := Max(align, 8);
      EightIsPower();
      var current, prev := freeList, 0;
      ghost var k: nat := 0;
      while current != 0
        invariant k <= |heap.free| && current == LinkAt(heap.free, k) &&
          prev == (if k == 0 then 0 else LinkAt(heap.free, k - 1))
        invariant forall i :: 0 <= i < k ==> !Suits(heap.free[i], q)
        invariant Valid() && initialized && heap == old(heap) && headers == old(headers) && freeList == old(freeList)
        decreases |heap.free| - k
      {
        ghost var b := heap.free[k];
        HeaderAt(headers, freeList, heap, k);
        SuitsTest(b, q);
        var block := headers[current];
        if block.magic == BLOCK_MAGIC && block.free && block.size >= blockSize {
          AlignUpIsMask(current + HEADER_SIZE, actualAlign);
          var alignedStart := AndNot(current + HEADER_SIZE + actualAlign - 1, actualAlign - 1);
          var offset := alignedStart - current;
          if block.size >= offset + size {
            FirstFitIs(heap.free, q, k);
            TakeBlock(current, prev, offset, size, q, k);
            return alignedStart;
          }
        }
        k := k + 1;
        prev := current;
        current := block.next;
      }
      FirstFitIs(heap.free, q, k);
      r := 0;
    }

    /** Clears the chosen block's links, then takes it off the list: what stood behind it is
        no longer reached. */
    method Unlink(current: nat, prev: nat, ghost k: nat)
      requires Valid() && initialized && k < |heap.free| && current == heap.free[k].start
      requires prev == if k == 0 then 0 else heap.free[k - 1].start
      modifies this`headers, this`freeList
      ensures Linked(headers, freeList, heap.free[..k]) && current in headers
    {
      hide AlignUp, HeapOk;
      ghost var free, was := heap.free, headers;
      FreeDistinct(heap);
      assert HeaderOf(headers, free[k], LinkAt(free, k + 1));
      headers := headers[current := headers[current].(free := false, next := 0, prev := 0)];
      if prev != 0 {
        LinkedCut(was, freeList, free, k);
        ghost var cut := was[prev := was[prev].(next := 0)];
        assert Absent(free[..k], current);
        LinkedElsewhere(cut, freeList, free[..k], current, headers[current]);
        headers := headers[prev := headers[prev].(next := headers[current].next)];
        assert headers == cut[current := headers[current]];
      } else {
        assert HeaderOf(was, free[0], LinkAt(free, 1));
        freeList := headers[current].next;
      }
    }

    method Push(start: nat, size: nat, ghost free: seq<Block>)
      requires Linked(headers, freeList, free) && Absent(free, start) && start > 0
      modifies this`headers, this`freeList
      ensures Linked(headers, freeList, [Block(start, size)] + free)
    {
      LinkedPush(headers, freeList, free, Block(start, size));
      ghost var free' := [Block(start, size)] + free;
      headers := headers[start := BlockHeader(size, true, BLOCK_MAGIC, 0, freeList)];
      if freeList != 0 {
        LinkedSecond(headers, start, free', start);
        headers := headers[freeList := headers[freeList].(prev := start)];
      }
      freeList := start;
    }

    /** Unlinks `current`, splits it, and puts the rest back at the head of the list. */
    method TakeBlock(current: nat, prev: nat, offset: nat, size: nat, ghost q: Request, ghost k: nat)
      requires Valid() && initialized && q.size == size > 0 && k == FirstFit(heap.free, q) < |heap.free|
      requires current == heap.free[k].start && prev == (if k == 0 then 0 else heap.free[k - 1].start)
      requires current + offset == Payload(heap.free[k], q.align)
      modifies this`headers, this`freeList, this`heap
      ensures Valid() && heap == HeapSpec.Allocate(old(heap), q).0
    {
      hide HeapOk, AlignUp, AlignHeader, Payload, Linked, AndNot, FirstFit, Suits, TotalSize;
      ghost var free := heap.free;
      AllocateKeepsOk(heap, q);
      HeaderAt(headers, freeList, heap, k);
      var blockSize := headers[current].size;
      Unlink(current, prev, k);
      var remaining := blockSize - offset - size;
      if remaining >= MIN_BLOCK_SIZE {
        AlignHeaderIsMask(current + offset + size);
        var newBlock := AndNot(current + offset + size + HEADER_SIZE - 1, HEADER_SIZE - 1);
        var newBlockSize := current + blockSize - newBlock;
        CutAbsent(heap, k, current);
        LinkedElsewhere(headers, freeList, free[..k], current, headers[current].(size := offset + size));
        headers := headers[current := headers[current].(size := offset + size)];
        if newBlockSize >= MIN_BLOCK_SIZE {
          CutAbsent(heap, k, newBlock);
          Push(newBlock, newBlockSize, free[..k]);
        } else {
          assert [] + free[..k] == free[..k];
        }
      } else {
        assert [] + free[..k] == free[..k];
      }
      heap := HeapSpec.Allocate(heap, q).0;
    }
  }
}
