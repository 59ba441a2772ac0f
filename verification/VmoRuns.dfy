/** Runs of many virtual memory objects above one page allocator: whatever is interleaved,
    a byte of an object changes only by a write to that object that covers it. */
module VmoRuns {
  import opened Memory
  import opened Pmm
  import opened VmoObject

  datatype VmoState = VmoState(size: nat, pages: PageMap)

  /** `tables` are the allocated frames owned by address spaces. */
  datatype World = World(states: States, ram: Ram, vmos: map<nat, VmoState>, tables: set<nat>)

  datatype Op =
    | CreateOp(id: nat, size: nat)
    | WriteOp(id: nat, offset: nat, data: seq<byte>, r: Outcome<nat>)
    | CloneOp(id: nat, child: nat)
    | ResizeOp(id: nat, size: nat)
    | TableOp(added: set<nat>)

  /** The two objects share no frame. */
  ghost predicate Disjoint(x: PageMap, y: PageMap)
  {
    forall k, l :: k in x && l in y ==> x[k].paddr != y[l].paddr
  }

  ghost predicate Inv(w: World)
  {
    && w.states.Keys <= w.ram.Keys
    && (forall id :: id in w.vmos ==> Backed(w.ram, w.states, w.vmos[id].pages))
    && (forall i, j :: i in w.vmos && j in w.vmos && i != j ==> Disjoint(w.vmos[i].pages, w.vmos[j].pages))
    && (forall i :: i in w.vmos ==> Outside(w.vmos[i].pages, w.tables))
    && (forall p :: p in w.tables ==> p in w.states && w.states[p] == Allocated)
  }

  /** One kernel operation. Writes and clones are exactly the effects promised by the methods
      of `Vmo`; a table operation allocates kernel pages and edits page tables. */
  ghost predicate Step(w: World, op: Op, w': World)
  {
    match op
    case CreateOp(id, size) => id !in w.vmos && w' == w.(vmos := w.vmos[id := VmoState(RoundUp(size), map[])])
    case ResizeOp(id, size) => id in w.vmos && w' == w.(vmos := w.vmos[id := w.vmos[id].(size := RoundUp(size))])
    case WriteOp(id, offset, data, r) =>
      && id in w.vmos && w'.vmos.Keys == w.vmos.Keys && w'.tables == w.tables
      && (forall i :: i in w.vmos && i != id ==> w'.vmos[i] == w.vmos[i])
      && w'.vmos[id].size == w.vmos[id].size
      && Backed(w'.ram, w'.states, w'.vmos[id].pages)
      && WriteEffect(w.states, w.ram, w.vmos[id].size, w.vmos[id].pages, offset, data, r, w'.states, w'.ram,
         w'.vmos[id].pages)
    case CloneOp(id, child) =>
      && id in w.vmos && child !in w.vmos && child in w'.vmos && w'.tables == w.tables
      && w'.vmos == w.vmos[child := VmoState(w.vmos[id].size, w'.vmos[child].pages)]
      && Backed(w'.ram, w'.states, w'.vmos[child].pages)
      && CloneEffect(w.states, w.ram, w.vmos[id].pages, w'.states, w'.ram, w'.vmos[child].pages)
    case TableOp(added) =>
      && w'.vmos == w.vmos && w'.tables == w.tables + added
      && Preserves(w.states, w.ram, w'.states, w'.ram, w.tables)
      && (forall p :: p in added ==> p in w.states && w.states[p] == Free && w'.states[p] == Allocated)
  }

  ghost predicate IsRun(ws: seq<World>, ops: seq<Op>)
  {
    && |ws| == |ops| + 1
    && Inv(ws[0])
    && (forall i :: 0 <= i < |ops| ==> Step(ws[i], ops[i], ws[i + 1]))
  }

  /** The operation stores to byte `k` of object `id`. */
  predicate Covers(op: Op, id: nat, k: nat)
  {
    op.WriteOp? && op.id == id && op.r.Ok? && op.r.value <= |op.data| && op.offset <= k < op.offset + op.r.value
  }

  /** An object that grew by Free pages still shares no frame with another. */
  lemma GrownApart(ram: Ram, s: States, pages: PageMap, pages': PageMap, other: PageMap)
    requires Grown(s, pages, pages') && Backed(ram, s, other) && Disjoint(pages, other)
    ensures Disjoint(pages', other) && Disjoint(other, pages')
  {
  }

  lemma GrownOutside(s: States, pages: PageMap, pages': PageMap, tables: set<nat>)
    requires Grown(s, pages, pages') && Outside(pages, tables)
    requires forall p :: p in tables ==> p in s && s[p] == Allocated
    ensures Outside(pages', tables)
  {
  }

  /** One object grows, the others are preserved: the invariant survives. */
  lemma GrowKeepsInv(w: World, w': World, id: nat, pages: PageMap, touched: set<nat>)
    requires Inv(w) && Preserves(w.states, w.ram, w'.states, w'.ram, touched)
    requires w'.tables == w.tables && id in w'.vmos && w'.vmos.Keys == w.vmos.Keys + {id}
    requires forall i :: i in w.vmos && i != id ==>
      w'.vmos[i] == w.vmos[i] && Outside(w.vmos[i].pages, touched) && Disjoint(pages, w.vmos[i].pages)
    requires Grown(w.states, pages, w'.vmos[id].pages) && Outside(pages, w.tables)
    requires Backed(w'.ram, w'.states, w'.vmos[id].pages)
    ensures Inv(w')
  {
    hide Backed, Grown, Outside, Disjoint;
    forall i | i in w.vmos && i != id
      ensures Backed(w'.ram, w'.states, w'.vmos[i].pages)
      ensures Disjoint(w'.vmos[id].pages, w'.vmos[i].pages) && Disjoint(w'.vmos[i].pages, w'.vmos[id].pages)
    {
      FramesStay(w.states, w.ram, w'.states, w'.ram, touched, w.vmos[i].pages);
      GrownApart(w.ram, w.states, pages, w'.vmos[id].pages, w.vmos[i].pages);
    }
    GrownOutside(w.states, pages, w'.vmos[id].pages, w.tables);
  }

  lemma WriteKeepsInv(w: World, op: Op, w': World)
    requires Inv(w) && op.WriteOp? && Step(w, op, w')
    ensures Inv(w')
  {
    hide Backed, Preserves, Stored, Touches, Grown;
    var pages := w.vmos[op.id].pages;
    forall i | i in w.vmos && i != op.id
      ensures Outside(w.vmos[i].pages, Frames(pages))
    {
      assert Disjoint(w.vmos[i].pages, pages);
    }
    GrowKeepsInv(w, w', op.id, pages, Frames(pages));
  }

  lemma CloneKeepsInv(w: World, op: Op, w': World)
    requires Inv(w) && op.CloneOp? && Step(w, op, w')
    ensures Inv(w')
  {
    hide Backed, Preserves, ByteAt, Grown;
    GrowKeepsInv(w, w', op.child, map[], {});
  }

  lemma TableKeepsInv(w: World, op: Op, w': World)
    requires Inv(w) && op.TableOp? && Step(w, op, w')
    ensures Inv(w')
  {
    forall i | i in w.vmos
      ensures Backed(w'.ram, w'.states, w.vmos[i].pages)
    {
      FramesStay(w.states, w.ram, w'.states, w'.ram, w.tables, w.vmos[i].pages);
    }
    forall i | i in w.vmos
      ensures Outside(w.vmos[i].pages, w'.tables)
    {
      assert Backed(w.ram, w.states, w.vmos[i].pages);
    }
  }

  /** Isolation is kept by every operation: frames of distinct objects and page tables never meet. */
  lemma StepKeepsInv(w: World, op: Op, w': World)
    requires Inv(w) && Step(w, op, w')
    ensures Inv(w')
  {
    match op
    case CreateOp(id, size) =>
    case ResizeOp(id, size) =>
    case WriteOp(id, offset, data, r) => WriteKeepsInv(w, op, w');
    case CloneOp(id, child) => CloneKeepsInv(w, op, w');
    case TableOp(added) => TableKeepsInv(w, op, w');
  }

  lemma {:induction false} RunKeepsInv(ws: seq<World>, ops: seq<Op>, j: nat)
    requires IsRun(ws, ops) && j < |ws|
    ensures Inv(ws[j])
  {
    if j > 0 {
      RunKeepsInv(ws, ops, j - 1);
      StepKeepsInv(ws[j - 1], ops[j - 1], ws[j]);
    }
  }

  /** One step leaves every backed byte it does not cover, of every object. */
  lemma StepKeepsByte(w: World, op: Op, w': World, id: nat, k: nat)
    requires Inv(w) && Step(w, op, w')
    requires id in w.vmos && Key(k) in w.vmos[id].pages && !Covers(op, id, k)
    ensures id in w'.vmos && Key(k) in w'.vmos[id].pages
    ensures ByteAt(w'.ram, w'.vmos[id].pages, k) == ByteAt(w.ram, w.vmos[id].pages, k)
  {
    match op
    case CreateOp(i, size) =>
    case ResizeOp(i, size) =>
    case WriteOp(i, offset, data, r) =>
      if i == id {
        OwnWriteKeepsByte(w, op, w', k);
      } else {
        assert Disjoint(w.vmos[id].pages, w.vmos[i].pages);
        FramesStay(w.states, w.ram, w'.states, w'.ram, Frames(w.vmos[i].pages), w.vmos[id].pages);
      }
    case CloneOp(i, child) =>
      FramesStay(w.states, w.ram, w'.states, w'.ram, {}, w.vmos[id].pages);
    case TableOp(added) =>
      FramesStay(w.states, w.ram, w'.states, w'.ram, w.tables, w.vmos[id].pages);
  }

  lemma OwnWriteKeepsByte(w: World, op: Op, w': World, k: nat)
    requires Inv(w) && op.WriteOp? && Step(w, op, w')
    requires Key(k) in w.vmos[op.id].pages && !Covers(op, op.id, k)
    ensures Key(k) in w'.vmos[op.id].pages
    ensures ByteAt(w'.ram, w'.vmos[op.id].pages, k) == ByteAt(w.ram, w.vmos[op.id].pages, k)
  {
    hide Preserves, Backed, Stored, Touches, Inv, ByteAt, Key;
    var pages, pages' := w.vmos[op.id].pages, w'.vmos[op.id].pages;
    if op.r.Ok? {
      BackedPage(w'.ram, w'.states, pages', Key(k));
      StoredByte(w.ram, w'.ram, pages, pages', op.offset, op.data[..op.r.value], k);
    } else {
      SameRamSameByte(w.ram, pages, pages', k);
    }
  }

  lemma SameRamSameByte(ram: Ram, pages: PageMap, pages': PageMap, k: nat)
    requires Key(k) in pages && Key(k) in pages' && pages'[Key(k)] == pages[Key(k)]
    ensures ByteAt(ram, pages', k) == ByteAt(ram, pages, k)
  {
  }

  /** A backed byte keeps its value until a write to its object covers it, whatever else runs. */
  lemma {:induction false} ByteStable(ws: seq<World>, ops: seq<Op>, i: nat, j: nat, id: nat, k: nat)
    requires IsRun(ws, ops) && i <= j <= |ops|
    requires id in ws[i].vmos && Key(k) in ws[i].vmos[id].pages
    requires forall n :: i <= n < j ==> !Covers(ops[n], id, k)
    ensures id in ws[j].vmos && Key(k) in ws[j].vmos[id].pages
    ensures ByteAt(ws[j].ram, ws[j].vmos[id].pages, k) == ByteAt(ws[i].ram, ws[i].vmos[id].pages, k)
    decreases j - i
  {
    hide Step, Inv, ByteAt, Key;
    if i < j {
      RunKeepsInv(ws, ops, i);
      StepKeepsByte(ws[i], ops[i], ws[i + 1], id, k);
      ByteStable(ws, ops, i + 1, j, id, k);
    }
  }

  /** Reading returns the last write: the object is a flat byte array. */
  lemma LastWriteWins(ws: seq<World>, ops: seq<Op>, i: nat, j: nat, id: nat, k: nat)
    requires IsRun(ws, ops) && i < j <= |ops|
    requires Covers(ops[i], id, k)
    requires forall n :: i < n < j ==> !Covers(ops[n], id, k)
    ensures id in ws[j].vmos
    ensures ByteAt(ws[j].ram, ws[j].vmos[id].pages, k) == ops[i].data[k - ops[i].offset]
  {
    hide Step, Inv, ByteAt, Key;
    RunKeepsInv(ws, ops, i);
    WrittenByte(ws[i], ops[i], ws[i + 1], k);
    ByteStable(ws, ops, i + 1, j, id, k);
  }

  lemma WrittenByte(w: World, op: Op, w': World, k: nat)
    requires Inv(w) && op.WriteOp? && Step(w, op, w') && Covers(op, op.id, k)
    ensures op.id in w'.vmos && Key(k) in w'.vmos[op.id].pages
    ensures ByteAt(w'.ram, w'.vmos[op.id].pages, k) == op.data[k - op.offset]
  {
    hide Preserves, Backed, Stored, Inv, ByteAt;
    var pages' := w'.vmos[op.id].pages;
    assert Touches(op.offset, op.r.value, Key(k));
    BackedPage(w'.ram, w'.states, pages', Key(k));
    StoredByte(w.ram, w'.ram, w.vmos[op.id].pages, pages', op.offset, op.data[..op.r.value], k);
  }

  /** The operation may back the page of byte `k` of object `id`. */
  predicate Reaches(op: Op, id: nat, k: nat)
  {
    op.WriteOp? && op.id == id && Touches(op.offset, |op.data|, Key(k))
  }

  /** A page that was never backed reads as zero until a write reaches it. */
  lemma {:induction false} UnbackedReadsZero(ws: seq<World>, ops: seq<Op>, i: nat, j: nat, id: nat, k: nat)
    requires IsRun(ws, ops) && i <= j <= |ops| && id in ws[i].vmos && Key(k) !in ws[i].vmos[id].pages
    requires forall n :: i <= n < j ==> !Reaches(ops[n], id, k)
    ensures id in ws[j].vmos && Key(k) !in ws[j].vmos[id].pages && ByteAt(ws[j].ram, ws[j].vmos[id].pages, k) == 0
    decreases j - i
  {
    if i < j {
      StepKeepsUnbacked(ws[i], ops[i], ws[i + 1], id, k);
      UnbackedReadsZero(ws, ops, i + 1, j, id, k);
    }
  }

  lemma StepKeepsUnbacked(w: World, op: Op, w': World, id: nat, k: nat)
    requires Step(w, op, w') && id in w.vmos && Key(k) !in w.vmos[id].pages && !Reaches(op, id, k)
    ensures id in w'.vmos && Key(k) !in w'.vmos[id].pages
  {
    hide Preserves, Backed, Grown, Stored, CloneEffect, Key, Touches;
  }

  /** The step gives the page of byte `k` of object `id` a frame. */
  ghost predicate Backs(w: World, w': World, id: nat, k: nat)
  {
    id in w.vmos && Key(k) !in w.vmos[id].pages && id in w'.vmos && Key(k) in w'.vmos[id].pages
  }

  /** What that frame held at the place of the byte before. */
  ghost function FoundByte(w: World, w': World, id: nat, k: nat): byte
    requires Backs(w, w', id, k)
  {
    var p := w'.vmos[id].pages[Key(k)].paddr;
    if p in w.ram then w.ram[p][k % 4096] else 0
  }

  /** New pages are not cleared: a byte of one that the write does not cover is what a Free frame
      happened to hold. */
  lemma BackedAsFound(w: World, op: Op, w': World, id: nat, k: nat)
    requires Inv(w) && Step(w, op, w') && Backs(w, w', id, k) && !Covers(op, id, k)
    ensures Reaches(op, id, k) && ByteAt(w'.ram, w'.vmos[id].pages, k) == FoundByte(w, w', id, k)
    ensures var p := w'.vmos[id].pages[Key(k)].paddr; p in w.states && w.states[p] == Free && p in w.ram
  {
    hide Disjoint, Key, Frames, CloneEffect;
    var pages' := w'.vmos[id].pages;
    BackedPage(w'.ram, w'.states, pages', Key(k));
    KeyParts(k);
  }

  lemma KeyParts(k: nat)
    ensures Key(k) + k % 4096 == k && Key(k) % 4096 == 0
  {
  }

  /** A byte that no write ever covers: it reads zero until its page is backed, and from then on,
      whatever runs, what the frame held when it was taken; so it stays zero exactly when the page
      stays unbacked or that frame had a zero there. */
  lemma {:induction false} UncoveredByte(ws: seq<World>, ops: seq<Op>, i: nat, j: nat, id: nat, k: nat) returns (n: nat)
    requires IsRun(ws, ops) && i <= j <= |ops| && id in ws[i].vmos && Key(k) !in ws[i].vmos[id].pages
    requires forall m :: i <= m < j ==> !Covers(ops[m], id, k)
    ensures id in ws[j].vmos
    ensures Key(k) !in ws[j].vmos[id].pages ==> ByteAt(ws[j].ram, ws[j].vmos[id].pages, k) == 0
    ensures Key(k) in ws[j].vmos[id].pages ==>
      && i <= n < j && Reaches(ops[n], id, k) && Backs(ws[n], ws[n + 1], id, k)
      && ByteAt(ws[j].ram, ws[j].vmos[id].pages, k) == FoundByte(ws[n], ws[n + 1], id, k)
    decreases j - i
  {
    hide Step, Inv, Key, Reaches, Covers;
    n := i;
    if i < j {
      RunKeepsInv(ws, ops, i);
      StepKeepsObject(ws[i], ops[i], ws[i + 1], id);
      if Key(k) in ws[i + 1].vmos[id].pages {
        BackedAsFound(ws[i], ops[i], ws[i + 1], id, k);
        ByteStable(ws, ops, i + 1, j, id, k);
      } else {
        n := UncoveredByte(ws, ops, i + 1, j, id, k);
      }
    }
  }

  lemma StepKeepsObject(w: World, op: Op, w': World, id: nat)
    requires Step(w, op, w') && id in w.vmos
    ensures id in w'.vmos
  {
    hide Preserves, Backed, WriteEffect, CloneEffect;
  }

  /** A clone is a snapshot: it reads as the parent did, until it is written itself; and its
      own writes never show in the parent. Where the parent had no page, that is zero, until a
      write reaches the page. */
  lemma CloneIsSnapshot(ws: seq<World>, ops: seq<Op>, i: nat, j: nat, k: nat)
    requires IsRun(ws, ops) && i < j <= |ops| && ops[i].CloneOp? && ops[i].id in ws[i].vmos
    ensures Unwritten(ws, ops, i, j, ops[i].child, ops[i].id, k) ==>
      && ops[i].child in ws[j].vmos
      && ByteAt(ws[j].ram, ws[j].vmos[ops[i].child].pages, k) == ByteAt(ws[i].ram, ws[i].vmos[ops[i].id].pages, k)
    ensures Unwritten(ws, ops, i, j, ops[i].id, ops[i].id, k) ==>
      && ops[i].id in ws[j].vmos
      && ByteAt(ws[j].ram, ws[j].vmos[ops[i].id].pages, k) == ByteAt(ws[i].ram, ws[i].vmos[ops[i].id].pages, k)
  {
    hide Preserves, Backed, Grown, Inv, Key, Touches;
    var op := ops[i];
    assert Step(ws[i], op, ws[i + 1]);
    if Key(k) in ws[i].vmos[op.id].pages {
      if Unwritten(ws, ops, i, j, op.child, op.id, k) {
        ByteStable(ws, ops, i + 1, j, op.child, k);
      }
      if Unwritten(ws, ops, i, j, op.id, op.id, k) {
        ByteStable(ws, ops, i, j, op.id, k);
      }
    } else {
      if Unwritten(ws, ops, i, j, op.child, op.id, k) {
        UnbackedReadsZero(ws, ops, i + 1, j, op.child, k);
      }
      if Unwritten(ws, ops, i, j, op.id, op.id, k) {
        UnbackedReadsZero(ws, ops, i, j, op.id, k);
      }
    }
  }

  /** After the clone at `i`, nothing up to `j` changes byte `k` of the object: no write covers it,
      or where the parent had no page, none reaches that page. */
  ghost predicate Unwritten(ws: seq<World>, ops: seq<Op>, i: nat, j: nat, id: nat, parent: nat, k: nat)
    requires i < j <= |ops| && |ws| == |ops| + 1 && parent in ws[i].vmos
  {
    forall n :: i < n < j ==> if Key(k) in ws[i].vmos[parent].pages then !Covers(ops[n], id, k)
      else !Reaches(ops[n], id, k)
  }

  /** An object nobody writes to keeps its page map, so also its unbacked pages still read zero. */
  lemma {:induction false} UntouchedObject(ws: seq<World>, ops: seq<Op>, i: nat, j: nat, id: nat)
    requires IsRun(ws, ops) && i <= j <= |ops| && id in ws[i].vmos
    requires forall n :: i <= n < j ==> !(ops[n].WriteOp? && ops[n].id == id)
    ensures id in ws[j].vmos && ws[j].vmos[id].pages == ws[i].vmos[id].pages
    ensures forall k :: ByteAt(ws[j].ram, ws[j].vmos[id].pages, k) == ByteAt(ws[i].ram, ws[i].vmos[id].pages, k)
    decreases j - i
  {
    hide Inv, Preserves, Backed, Grown, WriteEffect, CloneEffect;
    if i < j {
      RunKeepsInv(ws, ops, i);
      assert Step(ws[i], ops[i], ws[i + 1]);
      forall k
        ensures ByteAt(ws[i + 1].ram, ws[i + 1].vmos[id].pages, k) == ByteAt(ws[i].ram, ws[i].vmos[id].pages, k)
      {
        if Key(k) in ws[i].vmos[id].pages {
          StepKeepsByte(ws[i], ops[i], ws[i + 1], id, k);
        }
      }
      UntouchedObject(ws, ops, i + 1, j, id);
    }
  }
}
