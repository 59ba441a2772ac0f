/** Four-level paging (section 4.5 of the Intel SDM, volume 3A) and the sharing discipline of
    src/process/address_space.rs: a process tree that starts as a copy of the kernel's root
    and replaces kernel tables by private copies on the paths it maps. */
module PageTable {
  import opened Memory

  const VADDR_LIMIT: nat := 0x1_0000_0000_0000
  const PADDR_LIMIT: nat := 0x10_0000_0000_0000

  // Entries are 64-bit words: the flags sit in the low twelve bits, the frame number above.
  // `e & !0xFFF` is `e / 4096 * 4096`, and bit tests are divisions of the low part.

  predicate Present(e: nat) { e % 4096 % 2 == 1 }
  predicate Writable(e: nat) { e % 4096 / 2 % 2 == 1 }
  predicate User(e: nat) { e % 4096 / 4 % 2 == 1 }
  predicate Large(e: nat) { e % 4096 / 128 % 2 == 1 }

  /** What the code takes as the table address of an entry. */
  function Base(e: nat): nat { e / 4096 * 4096 }

  /** What the hardware takes as the frame of an entry: bits 51..12. */
  function HwBase(e: nat): nat { e / 4096 % 0x100_0000_0000 * 4096 }

  /** The frame of a 1 GB (level 1) or 2 MB (level 2) page: bits 51..30 or 51..21. */
  function LargeBase(e: nat, level: nat): nat
  {
    if level == 1 then e / 4096 / 0x4_0000 % 0x40_0000 * 0x4000_0000 else e / 4096 / 512 % 0x8000_0000 * 0x20_0000
  }

  /** `e | 4`. */
  function OrUser(e: nat): nat { if User(e) then e else e + 4 }

  /** `p | 7` for an aligned `p`. */
  function TableEntry(p: nat): nat { p + 7 }

  /** The final entry for an aligned frame: present, user, writable iff PF_W (bit 1 of the flags). */
  function Pte(p: nat, flags: nat): nat { if flags / 2 % 2 == 1 then p + 7 else p + 5 }

  lemma Parts(p: nat, low: nat)
    requires p % 4096 == 0 && low < 4096
    ensures (p + low) / 4096 == p / 4096 && (p + low) % 4096 == low && p / 4096 * 4096 == p
  {
  }

  lemma TableEntryBits(p: nat)
    requires p % 4096 == 0 && p < PADDR_LIMIT
    ensures var e := TableEntry(p);
      Present(e) && Writable(e) && User(e) && !Large(e) && Base(e) == p && HwBase(e) == p && e < WORD_LIMIT
  {
    Parts(p, 7);
  }

  lemma PteBits(p: nat, flags: nat)
    requires p % 4096 == 0 && p < PADDR_LIMIT
    ensures var e := Pte(p, flags);
      Present(e) && User(e) && (Writable(e) <==> flags / 2 % 2 == 1) && HwBase(e) == p && e < WORD_LIMIT
  {
    Parts(p, 7);
    Parts(p, 5);
  }

  /** Adding the USER bit changes nothing else. */
  lemma OrUserBits(e: nat)
    requires e < WORD_LIMIT
    ensures var f := OrUser(e);
      && (Present(f) <==> Present(e)) && (Writable(f) <==> Writable(e)) && User(f) && (Large(f) <==> Large(e))
      && f / 4096 == e / 4096 && f < WORD_LIMIT
  {
    if !User(e) {
      var low := e % 4096;
      LowBits(low);
      OrUserParts(e, low);
      BelowLimit(e, e + 4);
    }
  }

  lemma OrUserParts(e: nat, low: nat)
    requires low == e % 4096 && low + 4 < 4096
    ensures (e + 4) / 4096 == e / 4096 && (e + 4) % 4096 == low + 4
  {
    var q := e / 4096;
    assert e + 4 == 4096 * q + (low + 4);
  }

  lemma BelowLimit(e: nat, f: nat)
    requires e < WORD_LIMIT && f / 4096 == e / 4096
    ensures f < WORD_LIMIT
  {
  }

  lemma LowBits(low: nat)
    requires low < 4096 && low / 4 % 2 == 0
    ensures low + 4 < 4096 && (low + 4) % 2 == low % 2 && (low + 4) / 4 % 2 == 1
    ensures (low + 4) / 2 % 2 == low / 2 % 2 && (low + 4) / 128 == low / 128
  {
    var a, b := low / 8, low % 8;
    assert low / 4 == 2 * a + b / 4;
    assert b < 4;
    assert (low + 4) / 4 == 2 * a + 1;
    assert (low + 4) / 2 == low / 2 + 2;
    assert low / 128 == a / 16 && (low + 4) / 128 == a / 16;
  }

  lemma HwBaseIsBase(e: nat)
    requires Base(e) < PADDR_LIMIT
    ensures HwBase(e) == Base(e)
  {
  }

  /** The layout of an entry: flags present, writable, user and large in bits 0, 1, 2 and 7, other
      bits of the low twelve in between, and the frame number above. */
  lemma EntryLayout(p: nat, w: nat, u: nat, x: nat, l: nat, y: nat, frame: nat)
    requires p < 2 && w < 2 && u < 2 && x < 16 && l < 2 && y < 16
    ensures var e := p + 2 * w + 4 * u + 8 * x + 128 * l + 256 * y + 4096 * frame;
      && (Present(e) <==> p == 1) && (Writable(e) <==> w == 1) && (User(e) <==> u == 1) && (Large(e) <==> l == 1)
      && Base(e) == frame * 4096 && (frame < 0x100_0000_0000 ==> HwBase(e) == frame * 4096)
  {
    var low := p + 2 * w + 4 * u + 8 * x + 128 * l + 256 * y;
    LowLayout(p, w, u, x, l, y);
    Parts(4096 * frame, low);
  }

  lemma LowLayout(p: nat, w: nat, u: nat, x: nat, l: nat, y: nat)
    requires p < 2 && w < 2 && u < 2 && x < 16 && l < 2 && y < 16
    ensures var low := p + 2 * w + 4 * u + 8 * x + 128 * l + 256 * y;
      low < 4096 && low % 2 == p && low / 2 % 2 == w && low / 4 % 2 == u && low / 128 % 2 == l
  {
    var low := p + 2 * w + 4 * u + 8 * x + 128 * l + 256 * y;
    assert low / 2 == w + 2 * u + 4 * x + 64 * l + 128 * y;
    assert low / 4 == u + 2 * x + 32 * l + 64 * y;
    assert low / 128 == l + 2 * y;
  }

  /** A large page's frame number counts in units of its own size. */
  lemma LargeLayout(low: nat, big: nat)
    ensures low < 0x20_0000 && big < 0x8000_0000 ==> LargeBase(big * 0x20_0000 + low, 2) == big * 0x20_0000
    ensures low < 0x4000_0000 && big < 0x40_0000 ==> LargeBase(big * 0x4000_0000 + low, 1) == big * 0x4000_0000
  {
    if low < 0x20_0000 {
      assert (big * 0x20_0000 + low) / 4096 == big * 512 + low / 4096;
      assert (big * 512 + low / 4096) / 512 == big;
    }
    if low < 0x4000_0000 {
      assert (big * 0x4000_0000 + low) / 4096 == big * 0x4_0000 + low / 4096;
      assert (big * 0x4_0000 + low / 4096) / 0x4_0000 == big;
    }
  }

  // The hardware walk

  datatype Translation = Translation(paddr: nat, writable: bool, user: bool)

  function Index(va: nat, level: nat): (i: nat)
    requires level < 4
    ensures i < 512
  {
    if level == 0 then va / 0x80_0000_0000 % 512
    else if level == 1 then va / 0x4000_0000 % 512
    else if level == 2 then va / 0x20_0000 % 512
    else va / 0x1000 % 512
  }

  /** Bytes mapped by one entry of a level. */
  function Span(level: nat): nat
  {
    if level == 1 then 0x4000_0000 else if level == 2 then 0x20_0000 else 0x1000
  }

  function WalkFrom(ram: Ram, table: nat, level: nat, va: nat): Option<Translation>
    requires level < 4
    decreases 4 - level
  {
    if table !in ram then None else
    var e := Word(ram[table], Index(va, level));
    if !Present(e) then None
    else if level == 3 then Some(Translation(HwBase(e) + va % 4096, Writable(e), User(e)))
    else if Large(e) && level > 0 then Some(Translation(LargeBase(e, level) + va % Span(level), Writable(e), User(e)))
    else
      match WalkFrom(ram, HwBase(e), level + 1, va)
      case None => None
      case Some(t) => Some(Translation(t.paddr, t.writable && Writable(e), t.user && User(e)))
  }

  function Walk(ram: Ram, root: nat, va: nat): Option<Translation>
  {
    WalkFrom(ram, root, 0, va)
  }

  /** The walk written out: four tables, of which each entry names the next; a large entry ends it
      early; a page is writable, or open to the user, exactly when all entries on the way say so. */
  lemma WalkWrittenOut(ram: Ram, t0: nat, t1: nat, t2: nat, t3: nat, va: nat)
    requires t0 in ram && t1 in ram && t2 in ram && t3 in ram
    requires HwBase(Word(ram[t0], Index(va, 0))) == t1 && HwBase(Word(ram[t1], Index(va, 1))) == t2
    requires HwBase(Word(ram[t2], Index(va, 2))) == t3
    ensures var e0, e1, e2, e3 :=
        Word(ram[t0], Index(va, 0)), Word(ram[t1], Index(va, 1)),
        Word(ram[t2], Index(va, 2)), Word(ram[t3], Index(va, 3));
      Walk(ram, t0, va) ==
        if !Present(e0) || !Present(e1) then None
        else if Large(e1) then
          Some(Translation(LargeBase(e1, 1) + va % 0x4000_0000, Writable(e0) && Writable(e1), User(e0) && User(e1)))
        else if !Present(e2) then None
        else if Large(e2) then
          Some(Translation(LargeBase(e2, 2) + va % 0x20_0000, Writable(e0) && Writable(e1) && Writable(e2),
            User(e0) && User(e1) && User(e2)))
        else if !Present(e3) then None
        else Some(Translation(HwBase(e3) + va % 4096, Writable(e0) && Writable(e1) && Writable(e2) && Writable(e3),
          User(e0) && User(e1) && User(e2) && User(e3)))
  {
    hide Word, Index, Present, Large, Writable, User, HwBase, LargeBase;
    assert WalkFrom(ram, t3, 3, va) == PteTranslation(Word(ram[t3], Index(va, 3)), va);
    assert WalkFrom(ram, t2, 2, va).Some? ==> Present(Word(ram[t2], Index(va, 2)));
    assert WalkFrom(ram, t1, 1, va).Some? ==> Present(Word(ram[t1], Index(va, 1)));
  }

  /** Same frame; permissions may only be wider than in `t`. */
  ghost predicate SamePlace(t: Option<Translation>, t': Option<Translation>)
  {
    match (t, t')
    case (None, None) => true
    case (Some(x), Some(y)) => x.paddr == y.paddr && (x.writable ==> y.writable) && (x.user ==> y.user)
    case _ => false
  }

  // Tables by position

  /** A table's place in the tree: the indices leading to it. */
  datatype Node = Root | Pdp(i: nat) | Pd(i: nat, j: nat) | Pt(i: nat, j: nat, k: nat)

  function Level(n: Node): nat
  {
    match n case Root => 0 case Pdp(_) => 1 case Pd(_, _) => 2 case Pt(_, _, _) => 3
  }

  function Child(n: Node, i: nat): Node
    requires !n.Pt?
  {
    match n case Root => Pdp(i) case Pdp(a) => Pd(a, i) case Pd(a, b) => Pt(a, b, i)
  }

  function Parent(n: Node): Node
    requires !n.Root?
  {
    match n case Pdp(_) => Root case Pd(a, _) => Pdp(a) case Pt(a, b, _) => Pd(a, b)
  }

  function LastIndex(n: Node): nat
    requires !n.Root?
  {
    match n case Pdp(a) => a case Pd(_, b) => b case Pt(_, _, c) => c
  }

  predicate InRange(n: Node)
  {
    match n
    case Root => true
    case Pdp(a) => a < 512
    case Pd(a, b) => a < 512 && b < 512
    case Pt(a, b, c) => a < 512 && b < 512 && c < 512
  }

  /** The table that the walk of `va` reads at a level. */
  function NodeAt(va: nat, level: nat): (n: Node)
    requires level < 4
    ensures InRange(n) && Level(n) == level
  {
    if level == 0 then Root
    else if level == 1 then Pdp(Index(va, 0))
    else if level == 2 then Pd(Index(va, 0), Index(va, 1))
    else Pt(Index(va, 0), Index(va, 1), Index(va, 2))
  }

  /** The page-table entry a page uses determines the page. */
  lemma SamePage(va: nat, vb: nat)
    requires va < VADDR_LIMIT && vb < VADDR_LIMIT
    requires NodeAt(va, 3) == NodeAt(vb, 3) && Index(va, 3) == Index(vb, 3)
    ensures va / 4096 == vb / 4096
  {
    PageOfIndices(va);
    PageOfIndices(vb);
  }

  lemma PageIndices(va: nat, vb: nat)
    requires va / 4096 == vb / 4096
    ensures forall level :: 0 <= level < 4 ==> Index(va, level) == Index(vb, level)
    ensures NodeAt(va, 3) == NodeAt(vb, 3)
  {
    var p := va / 4096;
    assert va / 0x20_0000 == p / 512 && vb / 0x20_0000 == p / 512;
    assert va / 0x4000_0000 == p / 0x4_0000 && vb / 0x4000_0000 == p / 0x4_0000;
    assert va / 0x80_0000_0000 == p / 0x800_0000 && vb / 0x80_0000_0000 == p / 0x800_0000;
  }

  lemma PageOfIndices(va: nat)
    requires va < VADDR_LIMIT
    ensures va / 4096 == Index(va, 0) * 0x800_0000 + Index(va, 1) * 0x4_0000 + Index(va, 2) * 0x200 + Index(va, 3)
  {
    var p := va / 4096;
    assert va / 0x20_0000 == p / 512;
    assert va / 0x4000_0000 == p / 512 / 512;
    assert va / 0x80_0000_0000 == p / 512 / 512 / 512;
  }

  // The kernel's tables

  /** The kernel's table at a position, if its walk gets there. */
  function KTable(ram: Ram, cr3: nat, n: Node): Option<nat>
    requires InRange(n)
    decreases Level(n), 0
  {
    if n.Root? then Some(cr3)
    else
      var e := KEntry(ram, cr3, Parent(n), LastIndex(n));
      if Present(e) && !(Large(e) && !Parent(n).Root?) then Some(Base(e)) else None
  }

  /** The kernel's entry at a position; 0 where the kernel has no table. */
  function KEntry(ram: Ram, cr3: nat, n: Node, i: nat): (e: nat)
    requires InRange(n) && i < 512
    ensures e < WORD_LIMIT
    decreases Level(n), 1
  {
    match KTable(ram, cr3, n)
    case None => 0
    case Some(t) => if t in ram then Word(ram[t], i) else 0
  }

  /** `kernel` holds every table the kernel can reach. */
  ghost predicate KernelOk(ram: Ram, cr3: nat, kernel: set<nat>)
  {
    && kernel <= ram.Keys
    && (forall n :: InRange(n) && KTable(ram, cr3, n).Some? ==> KTable(ram, cr3, n).value in kernel)
  }

  lemma {:induction false} KernelSame(ram: Ram, ram': Ram, cr3: nat, kernel: set<nat>, n: Node)
    requires KernelOk(ram, cr3, kernel) && InRange(n)
    requires forall q :: q in kernel ==> q in ram' && ram'[q] == ram[q]
    ensures KTable(ram', cr3, n) == KTable(ram, cr3, n)
    ensures forall i :: 0 <= i < 512 ==> KEntry(ram', cr3, n, i) == KEntry(ram, cr3, n, i)
    decreases Level(n)
  {
    if !n.Root? {
      KernelSame(ram, ram', cr3, kernel, Parent(n));
      assert KEntry(ram', cr3, Parent(n), LastIndex(n)) == KEntry(ram, cr3, Parent(n), LastIndex(n));
    }
  }

  // The process tree

  /** A kernel entry as it appears in a process table: the root copies it bit for bit, private
      copies of lower tables add the USER bit and clear entries that are not present. */
  function Shared(root: bool, e: nat): nat
  {
    if root then e else if Present(e) then OrUser(e) else 0
  }

  /** What stands at a position the process has not made private. */
  function SharedEntry(ram: Ram, cr3: nat, n: Node, i: nat): nat
    requires InRange(n) && i < 512
  {
    Shared(n.Root?, KEntry(ram, cr3, n, i))
  }

  /** The kernel leaves room for a private table here: no large page on the way to a private
      PD, nothing at all where a private PT goes. */
  ghost predicate Open(ram: Ram, cr3: nat, n: Node)
    requires InRange(n)
  {
    match n
    case Root => true
    case Pdp(_) => true
    case Pd(a, b) => !(Present(KEntry(ram, cr3, Pdp(a), b)) && Large(KEntry(ram, cr3, Pdp(a), b)))
    case Pt(a, b, c) => !Present(KEntry(ram, cr3, Pd(a, b), c))
  }

  type Tree = map<Node, nat>

  ghost predicate TreeShape(ram: Ram, kernel: set<nat>, own: Tree)
  {
    && Root in own
    && (forall n :: n in own ==>
          InRange(n) && own[n] in ram && own[n] % 4096 == 0 && own[n] < PADDR_LIMIT && own[n] !in kernel)
    && (forall n, m :: n in own && m in own && n != m ==> own[n] != own[m])
    && (forall n :: n in own && !n.Root? ==> Parent(n) in own)
  }

  ghost predicate EntryOk(ram: Ram, cr3: nat, own: Tree, n: Node, i: nat)
    requires n in own && InRange(n) && !n.Pt? && i < 512 && own[n] in ram
  {
    Word(ram[own[n]], i) == if Child(n, i) in own then TableEntry(own[Child(n, i)]) else SharedEntry(ram, cr3, n, i)
  }

  /** The ownership invariant: private tables form a tree of their own; every entry that does
      not lead to a private table is the kernel's entry, up to the USER bit. */
  ghost predicate TreeOk(ram: Ram, cr3: nat, kernel: set<nat>, own: Tree)
  {
    && KernelOk(ram, cr3, kernel)
    && (forall q :: q in kernel ==> q < PADDR_LIMIT)
    && TreeShape(ram, kernel, own)
    && (forall n, i :: n in own && !n.Pt? && 0 <= i < 512 ==> EntryOk(ram, cr3, own, n, i))
    && (forall n :: n in own ==> Open(ram, cr3, n))
  }

  /** The kernel's own translation from a position on. */
  function KWalk(ram: Ram, cr3: nat, n: Node, va: nat): Option<Translation>
    requires InRange(n)
  {
    match KTable(ram, cr3, n)
    case None => None
    case Some(t) => WalkFrom(ram, t, Level(n), va)
  }

  // What a process sees

  function PteTranslation(e: nat, va: nat): Option<Translation>
  {
    if Present(e) then Some(Translation(HwBase(e) + va % 4096, Writable(e), User(e))) else None
  }

  /** One step through an entry that leads to a private table. */
  lemma PrivateStep(ram: Ram, cr3: nat, kernel: set<nat>, own: Tree, va: nat, level: nat)
    requires TreeOk(ram, cr3, kernel, own) && level < 3
    requires NodeAt(va, level) in own && NodeAt(va, level + 1) in own
    ensures own[NodeAt(va, level)] in ram && own[NodeAt(va, level + 1)] in ram
    ensures WalkFrom(ram, own[NodeAt(va, level)], level, va) == WalkFrom(ram, own[NodeAt(va, level + 1)], level + 1, va)
  {
    hide Present, Large, Writable, User, HwBase, Word, TableEntry, KEntry, KTable, Open, KernelOk;
    var n, i := NodeAt(va, level), Index(va, level);
    assert Child(n, i) == NodeAt(va, level + 1);
    assert EntryOk(ram, cr3, own, n, i);
    TableEntryBits(own[Child(n, i)]);
  }

  lemma PrivatePath(ram: Ram, cr3: nat, kernel: set<nat>, own: Tree, va: nat)
    requires TreeOk(ram, cr3, kernel, own) && NodeAt(va, 3) in own
    ensures NodeAt(va, 2) in own && NodeAt(va, 1) in own && NodeAt(va, 0) in own && NodeAt(va, 0) == Root
    ensures forall level :: 0 <= level < 4 ==> own[NodeAt(va, level)] in ram
  {
    assert Parent(NodeAt(va, 3)) == NodeAt(va, 2) && Parent(NodeAt(va, 2)) == NodeAt(va, 1);
  }

  /** On a path with a private page table, the process sees exactly that table's entry. */
  lemma PrivateWalk(ram: Ram, cr3: nat, kernel: set<nat>, own: Tree, va: nat)
    requires TreeOk(ram, cr3, kernel, own) && NodeAt(va, 3) in own
    ensures own[NodeAt(va, 3)] in ram
    ensures Walk(ram, own[Root], va) == PteTranslation(Word(ram[own[NodeAt(va, 3)]], Index(va, 3)), va)
  {
    hide TreeOk, Word, Index;
    PrivatePath(ram, cr3, kernel, own, va);
    PrivateStep(ram, cr3, kernel, own, va, 0);
    PrivateStep(ram, cr3, kernel, own, va, 1);
    PrivateStep(ram, cr3, kernel, own, va, 2);
  }

  /** The kernel's walk, one level down. */
  lemma KWalkStep(ram: Ram, cr3: nat, kernel: set<nat>, va: nat, level: nat)
    requires KernelOk(ram, cr3, kernel) && level < 3 && forall q :: q in kernel ==> q < PADDR_LIMIT
    requires Open(ram, cr3, NodeAt(va, level + 1)) || KTable(ram, cr3, NodeAt(va, level + 1)).Some?
    ensures SamePlace(KWalk(ram, cr3, NodeAt(va, level), va), KWalk(ram, cr3, NodeAt(va, level + 1), va))
  {
    hide Present, Large, Writable, User, Base, HwBase, Word, Index;
    var n, i := NodeAt(va, level), Index(va, level);
    var c := NodeAt(va, level + 1);
    var e := KEntry(ram, cr3, n, i);
    assert Parent(c) == n && LastIndex(c) == i;
    ZeroNotPresent();
    if KTable(ram, cr3, c).Some? {
      HwBaseIsBase(e);
    }
  }

  /** One step through an entry shared with the kernel. */
  lemma SharedStep(ram: Ram, cr3: nat, kernel: set<nat>, own: Tree, va: nat, level: nat)
    requires TreeOk(ram, cr3, kernel, own) && level < 3
    requires NodeAt(va, level) in own && NodeAt(va, level + 1) !in own
    ensures SamePlace(KWalk(ram, cr3, NodeAt(va, level), va), WalkFrom(ram, own[NodeAt(va, level)], level, va))
  {
    hide Present, Large, Writable, User, Base, HwBase, LargeBase, Word, Open, Index, Shared, KTable;
    var n, i := NodeAt(va, level), Index(va, level);
    var e := KEntry(ram, cr3, n, i);
    assert Child(n, i) == NodeAt(va, level + 1);
    assert EntryOk(ram, cr3, own, n, i);
    SharedBits(n.Root?, e);
    ZeroNotPresent();
  }

  /** A shared entry leads where the kernel's entry leads. */
  lemma SharedBits(root: bool, e: nat)
    requires e < WORD_LIMIT
    ensures var f := Shared(root, e);
      && (Present(f) <==> Present(e))
      && (Present(e) ==> (Writable(f) <==> Writable(e)) && (User(f) <==> !root || User(e)) && (Large(f) <==> Large(e)))
      && (Present(e) ==>
            HwBase(f) == HwBase(e) && LargeBase(f, 1) == LargeBase(e, 1) && LargeBase(f, 2) == LargeBase(e, 2))
  {
    OrUserBits(e);
    ZeroNotPresent();
  }

  lemma ZeroNotPresent()
    ensures !Present(0)
  {
  }

  /** Everywhere else it sees what the kernel sees. */
  lemma {:induction false} SharedWalk(ram: Ram, cr3: nat, kernel: set<nat>, own: Tree, va: nat, level: nat)
    requires TreeOk(ram, cr3, kernel, own) && level < 3
    requires NodeAt(va, level) in own && NodeAt(va, 3) !in own
    ensures SamePlace(KWalk(ram, cr3, NodeAt(va, level), va), WalkFrom(ram, own[NodeAt(va, level)], level, va))
    decreases 3 - level
  {
    var n, i := NodeAt(va, level), Index(va, level);
    assert Child(n, i) == NodeAt(va, level + 1);
    if Child(n, i) in own {
      PrivateStep(ram, cr3, kernel, own, va, level);
      SharedWalk(ram, cr3, kernel, own, va, level + 1);
      KWalkStep(ram, cr3, kernel, va, level);
    } else {
      SharedStep(ram, cr3, kernel, own, va, level);
    }
  }

  /** Above the last private table, permissions are not restricted. */
  lemma {:induction false} PrivateDown(ram: Ram, cr3: nat, kernel: set<nat>, own: Tree, va: nat, level: nat)
    requires TreeOk(ram, cr3, kernel, own) && level < 3 && NodeAt(va, level) in own
    ensures Root in own && Walk(ram, own[Root], va) == WalkFrom(ram, own[NodeAt(va, level)], level, va)
  {
    hide TreeOk, Word, Index, WalkFrom;
    if level > 0 {
      ParentIn(ram, cr3, kernel, own, va, level);
      PrivateDown(ram, cr3, kernel, own, va, level - 1);
      PrivateStep(ram, cr3, kernel, own, va, level - 1);
    } else {
      RootIn(ram, cr3, kernel, own);
    }
  }

  lemma RootIn(ram: Ram, cr3: nat, kernel: set<nat>, own: Tree)
    requires TreeOk(ram, cr3, kernel, own)
    ensures Root in own
  {
  }

  lemma ParentIn(ram: Ram, cr3: nat, kernel: set<nat>, own: Tree, va: nat, level: nat)
    requires TreeOk(ram, cr3, kernel, own) && 0 < level < 4 && NodeAt(va, level) in own
    ensures NodeAt(va, level - 1) in own
  {
    hide KernelOk, EntryOk, Index, Open;
    assert Parent(NodeAt(va, level)) == NodeAt(va, level - 1);
  }

  /** What the kernel's entry `e` translates to when it is reached through a private table: the
      entry itself no longer keeps the user out, what lies below still does. */
  function Widened(ram: Ram, e: nat, level: nat, va: nat): Option<Translation>
    requires level < 3
  {
    if !Present(e) then None
    else if Large(e) && level > 0 then Some(Translation(LargeBase(e, level) + va % Span(level), Writable(e), true))
    else
      match WalkFrom(ram, HwBase(e), level + 1, va)
      case None => None
      case Some(t) => Some(Translation(t.paddr, t.writable && Writable(e), t.user && (level > 0 || User(e))))
  }

  /** The exact translation of an address without a private page table, `level` being that of its
      last private table. */
  lemma SharedExact(ram: Ram, cr3: nat, kernel: set<nat>, own: Tree, va: nat, level: nat)
    requires TreeOk(ram, cr3, kernel, own) && level < 3 && NodeAt(va, level) in own && NodeAt(va, level + 1) !in own
    ensures Root in own && Walk(ram, own[Root], va) == Widened(ram,
      KEntry(ram, cr3, NodeAt(va, level), Index(va, level)), level, va)
  {
    hide Present, Large, Writable, User, Base, HwBase, LargeBase, Word, Open, Index, Shared, KTable, KEntry;
    PrivateDown(ram, cr3, kernel, own, va, level);
    var n, i := NodeAt(va, level), Index(va, level);
    assert Child(n, i) == NodeAt(va, level + 1);
    assert EntryOk(ram, cr3, own, n, i);
    SharedBits(n.Root?, KEntry(ram, cr3, n, i));
    ZeroNotPresent();
  }

  /** Which kernel pages a private copy of a directory opens to the user: every large page in it,
      and of the smaller ones exactly those whose entries further down allow it already. */
  lemma OpenedToUser(ram: Ram, cr3: nat, kernel: set<nat>, own: Tree, va: nat, level: nat)
    requires TreeOk(ram, cr3, kernel, own) && 0 < level < 3 && NodeAt(va, level) in own && NodeAt(va, level + 1) !in own
    requires Walk(ram, own[Root], va).Some?
    ensures var e := KEntry(ram, cr3, NodeAt(va, level), Index(va, level));
      && Present(e)
      && (Walk(ram, own[Root], va).value.user <==>
            Large(e) || (WalkFrom(ram, HwBase(e), level + 1, va).Some? &&
              WalkFrom(ram, HwBase(e), level + 1, va).value.user))
  {
    hide Present, Large, Writable, User, HwBase, LargeBase, Word, Index, KEntry, TreeOk;
    SharedExact(ram, cr3, kernel, own, va, level);
  }

  /** Nothing but the tables decides what a process sees. */
  lemma TreeWalkSame(ram: Ram, ram': Ram, cr3: nat, kernel: set<nat>, own: Tree, va: nat)
    requires TreeOk(ram, cr3, kernel, own) && TreeOk(ram', cr3, kernel, own) && ram'.Keys == ram.Keys
    requires forall q :: q in kernel ==> ram'[q] == ram[q]
    requires forall n :: n in own ==> ram'[own[n]] == ram[own[n]]
    ensures Root in own && Walk(ram', own[Root], va) == Walk(ram, own[Root], va)
  {
    hide Present, Large, Writable, User, Base, HwBase, LargeBase, Word, Open, Index, EntryOk, KTable, KEntry, WalkFrom,
      KernelOk;
    RootIn(ram, cr3, kernel, own);
    if NodeAt(va, 3) in own {
      PrivateWalk(ram, cr3, kernel, own, va);
      PrivateWalk(ram', cr3, kernel, own, va);
    } else {
      var level := if NodeAt(va, 2) in own then 2 else if NodeAt(va, 1) in own then 1 else 0;
      SharedExact(ram, cr3, kernel, own, va, level);
      SharedExact(ram', cr3, kernel, own, va, level);
      BelowSame(ram, ram', cr3, kernel, va, level);
    }
  }

  lemma BelowSame(ram: Ram, ram': Ram, cr3: nat, kernel: set<nat>, va: nat, level: nat)
    requires KernelOk(ram, cr3, kernel) && ram'.Keys == ram.Keys && level < 3
    requires forall q :: q in kernel ==> q < PADDR_LIMIT
    requires forall q :: q in kernel ==> ram'[q] == ram[q]
    ensures var e := KEntry(ram, cr3, NodeAt(va, level), Index(va, level));
      && KEntry(ram', cr3, NodeAt(va, level), Index(va, level)) == e
      && Widened(ram', e, level, va) == Widened(ram, e, level, va)
  {
    hide Large, Writable, User, Base, HwBase, LargeBase, Word, Index, WalkFrom;
    var n, i, c := NodeAt(va, level), Index(va, level), NodeAt(va, level + 1);
    var e := KEntry(ram, cr3, n, i);
    KernelSame(ram, ram', cr3, kernel, n);
    KernelSame(ram, ram', cr3, kernel, c);
    KernelWalkSame(ram, ram', cr3, kernel, va, level + 1);
    assert Parent(c) == n && LastIndex(c) == i;
    if KTable(ram, cr3, c).Some? {
      HwBaseIsBase(e);
    }
  }

  // Growing the tree

  lemma KernelSameAll(ram: Ram, ram': Ram, cr3: nat, kernel: set<nat>)
    requires KernelOk(ram, cr3, kernel) && ram'.Keys == ram.Keys
    requires forall q :: q in kernel ==> ram'[q] == ram[q]
    ensures KernelOk(ram', cr3, kernel)
    ensures forall n :: InRange(n) ==>
      KTable(ram', cr3, n) == KTable(ram, cr3, n) && (Open(ram', cr3, n) <==> Open(ram, cr3, n))
    ensures forall n, i :: InRange(n) && 0 <= i < 512 ==> KEntry(ram', cr3, n, i) == KEntry(ram, cr3, n, i)
  {
    hide KTable, KEntry, Open;
    forall n | InRange(n)
      ensures KTable(ram', cr3, n) == KTable(ram, cr3, n)
      ensures forall i :: 0 <= i < 512 ==> KEntry(ram', cr3, n, i) == KEntry(ram, cr3, n, i)
    {
      KernelSame(ram, ram', cr3, kernel, n);
    }
    forall n | InRange(n)
      ensures Open(ram', cr3, n) <==> Open(ram, cr3, n)
    {
      OpenSame(ram, ram', cr3, n);
    }
  }

  lemma OpenSame(ram: Ram, ram': Ram, cr3: nat, n: Node)
    requires InRange(n)
    requires forall m, i :: InRange(m) && 0 <= i < 512 ==> KEntry(ram', cr3, m, i) == KEntry(ram, cr3, m, i)
    ensures Open(ram', cr3, n) <==> Open(ram, cr3, n)
  {
    hide KTable, KEntry, Present, Large;
  }

  /** `ram'` and `own'` differ from `ram` and `own` by one private table put under entry `i` of `n`. */
  ghost predicate Installed(ram: Ram, own: Tree, n: Node, i: nat, p: nat, ram': Ram, own': Tree)
    requires n in own && !n.Pt? && i < 512
  {
    && own' == own[Child(n, i) := p]
    && ram'.Keys == ram.Keys && own[n] in ram
    && (forall q :: q in ram && q != p && q != own[n] ==> ram'[q] == ram[q])
    && (forall j :: 0 <= j < 512 ==> Word(ram'[own[n]], j) == if j == i then TableEntry(p) else Word(ram[own[n]], j))
  }

  lemma InstallShape(ram: Ram, kernel: set<nat>, own: Tree, n: Node, i: nat, p: nat, ram': Ram, own': Tree)
    requires TreeShape(ram, kernel, own) && n in own && !n.Pt? && i < 512 && Child(n, i) !in own
    requires p in ram && p % 4096 == 0 && p < PADDR_LIMIT && p !in kernel && forall m :: m in own ==> own[m] != p
    requires Installed(ram, own, n, i, p, ram', own')
    ensures TreeShape(ram', kernel, own')
    ensures forall m :: m in own && m != n ==> ram'[own[m]] == ram[own[m]]
    ensures forall q :: q in kernel && q in ram ==> ram'[q] == ram[q]
  {
    assert Parent(Child(n, i)) == n;
  }

  /** Putting a private table over an unclaimed entry keeps the ownership invariant. */
  lemma InstallKeepsTree(ram: Ram, cr3: nat, kernel: set<nat>, own: Tree, n: Node, i: nat, p: nat, ram': Ram,
      own': Tree)
    requires TreeOk(ram, cr3, kernel, own) && n in own && !n.Pt? && i < 512
    requires Child(n, i) !in own && Open(ram, cr3, Child(n, i))
    requires p in ram && p % 4096 == 0 && p < PADDR_LIMIT && p !in kernel && forall m :: m in own ==> own[m] != p
    requires Installed(ram, own, n, i, p, ram', own')
    requires !Child(n, i).Pt? ==> forall j :: 0 <= j < 512 ==> Word(ram'[p], j) == SharedEntry(ram, cr3, Child(n, i), j)
    ensures TreeOk(ram', cr3, kernel, own')
  {
    hide KTable, KEntry, Word, Open, Shared, TableEntry;
    var c := Child(n, i);
    InstallShape(ram, kernel, own, n, i, p, ram', own');
    KernelSameAll(ram, ram', cr3, kernel);
    forall m, j | m in own' && !m.Pt? && 0 <= j < 512
      ensures EntryOk(ram', cr3, own', m, j)
    {
      ChildInjective(m, j, n, i);
      if m == c {
        NoGrandchild(ram, kernel, own, c, j);
      } else {
        assert EntryOk(ram, cr3, own, m, j);
      }
    }
  }

  lemma ChildInjective(m: Node, j: nat, n: Node, i: nat)
    requires !m.Pt? && !n.Pt?
    ensures Child(m, j) == Child(n, i) <==> m == n && j == i
    ensures Child(n, i) != n && Parent(Child(m, j)) == m
  {
  }

  lemma NoGrandchild(ram: Ram, kernel: set<nat>, own: Tree, c: Node, j: nat)
    requires TreeShape(ram, kernel, own) && c !in own && !c.Pt?
    ensures Child(c, j) !in own
  {
    assert Parent(Child(c, j)) == c;
  }

  /** Writing entries of a private page table keeps the invariant. */
  lemma PteKeepsTree(ram: Ram, cr3: nat, kernel: set<nat>, own: Tree, n: Node, ram': Ram)
    requires TreeOk(ram, cr3, kernel, own) && n in own && n.Pt?
    requires ram'.Keys == ram.Keys && forall q :: q in ram && q != own[n] ==> ram'[q] == ram[q]
    ensures TreeOk(ram', cr3, kernel, own)
  {
    hide KTable, KEntry, Word, Open, Shared, TableEntry;
    KernelSameAll(ram, ram', cr3, kernel);
    forall m, j | m in own && !m.Pt? && 0 <= j < 512
      ensures EntryOk(ram', cr3, own, m, j)
    {
      assert EntryOk(ram, cr3, own, m, j);
    }
  }

  // Effects on translations

  ghost predicate SameFrame(t: Option<Translation>, t': Option<Translation>)
  {
    match (t, t')
    case (None, None) => true
    case (Some(x), Some(y)) => x.paddr == y.paddr
    case _ => false
  }

  /** The tree grew, but no private page table it already had was touched and none was added
      except an empty one for `va`. */
  ghost predicate Grew(ram: Ram, kernel: set<nat>, own: Tree, va: nat, ram': Ram, own': Tree)
  {
    && ram'.Keys == ram.Keys
    && (forall q :: q in kernel && q in ram ==> ram'[q] == ram[q])
    && (forall n :: n in own ==> n in own' && own'[n] == own[n])
    && (forall n :: n in own && n.Pt? && own[n] in ram ==> ram'[own[n]] == ram[own[n]])
    && (forall n :: n in own' && n.Pt? && n !in own ==> n == NodeAt(va, 3) && own'[n] in ram' && Empty(ram'[own'[n]]))
  }

  ghost predicate Empty(f: Frame)
  {
    forall i :: 0 <= i < 512 ==> Word(f, i) == 0
  }

  lemma GrewTrans(ram: Ram, kernel: set<nat>, own: Tree, va: nat, ram1: Ram, own1: Tree, ram2: Ram, own2: Tree)
    requires Grew(ram, kernel, own, va, ram1, own1) && Grew(ram1, kernel, own1, va, ram2, own2)
    ensures Grew(ram, kernel, own, va, ram2, own2)
  {
  }

  /** Growing the tree changes no translation: shared pages keep their frame, private pages
      their whole translation. */
  lemma GrewKeepsWalk(ram: Ram, cr3: nat, kernel: set<nat>, own: Tree, va: nat, ram': Ram, own': Tree, vb: nat)
    requires TreeOk(ram, cr3, kernel, own) && TreeOk(ram', cr3, kernel, own') && Grew(ram, kernel, own, va, ram', own')
    ensures SameFrame(Walk(ram, own[Root], vb), Walk(ram', own'[Root], vb))
    ensures NodeAt(vb, 3) in own ==> Walk(ram', own'[Root], vb) == Walk(ram, own[Root], vb)
  {
    hide Present, Large, Writable, User, HwBase, Word, KTable, KEntry, EntryOk, KernelOk;
    var n := NodeAt(vb, 3);
    KernelWalkSame(ram, ram', cr3, kernel, vb, 0);
    if n in own {
      PrivateWalk(ram, cr3, kernel, own, vb);
      PrivateWalk(ram', cr3, kernel, own', vb);
    } else {
      SharedWalk(ram, cr3, kernel, own, vb, 0);
      if n in own' {
        PrivateWalk(ram', cr3, kernel, own', vb);
        ZeroNotPresent();
        PrivatePath(ram', cr3, kernel, own', vb);
        assert Open(ram', cr3, n) && Open(ram', cr3, NodeAt(vb, 2));
        KernelHole(ram', cr3, kernel, vb);
      } else {
        SharedWalk(ram', cr3, kernel, own', vb, 0);
      }
    }
  }

  lemma {:induction false} KernelWalkSame(ram: Ram, ram': Ram, cr3: nat, kernel: set<nat>, va: nat, level: nat)
    requires KernelOk(ram, cr3, kernel) && ram'.Keys == ram.Keys && level < 4
    requires forall q :: q in kernel ==> q < PADDR_LIMIT
    requires forall q :: q in kernel && q in ram ==> ram'[q] == ram[q]
    ensures KWalk(ram', cr3, NodeAt(va, level), va) == KWalk(ram, cr3, NodeAt(va, level), va)
    decreases 4 - level
  {
    hide Large, Writable, User, Base, HwBase, Word, Index;
    var n, i := NodeAt(va, level), Index(va, level);
    KernelSame(ram, ram', cr3, kernel, n);
    if level < 3 {
      var c := NodeAt(va, level + 1);
      assert Parent(c) == n && LastIndex(c) == i;
      if KTable(ram, cr3, c).Some? {
        HwBaseIsBase(KEntry(ram, cr3, n, i));
      }
      KernelWalkSame(ram, ram', cr3, kernel, va, level + 1);
      KernelSame(ram, ram', cr3, kernel, c);
    }
  }

  /** Where a private page table may go, the kernel maps nothing. */
  lemma KernelHole(ram: Ram, cr3: nat, kernel: set<nat>, va: nat)
    requires KernelOk(ram, cr3, kernel) && Open(ram, cr3, NodeAt(va, 2)) && Open(ram, cr3, NodeAt(va, 3))
    requires forall q :: q in kernel ==> q < PADDR_LIMIT
    ensures KWalk(ram, cr3, Root, va) == None
  {
    KWalkStep(ram, cr3, kernel, va, 0);
    KWalkStep(ram, cr3, kernel, va, 1);
    KWalkStep(ram, cr3, kernel, va, 2);
    assert KTable(ram, cr3, NodeAt(va, 3)) == None;
  }

  // A store into a page table of the kernel

  /** The kernel reaches the table only at position `n`. */
  ghost predicate OnlyAt(ram: Ram, cr3: nat, n: Node, t: nat)
  {
    InRange(n) && forall m :: InRange(m) && KTable(ram, cr3, m) == Some(t) ==> m == n
  }

  /** Nothing but the frame `t` differs. */
  ghost predicate OnlyFrame(ram: Ram, t: nat, ram': Ram)
  {
    ram'.Keys == ram.Keys && forall q :: q in ram && q != t ==> ram'[q] == ram[q]
  }

  lemma {:induction false} StoreKeepsTable(ram: Ram, cr3: nat, pt: Node, t: nat, ram': Ram, n: Node)
    requires pt.Pt? && OnlyAt(ram, cr3, pt, t) && OnlyFrame(ram, t, ram') && InRange(n)
    ensures KTable(ram', cr3, n) == KTable(ram, cr3, n)
    ensures n != pt ==> forall i :: 0 <= i < 512 ==> KEntry(ram', cr3, n, i) == KEntry(ram, cr3, n, i)
    decreases Level(n)
  {
    if !n.Root? {
      StoreKeepsTable(ram, cr3, pt, t, ram', Parent(n));
      assert KEntry(ram', cr3, Parent(n), LastIndex(n)) == KEntry(ram, cr3, Parent(n), LastIndex(n));
    }
  }

  /** Such a store keeps every process tree over that kernel. */
  lemma StoreKeepsTree(ram: Ram, cr3: nat, kernel: set<nat>, own: Tree, pt: Node, t: nat, ram': Ram)
    requires TreeOk(ram, cr3, kernel, own) && pt.Pt? && OnlyAt(ram, cr3, pt, t) && OnlyFrame(ram, t, ram') &&
      t in kernel
    ensures TreeOk(ram', cr3, kernel, own)
  {
    hide KTable, KEntry, Word, Shared, TableEntry, Present, Large, OnlyAt;
    forall n | InRange(n)
      ensures KTable(ram', cr3, n) == KTable(ram, cr3, n)
      ensures !n.Pt? ==> forall i :: 0 <= i < 512 ==> KEntry(ram', cr3, n, i) == KEntry(ram, cr3, n, i)
    {
      StoreKeepsTable(ram, cr3, pt, t, ram', n);
    }
    forall n, i | n in own && !n.Pt? && 0 <= i < 512
      ensures EntryOk(ram', cr3, own, n, i)
    {
      assert EntryOk(ram, cr3, own, n, i);
    }
  }

  /** What an entry makes of the translation below it. */
  function Through(e: nat, level: nat, va: nat, below: Option<Translation>): Option<Translation>
  {
    if !Present(e) then None
    else if Large(e) && level > 0 then Some(Translation(LargeBase(e, level) + va % Span(level), Writable(e), User(e)))
    else match below
      case None => None
      case Some(t) => Some(Translation(t.paddr, t.writable && Writable(e), t.user && User(e)))
  }

  lemma KWalkThrough(ram: Ram, cr3: nat, kernel: set<nat>, va: nat, level: nat)
    requires KernelOk(ram, cr3, kernel) && level < 3 && forall q :: q in kernel ==> q < PADDR_LIMIT
    ensures KWalk(ram, cr3, NodeAt(va, level), va) ==
      Through(KEntry(ram, cr3, NodeAt(va, level), Index(va, level)), level, va,
        KWalk(ram, cr3, NodeAt(va, level + 1), va))
  {
    hide Present, Large, Writable, User, Base, HwBase, LargeBase, Word, Index;
    var n, i, c := NodeAt(va, level), Index(va, level), NodeAt(va, level + 1);
    assert Parent(c) == n && LastIndex(c) == i;
    ZeroNotPresent();
    if KTable(ram, cr3, c).Some? {
      HwBaseIsBase(KEntry(ram, cr3, n, i));
    }
  }

  /** An address translates as before unless it goes through the entry that was stored. */
  lemma {:induction false} StoreKeepsWalk(ram: Ram, cr3: nat, kernel: set<nat>, pt: Node, t: nat, ram': Ram, va: nat,
      level: nat)
    requires KernelOk(ram, cr3, kernel) && pt.Pt? && OnlyAt(ram, cr3, pt, t) && OnlyFrame(ram, t, ram') && level < 4
    requires forall q :: q in kernel ==> q < PADDR_LIMIT
    requires NodeAt(va, 3) == pt && t in ram ==> Word(ram'[t], Index(va, 3)) == Word(ram[t], Index(va, 3))
    ensures KWalk(ram', cr3, NodeAt(va, level), va) == KWalk(ram, cr3, NodeAt(va, level), va)
    decreases 4 - level
  {
    hide Word, Index, KTable, KEntry, WalkFrom, Through, OnlyAt;
    StoreKeepsTable(ram, cr3, pt, t, ram', NodeAt(va, level));
    if level < 3 {
      StoreKeepsKernel(ram, cr3, kernel, pt, t, ram');
      KWalkThrough(ram, cr3, kernel, va, level);
      KWalkThrough(ram', cr3, kernel, va, level);
      StoreKeepsWalk(ram, cr3, kernel, pt, t, ram', va, level + 1);
    } else {
      LastSame(ram, ram', cr3, kernel, pt, t, va);
    }
  }

  lemma StoreKeepsKernel(ram: Ram, cr3: nat, kernel: set<nat>, pt: Node, t: nat, ram': Ram)
    requires KernelOk(ram, cr3, kernel) && pt.Pt? && OnlyAt(ram, cr3, pt, t) && OnlyFrame(ram, t, ram')
    ensures KernelOk(ram', cr3, kernel)
  {
    hide KTable, OnlyAt;
    forall n | InRange(n)
      ensures KTable(ram', cr3, n) == KTable(ram, cr3, n)
    {
      StoreKeepsTable(ram, cr3, pt, t, ram', n);
    }
  }

  lemma LastSame(ram: Ram, ram': Ram, cr3: nat, kernel: set<nat>, pt: Node, t: nat, va: nat)
    requires KernelOk(ram, cr3, kernel) && OnlyAt(ram, cr3, pt, t) && OnlyFrame(ram, t, ram')
    requires KTable(ram', cr3, NodeAt(va, 3)) == KTable(ram, cr3, NodeAt(va, 3))
    requires NodeAt(va, 3) == pt && t in ram ==> Word(ram'[t], Index(va, 3)) == Word(ram[t], Index(va, 3))
    ensures KWalk(ram', cr3, NodeAt(va, 3), va) == KWalk(ram, cr3, NodeAt(va, 3), va)
  {
    hide Word, Index, KTable, Present, Writable, User, HwBase, NodeAt;
  }

  /** Where the kernel has a page table, its walk reads that table's entry. */
  lemma TableWalk(ram: Ram, cr3: nat, kernel: set<nat>, va: nat, t: nat)
    requires KernelOk(ram, cr3, kernel) && KTable(ram, cr3, NodeAt(va, 3)) == Some(t)
    requires forall q :: q in kernel ==> q < PADDR_LIMIT
    ensures t in ram && SamePlace(Walk(ram, cr3, va), PteTranslation(Word(ram[t], Index(va, 3)), va))
  {
    hide Large, Writable, User, Base, HwBase, Word, Index, WalkFrom, KEntry;
    TableAbove(ram, cr3, va);
    KWalkStep(ram, cr3, kernel, va, 0);
    KWalkStep(ram, cr3, kernel, va, 1);
    KWalkStep(ram, cr3, kernel, va, 2);
    assert KWalk(ram, cr3, NodeAt(va, 3), va) == WalkFrom(ram, t, 3, va);
    LastStep(ram, t, va);
  }

  lemma LastStep(ram: Ram, t: nat, va: nat)
    requires t in ram
    ensures WalkFrom(ram, t, 3, va) == PteTranslation(Word(ram[t], Index(va, 3)), va)
  {
  }

  lemma TableAbove(ram: Ram, cr3: nat, va: nat)
    requires KTable(ram, cr3, NodeAt(va, 3)).Some?
    ensures KTable(ram, cr3, NodeAt(va, 2)).Some? && KTable(ram, cr3, NodeAt(va, 1)).Some? &&
      !Open(ram, cr3, NodeAt(va, 3))
  {
    hide Large, Base, Word, Index;
    ZeroNotPresent();
    assert Parent(NodeAt(va, 3)) == NodeAt(va, 2) && Parent(NodeAt(va, 2)) == NodeAt(va, 1);
  }

  /** The entry `e` is stored for `va` into the page table `t` of the kernel. */
  ghost predicate StoredEntry(ram: Ram, cr3: nat, va: nat, t: nat, e: nat, ram': Ram)
  {
    && t in ram && e < WORD_LIMIT && KTable(ram, cr3, NodeAt(va, 3)) == Some(t) && OnlyAt(ram, cr3, NodeAt(va, 3), t)
    && ram' == ram[t := SetWord(ram[t], Index(va, 3), e)]
  }

  /** Who sees such an entry: the kernel and every process over it see it at that page. */
  lemma StoreSeen(ram: Ram, cr3: nat, kernel: set<nat>, own: Tree, va: nat, t: nat, e: nat, ram': Ram, vb: nat)
    requires TreeOk(ram, cr3, kernel, own) && StoredEntry(ram, cr3, va, t, e, ram') && vb / 4096 == va / 4096
    ensures TreeOk(ram', cr3, kernel, own) && Root in own
    ensures SamePlace(Walk(ram', cr3, vb), PteTranslation(e, vb)) &&
      SameFrame(PteTranslation(e, vb), Walk(ram', own[Root], vb))
  {
    hide KTable, KEntry, Word, SetWord, Index, Present, Large, HwBase, Writable, User, OnlyAt, EntryOk, WalkFrom, Open,
      NodeAt, Walk, KWalk;
    TopWalk(ram', cr3, vb);
    StoreKeepsTree(ram, cr3, kernel, own, NodeAt(va, 3), t, ram');
    StoreKeepsTable(ram, cr3, NodeAt(va, 3), t, ram', NodeAt(va, 3));
    PageIndices(va, vb);
    TableAbove(ram', cr3, vb);
    TableWalk(ram', cr3, kernel, vb, t);
    SharedWalk(ram', cr3, kernel, own, vb, 0);
    TopTree(ram', own, vb);
  }

  /** And at no other page. */
  lemma StoreUnseen(ram: Ram, cr3: nat, kernel: set<nat>, own: Tree, va: nat, t: nat, e: nat, ram': Ram, vb: nat)
    requires TreeOk(ram, cr3, kernel, own) && StoredEntry(ram, cr3, va, t, e, ram')
    requires va < VADDR_LIMIT && vb < VADDR_LIMIT && vb / 4096 != va / 4096
    ensures Root in own && Walk(ram', cr3, vb) == Walk(ram, cr3, vb) &&
      SameFrame(Walk(ram, own[Root], vb), Walk(ram', own[Root], vb))
  {
    hide KTable, KEntry, Word, SetWord, Index, Present, Large, HwBase, Writable, User, OnlyAt, EntryOk, WalkFrom, Open,
      NodeAt, Walk, KWalk;
    var pt := NodeAt(va, 3);
    StoreKeepsTree(ram, cr3, kernel, own, pt, t, ram');
    if NodeAt(vb, 3) == pt && Index(vb, 3) == Index(va, 3) {
      SamePage(va, vb);
    }
    TopWalk(ram, cr3, vb);
    TopWalk(ram', cr3, vb);
    StoreKeepsWalk(ram, cr3, kernel, pt, t, ram', vb, 0);
    if NodeAt(vb, 3) in own {
      PrivateWalk(ram, cr3, kernel, own, vb);
      PrivateWalk(ram', cr3, kernel, own, vb);
    } else {
      TopTree(ram, own, vb);
      TopTree(ram', own, vb);
      SharedWalk(ram, cr3, kernel, own, vb, 0);
      SharedWalk(ram', cr3, kernel, own, vb, 0);
    }
  }

  lemma TopWalk(ram: Ram, cr3: nat, va: nat)
    ensures KWalk(ram, cr3, NodeAt(va, 0), va) == Walk(ram, cr3, va)
  {
  }

  lemma TopTree(ram: Ram, own: Tree, va: nat)
    requires Root in own
    ensures NodeAt(va, 0) == Root && WalkFrom(ram, own[Root], 0, va) == Walk(ram, own[Root], va)
  {
  }
}
