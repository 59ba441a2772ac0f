/** How the parts of the memory pipeline fit together: the methods of objects and address spaces
    are the steps that the run theorems speak of, one process does not notice another one being
    loaded, and a mapping that does reach into the kernel. */
module KernelSteps {
  import opened Memory
  import opened Pmm
  import opened PmmRuns
  import opened VmoObject
  import opened PageTable
  import opened AddressSpaces
  import opened Loader
  import VmoRuns

  // Objects

  /** The object is number `id` of the world. */
  ghost predicate Stands(w: VmoRuns.World, id: nat, vmo: Vmo)
    reads vmo, vmo.phys, vmo.pmm
  {
    && w.states == vmo.pmm.states && w.ram == vmo.phys.ram
    && id in w.vmos && w.vmos[id] == VmoRuns.VmoState(vmo.size, vmo.pages)
  }

  method WriteStep(vmo: Vmo, offset: nat, data: seq<byte>, ghost w: VmoRuns.World, ghost id: nat)
      returns (r: Outcome<nat>, ghost w': VmoRuns.World)
    requires vmo.Valid() && Stands(w, id, vmo)
    modifies vmo`pages, vmo.phys, vmo.pmm`arenas, vmo.pmm`states
    ensures vmo.Valid() && Stands(w', id, vmo) && VmoRuns.Step(w, VmoRuns.WriteOp(id, offset, data, r), w')
  {
    hide Represents, ArenasOk, Homes, Backed, WriteEffect, Charged, Zone;
    r := vmo.Write(offset, data);
    w' := VmoRuns.World(vmo.pmm.states, vmo.phys.ram, w.vmos[id := VmoRuns.VmoState(vmo.size, vmo.pages)], w.tables);
  }

  method CloneStep(vmo: Vmo, ghost w: VmoRuns.World, ghost id: nat, ghost child: nat)
      returns (r: Outcome<Vmo>, ghost w': VmoRuns.World)
    requires vmo.Valid() && Stands(w, id, vmo) && child !in w.vmos
    modifies vmo.phys, vmo.pmm`arenas, vmo.pmm`states
    ensures vmo.Valid()
    ensures r.Ok? ==>
      Stands(w', child, r.value) && Stands(w', id, vmo) && VmoRuns.Step(w, VmoRuns.CloneOp(id, child), w')
  {
    hide Represents, ArenasOk, Homes, Backed, CloneEffect, Charged, Zone, Preserves;
    r := vmo.Clone();
    w' := w;
    if r.Ok? {
      w' := VmoRuns.World(vmo.pmm.states, vmo.phys.ram, w.vmos[child := VmoRuns.VmoState(vmo.size, r.value.pages)],
        w.tables);
    }
  }

  method ResizeStep(vmo: Vmo, size: nat, ghost w: VmoRuns.World, ghost id: nat)
      returns (r: Outcome<()>, ghost w': VmoRuns.World)
    requires vmo.Valid() && Stands(w, id, vmo)
    modifies vmo`size
    ensures vmo.Valid() && Stands(w', id, vmo)
    ensures if r.Ok? then VmoRuns.Step(w, VmoRuns.ResizeOp(id, size), w') else w' == w
  {
    hide Represents, ArenasOk, Homes, Backed;
    r := vmo.Resize(size);
    w' := w.(vmos := w.vmos[id := VmoRuns.VmoState(vmo.size, vmo.pages)]);
    assert w.vmos[id := w.vmos[id]] == w.vmos;
  }

  method CreateStep(phys: PhysMem, pmm: Manager, size: nat, flags: bv32, ghost w: VmoRuns.World, ghost id: nat)
      returns (r: Outcome<Vmo>, ghost w': VmoRuns.World)
    requires w.states == pmm.states && w.ram == phys.ram && id !in w.vmos
    ensures if r.Ok? then Stands(w', id, r.value) && VmoRuns.Step(w, VmoRuns.CreateOp(id, size), w') else w' == w
  {
    r := Vmo.Create(phys, pmm, size, flags);
    w' := w;
    if r.Ok? {
      w' := w.(vmos := w.vmos[id := VmoRuns.VmoState(r.value.size, r.value.pages)]);
    }
  }

  /** Mapping an object into a process is a table step: it never touches an object's bytes. */
  method MapStep(space: AddressSpace, vmo: Vmo, vaddr: nat, size: nat, flags: nat, ghost w: VmoRuns.World)
      returns (r: Outcome<()>, ghost w': VmoRuns.World)
    requires space.Valid() && vmo.phys == space.phys && vmo.pmm == space.pmm && vmo.Valid()
    requires Outside(vmo.pages, TreeFrames(space.own)) && vaddr + PageCount(size) * 4096 <= VADDR_LIMIT
    requires Room(space.phys.ram, space.cr3, vaddr / 4096, PageCount(size))
    requires w.states == space.pmm.states && w.ram == space.phys.ram && TreeFrames(space.own) <= w.tables
    modifies space, space.phys, space.pmm`arenas, space.pmm`states
    ensures space.Valid() && w'.states == space.pmm.states && w'.ram == space.phys.ram &&
      TreeFrames(space.own) <= w'.tables
    ensures exists added: set<nat> :: VmoRuns.Step(w, VmoRuns.TableOp(added), w')
  {
    hide Represents, ArenasOk, Homes, Backed, SpaceOk, SpaceStep, KeptOutside, AllMapped, Paid, Zone, Paths, Room,
      TreeFrames, Outside, PageMissing;
    ghost var was := space.own;
    r := space.MapVmo(vmo, vaddr, size, flags);
    ghost var added := TreeFrames(space.own) - TreeFrames(was);
    w' := VmoRuns.World(space.pmm.states, space.phys.ram, w.vmos, w.tables + added);
    TableStep(w, w', space.kernel, space.cr3, was, space.own);
    assert VmoRuns.Step(w, VmoRuns.TableOp(added), w');
  }

  /** So is making a new process. */
  method NewStep(phys: PhysMem, pmm: Manager, cr3: nat, ghost kernel: set<nat>, ghost w: VmoRuns.World)
      returns (r: Outcome<AddressSpace>, ghost w': VmoRuns.World)
    requires pmm.Valid() && KernelEnv(pmm.states, phys.ram, cr3, kernel) && w.states == pmm.states && w.ram == phys.ram
    modifies phys, pmm`arenas, pmm`states
    ensures pmm.Valid() && w'.states == pmm.states && w'.ram == phys.ram && w'.vmos == w.vmos
    ensures r.Ok? ==> r.value.Valid() && TreeFrames(r.value.own) <= w'.tables
    ensures exists added: set<nat> :: VmoRuns.Step(w, VmoRuns.TableOp(added), w')
  {
    hide Represents, ArenasOk, Homes, KernelEnv, SpaceOk, Charged, Zone, Walk, Preserves;
    r := AddressSpace.New(phys, pmm, cr3, kernel);
    ghost var added := if r.Ok? then {r.value.root} else {};
    if r.Ok? {
      RootAllocated(pmm.states, phys.ram, cr3, kernel, r.value.own);
    }
    PreservesWeaken(w.states, w.ram, pmm.states, phys.ram, w.tables);
    w' := VmoRuns.World(pmm.states, phys.ram, w.vmos, w.tables + added);
    assert VmoRuns.Step(w, VmoRuns.TableOp(added), w');
  }

  lemma RootAllocated(s: States, ram: Ram, cr3: nat, kernel: set<nat>, own: Tree)
    requires SpaceOk(s, ram, cr3, kernel, own) && own.Keys == {Root}
    ensures own[Root] in s && s[own[Root]] == Allocated && TreeFrames(own) == {own[Root]}
  {
    hide TreeOk;
  }

  lemma TableStep(w: VmoRuns.World, w': VmoRuns.World, kernel: set<nat>, cr3: nat, own: Tree, own': Tree)
    requires SpaceStep(w.states, w.ram, kernel, own, w'.states, w'.ram, own') &&
      SpaceOk(w'.states, w'.ram, cr3, kernel, own')
    requires TreeFrames(own) <= w.tables && w'.vmos == w.vmos &&
      w'.tables == w.tables + (TreeFrames(own') - TreeFrames(own))
    ensures TreeFrames(own') <= w'.tables && VmoRuns.Step(w, VmoRuns.TableOp(TreeFrames(own') - TreeFrames(own)), w')
  {
    hide TreeOk, RamOk, KernelUntouched;
    assert forall m :: m in own ==> own[m] in TreeFrames(own);
    forall p | p in TreeFrames(own') - TreeFrames(own)
      ensures p in w.states && w.states[p] == Free && w'.states[p] == Allocated
    {
      var n :| n in own' && own'[n] == p;
    }
  }

  // Processes

  /** The page that the address leads to is in use. */
  ghost predicate LeadsToUsed(s: States, ram: Ram, root: nat, va: nat)
  {
    match Walk(ram, root, va)
    case None => true
    case Some(t) => var frame := t.paddr - t.paddr % 4096; frame in s ==> s[frame] != Free
  }

  /** Whatever touches only Free pages, such as loading another process, changes no translation
      and no byte of a process: it stays valid, each address walks to the same place with the same
      permissions, and reads the same. */
  lemma OtherProcessKept(s: States, ram: Ram, cr3: nat, kernel: set<nat>, own: Tree, s': States, ram': Ram, va: nat)
    requires SpaceOk(s, ram, cr3, kernel, own) && Preserves(s, ram, s', ram', {})
    ensures SpaceOk(s', ram', cr3, kernel, own) && Root in own
    ensures Walk(ram', own[Root], va) == Walk(ram, own[Root], va)
    ensures LeadsToUsed(s, ram, own[Root], va) ==> Fetch(ram', own[Root], va) == Fetch(ram, own[Root], va)
  {
    hide TreeOk, Walk, KeptOutside;
    SpaceStays(s, ram, cr3, kernel, own, s', ram');
    OwnFramesKept(s, ram, cr3, kernel, own, s', ram');
    TreeWalkSame(ram, ram', cr3, kernel, own, va);
  }

  lemma OwnFramesKept(s: States, ram: Ram, cr3: nat, kernel: set<nat>, own: Tree, s': States, ram': Ram)
    requires SpaceOk(s, ram, cr3, kernel, own) && Preserves(s, ram, s', ram', {})
    ensures ram'.Keys == ram.Keys && kernel <= ram.Keys && (forall n :: n in own ==> own[n] in ram)
    ensures forall q :: q in kernel ==> ram'[q] == ram[q]
    ensures forall n :: n in own ==> ram'[own[n]] == ram[own[n]]
  {
    hide EntryOk, Open, KTable, KEntry;
  }

  // A mapping that reaches into the kernel

  /** A table with one entry, at index 0. */
  function OneEntry(e: nat): (f: Frame)
    requires e < WORD_LIMIT
    ensures forall i :: 0 <= i < 512 ==> Word(f, i) == if i == 0 then e else 0
  {
    var zero: Frame := seq(4096, _ => 0);
    assert forall i :: 0 <= i < 512 ==> Word(zero, i) == 0 by {
      forall i | 0 <= i < 512
        ensures Word(zero, i) == 0
      {
        Zeros(zero[8 * i..8 * i + 8]);
      }
    }
    SetWord(zero, 0, e)
  }

  lemma {:induction false} Zeros(b: seq<byte>)
    requires forall i :: 0 <= i < |b| ==> b[i] == 0
    ensures FromLE(b) == 0
  {
    if b != [] {
      Zeros(b[1..]);
    }
  }

  /** The PD's entry for address 0 leads to a page table, or to a 2 MB page at 0x0100_0000, where
      the kernel has its heap. */
  function PdEntry(b: nat, large: bool): nat
  {
    if large then 0x0100_0083 else b + 0x3003
  }

  /** A kernel whose root, PDP and PD for address 0, and the page table if it has one, lie at
      `b`, `b + 0x1000` and so on. */
  function SmallKernel(b: nat, large: bool, p: nat): Frame
    requires Small(b)
  {
    if p == b then OneEntry(b + 0x1003)
    else if p == b + 0x1000 then OneEntry(b + 0x2003)
    else if p == b + 0x2000 then OneEntry(PdEntry(b, large))
    else OneEntry(0)
  }

  /** Below all arenas, or right where the large page is. */
  predicate Small(b: nat)
  {
    b == 0x1000 || b == 0x0100_0000
  }

  function Tables(b: nat, large: bool): set<nat>
  {
    {b, b + 0x1000, b + 0x2000} + if large then {} else {b + 0x3000}
  }

  /** What `map_page` takes for the page table of address 0. */
  function Target(b: nat, large: bool): nat
  {
    if large then 0x0100_0000 else b + 0x3000
  }

  ghost predicate HoldsKernel(ram: Ram, b: nat, large: bool)
  {
    Small(b) && forall p :: p in Tables(b, large) + {Target(b, large)} ==>
      p in ram && ram[p] == SmallKernel(b, large, p)
  }

  lemma EntryBits(p: nat)
    requires p % 4096 == 0
    ensures Present(p + 3) && !Large(p + 3) && Base(p + 3) == p
    ensures Present(0x0100_0083) && Large(0x0100_0083) && Base(0x0100_0083) == 0x0100_0000
  {
    Parts(p, 3);
  }

  ghost predicate SmallTables(ram: Ram, b: nat, large: bool, n: Node)
    requires InRange(n)
  {
    KTable(ram, b, n) ==
      match n
      case Root => Some(b)
      case Pdp(i) => if i == 0 then Some(b + 0x1000) else None
      case Pd(i, j) => if i == 0 && j == 0 then Some(b + 0x2000) else None
      case Pt(i, j, k) => if i == 0 && j == 0 && k == 0 && !large then Some(b + 0x3000) else None
  }

  lemma SmallKernelOk(ram: Ram, b: nat, large: bool)
    requires HoldsKernel(ram, b, large)
    ensures KernelOk(ram, b, Tables(b, large)) && Open(ram, b, NodeAt(0, 2)) && !Open(ram, b, NodeAt(0, 3))
    ensures TakenFrame(ram, b, 0) == Target(b, large) && Index(0, 3) == 0
  {
    hide Word, Present, Large, Base, OneEntry, KTable, SmallTables;
    EntryBits(b);
    EntryBits(b + 0x1000);
    EntryBits(b + 0x2000);
    EntryBits(b + 0x3000);
    ZeroNotPresent();
    assert Index(0, 0) == 0 && Index(0, 1) == 0 && Index(0, 2) == 0 && Index(0, 3) == 0;
    forall n | InRange(n)
      ensures SmallTables(ram, b, large, n)
      ensures KTable(ram, b, n).Some? ==> KTable(ram, b, n).value in Tables(b, large)
    {
      SmallTable(ram, b, large, n);
    }
    KnownTable(ram, b, large, Pdp(0));
    KnownTable(ram, b, large, Pd(0, 0));
  }

  lemma KnownTable(ram: Ram, b: nat, large: bool, n: Node)
    requires n == Pdp(0) || n == Pd(0, 0)
    requires SmallTables(ram, b, large, n)
    ensures KTable(ram, b, n) == Some(if n == Pdp(0) then b + 0x1000 else b + 0x2000)
  {
    hide KTable;
  }

  lemma SmallEntry(ram: Ram, b: nat, large: bool, t: nat, i: nat)
    requires HoldsKernel(ram, b, large) && t in Tables(b, large) && i < 512
    ensures t in ram && Word(ram[t], i) ==
      if i != 0 || t == b + 0x3000 then 0
      else if t == b then b + 0x1003 else if t == b + 0x1000 then b + 0x2003 else PdEntry(b, large)
  {
    hide Word;
  }

  lemma {:induction false} SmallTable(ram: Ram, b: nat, large: bool, n: Node)
    requires HoldsKernel(ram, b, large) && InRange(n)
    ensures SmallTables(ram, b, large, n) && (KTable(ram, b, n).Some? ==> KTable(ram, b, n).value in Tables(b, large))
    decreases Level(n)
  {
    hide Word, Present, Large, Base, OneEntry;
    EntryBits(b + 0x1000);
    EntryBits(b + 0x2000);
    EntryBits(b + 0x3000);
    ZeroNotPresent();
    if !n.Root? {
      SmallTable(ram, b, large, Parent(n));
      if KTable(ram, b, Parent(n)).Some? {
        var t := KTable(ram, b, Parent(n)).value;
        SmallEntry(ram, b, large, t, LastIndex(n));
        assert KEntry(ram, b, Parent(n), LastIndex(n)) == Word(ram[t], LastIndex(n));
      } else {
        assert KEntry(ram, b, Parent(n), LastIndex(n)) == 0;
        assert KTable(ram, b, n) == None;
      }
    }
  }

  lemma BootCovered(states: States, ram: Ram, b: nat, large: bool)
    requires forall p: nat :: p in states <==> OnRun(p, 0x0020_0000, 3584) || OnRun(p, 0x0200_0000, 24576)
    requires forall p: nat :: p in ram <==> p < 0x0800_0000 && p % 4096 == 0
    requires Small(b) && KernelOk(ram, b, Tables(b, large))
    ensures KernelEnv(states, ram, b, Tables(b, large)) && 0 !in states
    ensures forall p :: p in Tables(b, large) + {Target(b, large)} ==> p !in states
  {
    hide KernelOk;
  }

  /** There are pages of both kinds to hand out after boot. */
  lemma EnoughSpare(states: States, home: map<nat, ArenaInfo>)
    requires home.Keys == states.Keys && forall p: nat :: p in states <==>
      OnRun(p, 0x0020_0000, 3584) || OnRun(p, 0x0200_0000, 24576)
    requires forall p: nat :: p in home ==> home[p] == if OnRun(p, 0x0020_0000, 3584) then KERNEL_ARENA else USER_ARENA
    requires forall p: nat :: p in states ==> states[p] == Free
    ensures Spare(states, Zone(home, PMM_ALLOC_FLAG_KERNEL)) >= 3 && Spare(states, Zone(home, PMM_ALLOC_FLAG_USER)) >= 1
  {
    var three, free := {0x0020_0000, 0x0020_1000, 0x0020_2000}, FreeOf(states, Zone(home, PMM_ALLOC_FLAG_KERNEL));
    assert OnRun(0x0020_0000, 0x0020_0000, 3584) && OnRun(0x0020_1000, 0x0020_0000, 3584) &&
      OnRun(0x0020_2000, 0x0020_0000, 3584);
    assert three <= free && free == three + (free - three);
    assert OnRun(0x0200_0000, 0x0200_0000, 24576) && 0x0200_0000 in FreeOf(states, Zone(home, PMM_ALLOC_FLAG_USER));
  }

  lemma NotShort(s: States, s': States, zone: set<nat>, n: nat, need: nat, halted: bool)
    requires Charged(s, s', zone, need, halted) && need <= n <= Spare(s, zone)
    ensures !halted && Spare(s', zone) >= n - need && s'.Keys == s.Keys
  {
  }

  lemma PathFree(s: States, s': States, zone: set<nat>, had: set<Node>, has: set<Node>, ok: bool, halted: bool)
    requires Paid(s, s', zone, had, has, Path(0, false), ok, halted) && Spare(s, zone) >= 2
    ensures !halted && s'.Keys == s.Keys
  {
    hide NodeAt;
    var goal := Path(0, false);
    assert goal == {NodeAt(0, 1)} + {NodeAt(0, 2)};
    assert goal == (goal - had) + (goal * had) && |goal| <= 2;
  }

  lemma KernelKept(s: States, ram: Ram, s': States, ram': Ram, b: nat, large: bool)
    requires Preserves(s, ram, s', ram', {}) && HoldsKernel(ram, b, large)
    requires forall p :: p in Tables(b, large) + {Target(b, large)} ==> p !in s
    ensures HoldsKernel(ram', b, large)
  {
    hide SmallKernel;
  }

  lemma FirstWord(ram: Ram, b: nat, large: bool)
    requires HoldsKernel(ram, b, large)
    ensures Target(b, large) in ram && Word(ram[Target(b, large)], 0) == if Target(b, large) == b then b + 0x1003 else 0
  {
    hide Word;
  }

  lemma SameKernel(before: Ram, ram: Ram, after: Ram, b: nat, large: bool)
    requires HoldsKernel(before, b, large) && HoldsKernel(ram, b, large)
    ensures KernelUntouched(before, after, Tables(b, large)) <==> KernelUntouched(ram, after, Tables(b, large))
  {
    hide SmallKernel;
  }

  /** Over such a kernel, page 0 of a new process is mapped. The word that `map_page` takes for the
      page-table entry is overwritten; the kernel's tables change exactly when it lies in one. */
  method MapFirstPage(b: nat, large: bool) returns (before: Ram, after: Ram)
    requires Small(b)
    ensures KernelOk(before, b, Tables(b, large))
    ensures Target(b, large) in before && Word(before[Target(b, large)], 0) == if Target(b, large) == b then b + 0x1003
      else 0
    ensures Target(b, large) in after && Word(after[Target(b, large)], 0) == Pte(0x0200_0000, 6)
    ensures KernelUntouched(before, after, Tables(b, large)) <==> Target(b, large) !in Tables(b, large)
  {
    hide Represents, ArenasOk, Homes, Zone, Charged, Paid, Path, OnRun, KTable, KEntry, Word, SetWord, Open, Index,
      Overwritten, SpaceOk, KernelOk, KeptOutside, SpaceStep, Walk, OneEntry, KernelEnv, KernelUntouched, Spare,
      NodeAt, PageMapped, Preserves, SmallKernel, LargePage, TakenFrame;
    var pmm := BootArenas();
    before := map p: nat | p < 0x0800_0000 && p % 4096 == 0 :: SmallKernel(b, large, p);
    var phys := new PhysMem(before);
    assert HoldsKernel(before, b, large);
    SmallKernelOk(before, b, large);
    FirstWord(before, b, large);
    BootCovered(pmm.states, before, b, large);
    ghost var zone, s0 := Zone(pmm.home, PMM_ALLOC_FLAG_KERNEL), pmm.states;
    EnoughSpare(pmm.states, pmm.home);
    var created := AddressSpace.New(phys, pmm, b, Tables(b, large));
    NotShort(s0, pmm.states, zone, 3, 1, created.Halt?);
    var space := created.value;
    KernelKept(s0, before, pmm.states, phys.ram, b, large);
    SmallKernelOk(phys.ram, b, large);
    FirstWord(phys.ram, b, large);
    ghost var s1, ram1, own1 := pmm.states, phys.ram, space.own;
    var m := space.MapPage(0, 0x0200_0000, 6);
    PathFree(s1, pmm.states, zone, own1.Keys, space.own.Keys, m.Ok?, m.Halt?);
    after := phys.ram;
    OverwrittenWord(s1, ram1, b, Tables(b, large), own1, 0, Pte(0x0200_0000, 6), pmm.states, after, space.own);
    SameKernel(before, ram1, after, b, large);
  }

  /** For instance: mapping page 0 writes into the kernel's own page table at 0x4000. */
  method OverwriteExample() returns (before: Ram, after: Ram)
    ensures KernelOk(before, 0x1000, Tables(0x1000, false)) && !KernelUntouched(before, after, Tables(0x1000, false))
    ensures 0x4000 in before && 0x4000 in after
    ensures Word(before[0x4000], 0) == 0 && Word(after[0x4000], 0) == Pte(0x0200_0000, 6)
  {
    hide KernelOk, KernelUntouched, Word, Pte;
    before, after := MapFirstPage(0x1000, false);
  }

  /** For instance: where the kernel has a 2 MB page at 0x0100_0000, its first word is overwritten,
      and no table of the kernel. */
  method LargePageExample() returns (before: Ram, after: Ram)
    ensures KernelOk(before, 0x1000, Tables(0x1000, true)) && KernelUntouched(before, after, Tables(0x1000, true))
    ensures 0x0100_0000 in before && 0x0100_0000 in after
    ensures Word(before[0x0100_0000], 0) == 0 && Word(after[0x0100_0000], 0) == Pte(0x0200_0000, 6)
  {
    hide KernelOk, KernelUntouched, Word, Pte;
    before, after := MapFirstPage(0x1000, true);
  }

  /** And where the kernel's root table lies at the start of that page, its first entry is. */
  method RootExample() returns (before: Ram, after: Ram)
    ensures KernelOk(before, 0x0100_0000, Tables(0x0100_0000, true)) &&
      !KernelUntouched(before, after, Tables(0x0100_0000, true))
    ensures 0x0100_0000 in before && 0x0100_0000 in after
    ensures Word(before[0x0100_0000], 0) == 0x0100_1003 && Word(after[0x0100_0000], 0) == Pte(0x0200_0000, 6)
  {
    hide KernelOk, KernelUntouched, Word, Pte;
    before, after := MapFirstPage(0x0100_0000, true);
  }

  // A page that is not cleared

  lemma ArenasCovered(states: States, ram: Ram)
    requires forall p: nat :: p in states <==> OnRun(p, 0x0020_0000, 3584) || OnRun(p, 0x0200_0000, 24576)
    requires forall p: nat :: p in ram <==> p < 0x0800_0000 && p % 4096 == 0
    ensures states.Keys <= ram.Keys
  {
  }

  lemma OneMissing()
    ensures WriteNeed(map[], 4096, 0, 1) == 1
  {
    assert Missing(map[], 0, 1) == {0};
  }

  lemma StaleBytes(s: States, ram: Ram, s': States, ram': Ram, pages: PageMap, r: Outcome<nat>)
    requires WriteEffect(s, ram, 4096, map[], 0, [1], r, s', ram', pages) && Backed(ram', s', pages) && !r.Halt?
    requires forall q, i :: q in ram && 0 <= i < 4096 ==> ram[q][i] == 7
    ensures ByteAt(ram', pages, 0) == 1 && ByteAt(ram', pages, 1) == 7
  {
    assert Touches(0, 1, 0) && Key(0) == 0 && Key(1) == 0;
  }

  /** For instance: memory holds sevens, one byte of a new object is written, and the byte beside
      it, which nobody wrote, reads seven. */
  method StaleExample() returns (written: byte, beside: byte)
    ensures written == 1 && beside == 7
  {
    hide Represents, ArenasOk, Homes, Zone, Charged, OnRun, WriteEffect, Spare, ByteAt, WriteNeed;
    var pmm := BootArenas();
    var phys := new PhysMem(map p: nat | p < 0x0800_0000 && p % 4096 == 0 :: seq(4096, _ => 7));
    EnoughSpare(pmm.states, pmm.home);
    ArenasCovered(pmm.states, phys.ram);
    var created := Vmo.Create(phys, pmm, 4096, 0);
    var vmo := created.value;
    ghost var s, ram, zone := pmm.states, phys.ram, Zone(pmm.home, PMM_ALLOC_FLAG_USER);
    var r := vmo.Write(0, [1]);
    OneMissing();
    NotShort(s, pmm.states, zone, 1, 1, r.Halt?);
    StaleBytes(s, ram, pmm.states, phys.ram, vmo.pages, r);
    var buf := new byte[2];
    var _ := vmo.Read(0, buf);
    written, beside := buf[0], buf[1];
  }
}
