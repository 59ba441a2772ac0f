/** Process creation from an ELF file (src/exec/process_loader.rs), end to end: what the new
    process reads at a virtual address is what the file says. */
module Loader {
  import opened Memory
  import opened Pmm
  import opened VmoObject
  import opened VmoRuns
  import opened PageTable
  import opened AddressSpaces
  import opened Elf

  datatype ProcessImage = ProcessImage(entry: nat, space: AddressSpace, stackTop: nat, stackSize: nat)

  const STACK_PAGE: nat := 0x7_ffff_fffe

  /** The byte a user-mode load at `va` returns. */
  function Fetch(ram: Ram, root: nat, va: nat): Option<byte>
  {
    match Walk(ram, root, va)
    case None => None
    case Some(t) =>
      var frame := t.paddr - t.paddr % 4096;
      if frame >= 0 && frame in ram then Some(ram[frame][t.paddr % 4096]) else None
  }

  function FirstPage(ph: ProgramHeader): nat { ph.p_vaddr / 4096 }

  function Pages(ph: ProgramHeader): nat { PageCount(MemSize(ph)) }

  predicate Covers(ph: ProgramHeader, page: nat)
  {
    FirstPage(ph) <= page < FirstPage(ph) + Pages(ph)
  }

  /** Byte `k` of the segment lies on the page. */
  predicate HasByte(ph: ProgramHeader, page: nat, k: nat)
  {
    (k < ph.p_memsz || k < ph.p_filesz) && (ph.p_vaddr + k) / 4096 == page
  }

  /** The covered pages are exactly those that hold a byte of the segment. */
  lemma CoversIff(ph: ProgramHeader, page: nat)
    requires ph.p_vaddr % 4096 == 0
    ensures Covers(ph, page) <==> exists k: nat :: HasByte(ph, page, k)
  {
    if Covers(ph, page) {
      var k := (page - FirstPage(ph)) * 4096;
      assert HasByte(ph, page, k);
    }
  }

  /** No segment between `j` and `i`, and not the stack once it is mapped, covers the page: what
      is mapped last is what the process sees. */
  ghost predicate Shown(phs: seq<ProgramHeader>, j: nat, i: nat, stack: bool, page: nat)
    requires i <= |phs|
  {
    !(stack && page == STACK_PAGE) && forall l :: j < l < i ==> !Covers(phs[l], page)
  }

  /** The kernel leaves room where the segments and the stack go. */
  ghost predicate Fits(phs: seq<ProgramHeader>, ram: Ram, cr3: nat)
  {
    && (forall i :: 0 <= i < |phs| ==>
          phs[i].p_vaddr + Pages(phs[i]) * 4096 <= VADDR_LIMIT && Room(ram, cr3, FirstPage(phs[i]), Pages(phs[i])))
    && Room(ram, cr3, STACK_PAGE, 1)
  }

  /** Byte `k` of the segment, as the process finds it: the file's byte or zero, with the
      segment's write permission. */
  ghost predicate ByteVisible(data: seq<byte>, ph: ProgramHeader, ram: Ram, root: nat, k: nat)
    requires InFile(data, ph)
  {
    var t := Walk(ram, root, ph.p_vaddr + k);
    && Fetch(ram, root, ph.p_vaddr + k) == Some(SegmentByte(data, ph, k))
    && t.Some? && t.value.user && (t.value.writable <==> ph.p_flags / 2 % 2 == 1)
  }

  /** The process sees segment `i`, except for pages that a later segment or the stack covers. */
  ghost predicate SegmentVisible(data: seq<byte>, phs: seq<ProgramHeader>, i: nat, ram: Ram, root: nat)
    requires i < |phs| && InFile(data, phs[i])
  {
    forall k :: 0 <= k < MemSize(phs[i]) && Shown(phs, i, |phs|, true, (phs[i].p_vaddr + k) / 4096) ==>
      ByteVisible(data, phs[i], ram, root, k)
  }

  /** So of segments on pages of their own it sees everything. */
  lemma ApartAllVisible(data: seq<byte>, phs: seq<ProgramHeader>, i: nat, ram: Ram, root: nat, k: nat)
    requires i < |phs| && InFile(data, phs[i]) && SegmentVisible(data, phs, i, ram, root) && k < MemSize(phs[i])
    requires phs[i].p_vaddr % 4096 == 0
    requires forall page, l :: Covers(phs[i], page) && i < l < |phs| ==> page != STACK_PAGE && !Covers(phs[l], page)
    requires !Covers(phs[i], STACK_PAGE)
    ensures ByteVisible(data, phs[i], ram, root, k)
  {
    var page := (phs[i].p_vaddr + k) / 4096;
    assert Covers(phs[i], page);
  }

  /** The stack page reads zero and is writable. */
  ghost predicate StackVisible(ram: Ram, root: nat)
  {
    forall va :: STACK_ADDR - STACK_SIZE <= va < STACK_ADDR ==>
      && Fetch(ram, root, va) == Some(0)
      && Walk(ram, root, va).Some? && Walk(ram, root, va).value.user && Walk(ram, root, va).value.writable
  }

  predicate OffSegments(phs: seq<ProgramHeader>, i: nat, page: nat)
    requires i <= |phs|
  {
    forall j :: 0 <= j < i ==> !Covers(phs[j], page)
  }

  /** Off the first `i` segments (and the stack, when mapped) the process sees the kernel's frames. */
  ghost predicate Elsewhere(phs: seq<ProgramHeader>, i: nat, stack: bool, ram0: Ram, cr3: nat, ram: Ram, root: nat)
    requires i <= |phs|
  {
    forall va :: 0 <= va < VADDR_LIMIT && OffSegments(phs, i, va / 4096) && !(stack && va / 4096 == STACK_PAGE) ==>
      SameFrame(Walk(ram0, cr3, va), Walk(ram, root, va))
  }

  lemma ElsewhereStep(phs: seq<ProgramHeader>, i: nat, i': nat, stack: bool, stack': bool, ram0: Ram, cr3: nat,
                      ram: Ram, own: Tree, lo: nat, hi: nat, ram': Ram, own': Tree)
    requires i <= i' <= |phs| && Root in own && Elsewhere(phs, i, stack, ram0, cr3, ram, own[Root])
    requires KeptOutside(ram, own, lo, hi, ram', own') && (stack ==> stack')
    requires forall page: nat :: OffSegments(phs, i', page) && !(stack' && page == STACK_PAGE) ==>
      OffSegments(phs, i, page) && !(lo <= page < hi)
    ensures Elsewhere(phs, i', stack', ram0, cr3, ram', own'[Root])
  {
    hide Walk, OffSegments;
  }

  lemma ElsewhereStart(phs: seq<ProgramHeader>, ram0: Ram, s: States, cr3: nat, kernel: set<nat>, ram: Ram, root: nat)
    requires KernelEnv(s, ram0, cr3, kernel) && KernelUntouched(ram0, ram, kernel) && ram.Keys == ram0.Keys
    requires forall va :: Walk(ram, root, va) == Walk(ram, cr3, va)
    ensures Elsewhere(phs, 0, false, ram0, cr3, ram, root)
  {
    hide KTable, KEntry;
    forall va | 0 <= va < VADDR_LIMIT
      ensures SameFrame(Walk(ram0, cr3, va), Walk(ram, root, va))
    {
      KernelWalkSame(ram0, ram, cr3, kernel, va, 0);
      RootTable(ram0, cr3);
      RootTable(ram, cr3);
    }
  }

  lemma ElsewhereSegment(phs: seq<ProgramHeader>, i: nat, ram0: Ram, cr3: nat, ram: Ram, own: Tree, ram': Ram,
      own': Tree)
    requires i < |phs| && Root in own && Elsewhere(phs, i, false, ram0, cr3, ram, own[Root])
    requires KeptOutside(ram, own, FirstPage(phs[i]), FirstPage(phs[i]) + Pages(phs[i]), ram', own')
    ensures Elsewhere(phs, i + 1, false, ram0, cr3, ram', own'[Root])
  {
    hide Walk, KeptOutside, Elsewhere;
    ElsewhereStep(phs, i, i + 1, false, false, ram0, cr3, ram, own, FirstPage(phs[i]),
      FirstPage(phs[i]) + Pages(phs[i]), ram', own');
  }

  lemma RootTable(ram: Ram, cr3: nat)
    ensures KTable(ram, cr3, Root) == Some(cr3) && forall va :: KWalk(ram, cr3, NodeAt(va, 0), va) == Walk(ram, cr3, va)
  {
  }

  /** Page `m` of the object is what the process finds in its place, unless something later covers it. */
  ghost predicate PageShown(ram: Ram, own: Tree, pages: PageMap, phs: seq<ProgramHeader>, j: nat, i: nat, stack: bool,
      m: nat)
    requires j < i <= |phs|
  {
    Shown(phs, j, i, stack, FirstPage(phs[j]) + m) ==>
      !PageMissing(pages, m) && PageMapped(ram, own, FirstPage(phs[j]) + m, pages[m * 4096].paddr, phs[j].p_flags)
  }

  ghost predicate SegmentMapped(ram: Ram, own: Tree, pages: PageMap, phs: seq<ProgramHeader>, j: nat, i: nat,
      stack: bool)
    requires j < i <= |phs|
  {
    forall m :: 0 <= m < Pages(phs[j]) ==> PageShown(ram, own, pages, phs, j, i, stack, m)
  }

  /** Progress of the mapping loop: the first `i` segments, and perhaps the stack, are mapped. */
  ghost predicate Progress(data: seq<byte>, phs: seq<ProgramHeader>, maps: seq<PageMap>, s: States, ram: Ram,
      own: Tree, i: nat, stack: bool)
    requires i <= |phs|
  {
    && Images(data, phs, s, ram, maps)
    && (forall j :: 0 <= j < |maps| ==> Outside(maps[j], TreeFrames(own)))
    && (forall j :: 0 <= j < i ==> SegmentMapped(ram, own, maps[j], phs, j, i, stack))
  }

  /** A step that changes only pages `lo .. hi` keeps a segment where nothing new covers it. */
  lemma SegmentStays(r: Ram, own: Tree, lo: nat, hi: nat, r': Ram, own': Tree, pages: PageMap, phs: seq<ProgramHeader>,
      j: nat, i: nat, stack: bool, i': nat, stack': bool)
    requires j < i <= i' <= |phs| && (stack ==> stack') && SegmentMapped(r, own, pages, phs, j, i, stack) &&
      KeptOutside(r, own, lo, hi, r', own')
    requires forall page: nat :: Shown(phs, j, i', stack', page) ==> !(lo <= page < hi)
    ensures SegmentMapped(r', own', pages, phs, j, i', stack')
  {
    hide KeptOutside, PageMapped;
    forall m | 0 <= m < Pages(phs[j])
      ensures PageShown(r', own', pages, phs, j, i', stack', m)
    {
      var page := FirstPage(phs[j]) + m;
      assert PageShown(r, own, pages, phs, j, i, stack, m);
      if Shown(phs, j, i', stack', page) {
        assert Shown(phs, j, i, stack, page);
        PageStays(r, own, r', own', lo, hi, page, pages[m * 4096].paddr, phs[j].p_flags);
      }
    }
  }

  lemma SegmentNew(r: Ram, own: Tree, pages: PageMap, phs: seq<ProgramHeader>, i: nat)
    requires i < |phs| && AllMapped(r, own, pages, FirstPage(phs[i]), Pages(phs[i]), phs[i].p_flags)
    ensures SegmentMapped(r, own, pages, phs, i, i + 1, false)
  {
    hide PageMapped;
  }

  lemma FitsStays(phs: seq<ProgramHeader>, ram: Ram, ram': Ram, cr3: nat, kernel: set<nat>)
    requires Fits(phs, ram, cr3) && KernelOk(ram, cr3, kernel) && ram'.Keys == ram.Keys &&
      KernelUntouched(ram, ram', kernel)
    ensures Fits(phs, ram', cr3)
  {
    hide Room, KernelOk;
    forall i | 0 <= i < |phs|
      ensures Room(ram', cr3, FirstPage(phs[i]), Pages(phs[i]))
    {
      RoomSame(ram, ram', cr3, kernel, FirstPage(phs[i]), Pages(phs[i]));
    }
    RoomSame(ram, ram', cr3, kernel, STACK_PAGE, 1);
  }

  lemma RoomSame(ram: Ram, ram': Ram, cr3: nat, kernel: set<nat>, lo: nat, n: nat)
    requires Room(ram, cr3, lo, n) && KernelOk(ram, cr3, kernel) && ram'.Keys == ram.Keys &&
      KernelUntouched(ram, ram', kernel)
    ensures Room(ram', cr3, lo, n)
  {
    hide KTable, KEntry, Word, Index, Present, Large, Open, NodeAt;
    KernelSameAll(ram, ram', cr3, kernel);
    forall va | 0 <= va < VADDR_LIMIT && lo <= va / 4096 < lo + n
      ensures NoLargePage(ram', cr3, va) && Open(ram', cr3, NodeAt(va, 3))
    {
      assert NoLargePage(ram, cr3, va) && Open(ram, cr3, NodeAt(va, 3));
    }
  }

  /** The running kernel is not disturbed by steps that touch only free pages. */
  lemma KernelEnvStays(s: States, ram: Ram, cr3: nat, kernel: set<nat>, s': States, ram': Ram)
    requires KernelEnv(s, ram, cr3, kernel) && Preserves(s, ram, s', ram', {})
    ensures KernelEnv(s', ram', cr3, kernel) && KernelUntouched(ram, ram', kernel) && ram'.Keys == ram.Keys
  {
    hide KTable, KEntry;
    KernelSameAll(ram, ram', cr3, kernel);
  }

  /** So is a process tree; all its translations stay. */
  lemma SpaceStays(s: States, ram: Ram, cr3: nat, kernel: set<nat>, own: Tree, s': States, ram': Ram)
    requires SpaceOk(s, ram, cr3, kernel, own) && Preserves(s, ram, s', ram', {})
    ensures SpaceOk(s', ram', cr3, kernel, own) && KernelUntouched(ram, ram', kernel) && ram'.Keys == ram.Keys
    ensures KeptOutside(ram, own, 0, 0, ram', own)
  {
    hide KTable, KEntry, Word, Open, Shared, TableEntry, KeptOutside;
    KernelSameAll(ram, ram', cr3, kernel);
    forall n, i | n in own && !n.Pt? && 0 <= i < 512
      ensures EntryOk(ram', cr3, own, n, i)
    {
      assert EntryOk(ram, cr3, own, n, i);
    }
    GrewKept(ram, cr3, kernel, own, 0, ram', own);
  }

  /** Mapping segment `i` adds it to the mapped ones and undoes only what it covers. */
  lemma ProgressStep(data: seq<byte>, phs: seq<ProgramHeader>, maps: seq<PageMap>, kernel: set<nat>, s: States,
      ram: Ram, own: Tree, i: nat, s': States, ram': Ram, own': Tree)
    requires i < |phs| && Progress(data, phs, maps, s, ram, own, i, false) &&
      SpaceStep(s, ram, kernel, own, s', ram', own')
    requires KeptOutside(ram, own, FirstPage(phs[i]), FirstPage(phs[i]) + Pages(phs[i]), ram', own')
    requires i < |maps| && AllMapped(ram', own', maps[i], FirstPage(phs[i]), Pages(phs[i]), phs[i].p_flags)
    ensures Progress(data, phs, maps, s', ram', own', i + 1, false)
  {
    hide Images, AllMapped, KeptOutside, Outside, TreeFrames, SegmentMapped, PageMissing, Progress, SpaceStep,
      FirstPage, Pages;
    SegmentNew(ram', own', maps[i], phs, i);
    var next := i + 1;
    forall j, page: nat | 0 <= j < i && Shown(phs, j, next, false, page)
      ensures !(FirstPage(phs[i]) <= page < FirstPage(phs[i]) + Pages(phs[i]))
    {
      assert !Covers(phs[i], page);
    }
    ProgressKept(data, phs, maps, kernel, s, ram, own, i, false, s', ram', own', FirstPage(phs[i]),
      FirstPage(phs[i]) + Pages(phs[i]), i + 1, false);
    ProgressJoin(data, phs, maps, s', ram', own', i);
  }

  /** All segments mapped before survive, as far as they are still shown. */
  ghost predicate ProgressBut(data: seq<byte>, phs: seq<ProgramHeader>, maps: seq<PageMap>, s: States, ram: Ram,
      own: Tree, i: nat, i': nat, stack: bool)
    requires i <= i' <= |phs|
  {
    && Images(data, phs, s, ram, maps)
    && (forall j :: 0 <= j < |maps| ==> Outside(maps[j], TreeFrames(own)))
    && (forall j :: 0 <= j < i ==> SegmentMapped(ram, own, maps[j], phs, j, i', stack))
  }

  lemma ProgressJoin(data: seq<byte>, phs: seq<ProgramHeader>, maps: seq<PageMap>, s: States, ram: Ram, own: Tree,
      i: nat)
    requires i < |phs| && i < |maps| && ProgressBut(data, phs, maps, s, ram, own, i, i + 1, false)
    requires SegmentMapped(ram, own, maps[i], phs, i, i + 1, false)
    ensures Progress(data, phs, maps, s, ram, own, i + 1, false)
  {
    hide Images, SegmentMapped, Outside;
  }

  lemma ProgressKept(data: seq<byte>, phs: seq<ProgramHeader>, maps: seq<PageMap>, kernel: set<nat>, s: States,
      ram: Ram, own: Tree, i: nat, stack: bool, s': States, ram': Ram, own': Tree, lo: nat, hi: nat, i': nat,
      stack': bool)
    requires i <= i' <= |phs| && (stack ==> stack')
    requires Progress(data, phs, maps, s, ram, own, i, stack) && SpaceStep(s, ram, kernel, own, s', ram', own')
    requires KeptOutside(ram, own, lo, hi, ram', own')
    requires forall j, page: nat :: 0 <= j < i && Shown(phs, j, i', stack', page) ==> !(lo <= page < hi)
    ensures ProgressBut(data, phs, maps, s', ram', own', i, i', stack')
  {
    hide Images, AllMapped, KeptOutside, Outside, TreeFrames, SegmentMapped, Shown;
    StepFacts(s, ram, kernel, own, s', ram', own');
    ImagesLength(data, phs, s, ram, maps);
    ImagesStay(data, phs, s, ram, maps, s', ram', TreeFrames(own));
    forall j | 0 <= j < |maps|
      ensures Outside(maps[j], TreeFrames(own'))
    {
      ImageBacked(data, phs, s, ram, maps, j);
      VmoOutside(s, ram, kernel, own, s', ram', own', maps[j]);
    }
    forall j | 0 <= j < i
      ensures j < |maps| && SegmentMapped(ram', own', maps[j], phs, j, i', stack')
    {
      SegmentStays(ram, own, lo, hi, ram', own', maps[j], phs, j, i, stack, i', stack');
    }
  }

  lemma StepFacts(s: States, ram: Ram, kernel: set<nat>, own: Tree, s': States, ram': Ram, own': Tree)
    requires SpaceStep(s, ram, kernel, own, s', ram', own')
    ensures Preserves(s, ram, s', ram', TreeFrames(own)) && KernelUntouched(ram, ram', kernel) && ram'.Keys == ram.Keys
  {
  }

  lemma ImagesLength(data: seq<byte>, phs: seq<ProgramHeader>, s: States, ram: Ram, maps: seq<PageMap>)
    requires Images(data, phs, s, ram, maps)
    ensures |maps| == |phs|
  {
  }

  /** A mapped page of an object reads as the object. */
  lemma MappedByte(ram: Ram, s: States, own: Tree, pages: PageMap, vaddr: nat, flags: nat, k: nat)
    requires RamOk(ram) && Backed(ram, s, pages) && Root in own && vaddr % 4096 == 0 && vaddr + k < VADDR_LIMIT
    requires !PageMissing(pages, k / 4096) &&
      PageMapped(ram, own, vaddr / 4096 + k / 4096, pages[k / 4096 * 4096].paddr, flags)
    ensures Fetch(ram, own[Root], vaddr + k) == Some(ByteAt(ram, pages, k))
    ensures Walk(ram, own[Root], vaddr + k).Some? && Walk(ram, own[Root], vaddr + k).value.user
    ensures Walk(ram, own[Root], vaddr + k).value.writable <==> flags / 2 % 2 == 1
  {
    hide Walk, NodeAt;
    assert (vaddr + k) / 4096 == vaddr / 4096 + k / 4096 && (vaddr + k) % 4096 == k % 4096;
    BackedPage(ram, s, pages, Key(k));
  }

  lemma SegmentSeen(data: seq<byte>, phs: seq<ProgramHeader>, i: nat, ram: Ram, s: States, own: Tree, pages: PageMap)
    requires i < |phs| && InFile(data, phs[i]) && Image(data, phs[i], MemSize(phs[i]), ram, pages)
    requires RamOk(ram) && Backed(ram, s, pages) && Root in own && SegmentMapped(ram, own, pages, phs, i, |phs|, true)
    requires phs[i].p_vaddr % 4096 == 0 && phs[i].p_vaddr + Pages(phs[i]) * 4096 <= VADDR_LIMIT
    ensures SegmentVisible(data, phs, i, ram, own[Root])
  {
    hide Walk, Fetch, Backed, RamOk, ByteAt, SegmentByte, PageMapped, PageMissing, Shown;
    var ph := phs[i];
    forall k | 0 <= k < MemSize(ph) && Shown(phs, i, |phs|, true, (ph.p_vaddr + k) / 4096)
      ensures ByteVisible(data, ph, ram, own[Root], k)
    {
      assert k < Pages(ph) * 4096 && (ph.p_vaddr + k) / 4096 == FirstPage(ph) + k / 4096;
      assert ByteAt(ram, pages, k) == SegmentByte(data, ph, k);
      assert PageShown(ram, own, pages, phs, i, |phs|, true, k / 4096);
      MappedByte(ram, s, own, pages, ph.p_vaddr, ph.p_flags, k);
    }
  }

  /** The stack object: one page of zeros. */
  method MakeStack(phys: PhysMem, pmm: Manager, stackSize: nat) returns (r: Outcome<Vmo>)
    requires pmm.Valid() && pmm.states.Keys <= phys.ram.Keys && 0 < stackSize
    modifies phys, pmm`arenas, pmm`states
    ensures pmm.Valid() && !r.Err?
    ensures Preserves(old(pmm.states), old(phys.ram), pmm.states, phys.ram, {})
    ensures r.Ok? ==>
      && fresh(r.value) && r.value.phys == phys && r.value.pmm == pmm && r.value.Valid()
      && LoadEffect(old(pmm.states), old(phys.ram), pmm.states, phys.ram, r.value.pages)
      && Image([], ZeroSegment(stackSize), stackSize, phys.ram, r.value.pages)
    ensures Charged(old(pmm.states), pmm.states, Zone(pmm.home, PMM_ALLOC_FLAG_USER), PageCount(stackSize), r.Halt?)
  {
    hide Represents, ArenasOk, Homes, LoadEffect, Backed, Image, Preserves, LoadedUpTo, Charged, Zone;
    ghost var s0, r0, user, ph := pmm.states, phys.ram, Zone(pmm.home, PMM_ALLOC_FLAG_USER), ZeroSegment(stackSize);
    var created := Vmo.Create(phys, pmm, stackSize, 0);
    var vmo := created.value;
    LoadStart([], ph, s0, r0, user);
    var numPages := PageCount(stackSize);
    for i := 0 to numPages
      invariant vmo.Valid() && vmo.size >= stackSize
      invariant LoadedUpTo([], ph, Min(i * 4096, stackSize), s0, r0, pmm.states, phys.ram, vmo.pages, user)
    {
      var offset := i * 4096;
      var count := if offset + 4096 <= stackSize then 4096 else stackSize - offset;
      r := WritePiece(vmo, [], ph, offset, seq(count, _ => 0), s0, r0);
      if !r.Ok? {
        ShortOf(s0, pmm.states, user, offset + count, stackSize);
        return;
      }
    }
    LoadedParts([], ph, stackSize, s0, r0, pmm.states, phys.ram, vmo.pages, user);
    return Ok(vmo);
  }

  /** A segment of `n` zero bytes. */
  function ZeroSegment(n: nat): ProgramHeader
  {
    ProgramHeader(PT_LOAD, 6, 0, 0, 0, 0, n, 0)
  }

  /** The user pages a load takes: those of the segments and the stack's. */
  function UserPages(phs: seq<ProgramHeader>): nat
  {
    PagesOf(phs) + PageCount(STACK_SIZE)
  }

  /** The private tables below the root that the first `i` segments are mapped through. */
  ghost function Nodes(phs: seq<ProgramHeader>, i: nat): set<Node>
    requires i <= |phs|
  {
    if i == 0 then {} else Nodes(phs, i - 1) + Paths(FirstPage(phs[i - 1]), Pages(phs[i - 1]))
  }

  /** The kernel pages a load takes: the root and all tables. */
  ghost function TablePages(phs: seq<ProgramHeader>): nat
  {
    1 + |Nodes(phs, |phs|) + Paths(STACK_PAGE, 1)|
  }

  /** `load_elf_process`. On a loadable file whose segments fit, the new process reads every
      byte of every segment, and a zeroed stack, through its own page table; nobody else's memory
      changes. It fails only on a bad file, an unaligned segment, or when page zero is handed out
      as a table, and it does not return only when slicing the file panics or when user or kernel
      pages run out; with disjoint zones the latter is exactly when there are fewer Free pages than
      it needs. */
  method LoadElfProcess(phys: PhysMem, pmm: Manager, cr3: nat, ghost kernel: set<nat>, data: seq<byte>)
      returns (r: Outcome<ProcessImage>)
    requires pmm.Valid() && KernelEnv(pmm.states, phys.ram, cr3, kernel)
    requires Fits(NonEmpty(LoadTable(data)), phys.ram, cr3) && |data| < SLICE_LIMIT
    modifies phys, pmm`arenas, pmm`states
    ensures KernelUntouched(old(phys.ram), phys.ram, kernel) &&
      Preserves(old(pmm.states), old(phys.ram), pmm.states, phys.ram, {})
    ensures r.Ok? ==> FileVerdict(data) == Fine && forall i :: 0 <= i < |NonEmpty(LoadTable(data))| ==>
      && InFile(data, NonEmpty(LoadTable(data))[i])
      && NonEmpty(LoadTable(data))[i].p_vaddr % 4096 == 0
      && SegmentVisible(data, NonEmpty(LoadTable(data)), i, phys.ram, r.value.space.root)
    ensures r.Ok? ==>
      && r.value.space.Valid() && StackVisible(phys.ram, r.value.space.root)
      && Elsewhere(NonEmpty(LoadTable(data)), |NonEmpty(LoadTable(data))|, true, old(phys.ram), cr3, phys.ram,
         r.value.space.root)
      && r.value.entry == ParseElfHeader(data).value.e_entry
      && r.value.stackTop == STACK_ADDR && r.value.stackSize == STACK_SIZE
      && Billed(old(pmm.states), pmm.states, Zone(pmm.home, PMM_ALLOC_FLAG_USER), Zone(pmm.home, PMM_ALLOC_FLAG_KERNEL),
                UserPages(NonEmpty(LoadTable(data))), TablePages(NonEmpty(LoadTable(data))))
    ensures r.Err? ==>
      || FileVerdict(data) == Refused || 0 in pmm.states
      || exists i :: 0 <= i < |NonEmpty(LoadTable(data))| && NonEmpty(LoadTable(data))[i].p_vaddr % 4096 != 0
    ensures r.Halt? && FileVerdict(data) != Panics ==>
      UsedUp(old(pmm.states), pmm.states, Zone(pmm.home, PMM_ALLOC_FLAG_USER), Zone(pmm.home, PMM_ALLOC_FLAG_KERNEL),
             UserPages(NonEmpty(LoadTable(data))), TablePages(NonEmpty(LoadTable(data))))
  {
    hide Represents, ArenasOk, Homes, KernelEnv, Fits, Images, Preserves, KernelUntouched, SpaceOk, Backed,
      FileVerdict, LoadTable, NonEmpty, ParseElfHeader, SegmentVisible, StackVisible, Walk, Elsewhere, Zone, Charged,
      Billed, UsedUp, UserPages, TablePages, Mapping, PagesOf, Describes, Spent, Paid, Nodes, Paths;
    ghost var phs := NonEmpty(LoadTable(data));
    ghost var s0, r0 := pmm.states, phys.ram;
    ghost var user, zone := Zone(pmm.home, PMM_ALLOC_FLAG_USER), Zone(pmm.home, PMM_ALLOC_FLAG_KERNEL);
    EnvCovers(s0, r0, cr3, kernel);
    PreservesRefl(s0, r0);
    KernelSelf(r0, kernel);
    var loaded, maps := LoadElf(phys, pmm, data);
    ghost var s1, ram1 := pmm.states, phys.ram;
    FileBilled(s0, s1, user, zone, phs, loaded.Ok?, loaded.Halt? && FileVerdict(data) != Panics);
    EnvKept(phs, s0, r0, cr3, kernel, s0, r0, s1, ram1);
    if !loaded.Ok? {
      return if loaded.Halt? then Halt else Err(loaded.error);
    }
    var created := AddressSpace.New(phys, pmm, cr3, kernel);
    RootBilled(s0, s1, pmm.states, user, zone, phs, created.Halt?);
    EnvKept(phs, s0, r0, cr3, kernel, s1, ram1, pmm.states, phys.ram);
    if created.Halt? {
      return Halt;
    }
    var space := created.value;
    ghost var a := Snap(pmm.states, phys.ram, space.own);
    assert a.own.Keys == {Root};
    MappingStart(data, phs, maps, cr3, kernel, zone, s0, r0, s1, ram1, a, space.root);
    var mapped := MapSegments(phys, pmm, cr3, kernel, data, phs, maps, space, loaded.value.segments, s0, r0);
    SegmentsBilled(s0, a.s, pmm.states, user, zone, phs, a.own.Keys, space.own.Keys, mapped.Ok?, mapped.Halt?);
    if !mapped.Ok? {
      return if mapped.Halt? then Halt else Err(mapped.error);
    }
    r := MapStack(phys, pmm, cr3, kernel, data, phs, maps, space, loaded.value, s0, r0, a);
  }

  /** The segment loop of `load_elf_process`. */
  method MapSegments(phys: PhysMem, pmm: Manager, cr3: nat, ghost kernel: set<nat>, ghost data: seq<byte>,
      ghost phs: seq<ProgramHeader>, ghost maps: seq<PageMap>, space: AddressSpace, segments: seq<LoadedSegment>,
      ghost s0: States, ghost r0: Ram)
      returns (r: Outcome<()>)
    requires space.Valid() && space.phys == phys && space.pmm == pmm && space.cr3 == cr3 && space.kernel == kernel
    requires Describes(segments, phs, phys, pmm) && |maps| == |phs|
    requires forall j :: 0 <= j < |segments| ==> segments[j].vmo.pages == maps[j] && segments[j].vmo.size % 4096 == 0
    requires var a := Snap(pmm.states, phys.ram, space.own);
      Mapping(data, phs, maps, cr3, kernel, Zone(pmm.home, PMM_ALLOC_FLAG_KERNEL), s0, r0, a, a, 0, false)
    modifies space, phys, pmm`arenas, pmm`states
    ensures KernelUntouched(r0, phys.ram, kernel) && Preserves(s0, r0, pmm.states, phys.ram, {})
    ensures r.Ok? ==>
      && space.Valid() && (forall j :: 0 <= j < |phs| ==> phs[j].p_vaddr % 4096 == 0)
      && Mapping(data, phs, maps, cr3, kernel, Zone(pmm.home, PMM_ALLOC_FLAG_KERNEL), s0, r0,
                 old(Snap(pmm.states, phys.ram, space.own)), Snap(pmm.states, phys.ram, space.own), |phs|, false)
    ensures r.Err? ==> 0 in pmm.states || exists i :: 0 <= i < |phs| && phs[i].p_vaddr % 4096 != 0
    ensures Paid(old(pmm.states), pmm.states, Zone(pmm.home, PMM_ALLOC_FLAG_KERNEL), old(space.own).Keys,
      space.own.Keys, Nodes(phs, |phs|), r.Ok?, r.Halt?)
  {
    hide Represents, ArenasOk, Homes, Preserves, KernelUntouched, SpaceOk, KeptOutside, AllMapped, SpaceStep,
      Backed, Outside, Room, TreeFrames, Walk, Zone, Charged, Paid, Nodes, Paths, Mapping, FirstPage, Pages, MemSize,
        PageCount;
    ghost var zone := Zone(pmm.home, PMM_ALLOC_FLAG_KERNEL);
    ghost var a := Snap(pmm.states, phys.ram, space.own);
    for i := 0 to |segments|
      invariant space.Valid()
      invariant forall j :: 0 <= j < |segments| ==> segments[j].vmo.pages == maps[j] && segments[j].vmo.size % 4096 == 0
      invariant Mapping(data, phs, maps, cr3, kernel, zone, s0, r0, a, Snap(pmm.states, phys.ram, space.own), i, false)
      invariant forall j :: 0 <= j < i ==> phs[j].p_vaddr % 4096 == 0
    {
      var seg := segments[i];
      ghost var b := Snap(pmm.states, phys.ram, space.own);
      SegmentReady(data, phs, maps, cr3, kernel, zone, s0, r0, a, b, i);
      SpaceCovers(b.s, b.ram, cr3, kernel, b.own);
      r := space.MapVmo(seg.vmo, seg.vaddr, seg.size, seg.flags);
      ghost var c := Snap(pmm.states, phys.ram, space.own);
      if !r.Ok? {
        MappingFails(data, phs, maps, cr3, kernel, zone, s0, r0, a, b, c, i, r.Halt?);
        return;
      }
      MappingStep(data, phs, maps, cr3, kernel, zone, s0, r0, a, b, c, i);
    }
    MappingParts(data, phs, maps, cr3, kernel, zone, s0, r0, a, Snap(pmm.states, phys.ram, space.own), |phs|, false);
    return Ok(());
  }

  /** The last part of `load_elf_process`: the stack is created, zeroed and mapped. */
  method MapStack(phys: PhysMem, pmm: Manager, cr3: nat, ghost kernel: set<nat>, ghost data: seq<byte>,
      ghost phs: seq<ProgramHeader>, ghost maps: seq<PageMap>, space: AddressSpace, loaded: LoadedElf,
      ghost s0: States, ghost r0: Ram, ghost a: Snap)
      returns (r: Outcome<ProcessImage>)
    requires space.Valid() && space.phys == phys && space.pmm == pmm && space.cr3 == cr3 && space.kernel == kernel
    requires loaded.stackAddr == STACK_ADDR && loaded.stackSize == STACK_SIZE
    requires forall i :: 0 <= i < |phs| ==> phs[i].p_vaddr % 4096 == 0
    requires Mapping(data, phs, maps, cr3, kernel, Zone(pmm.home, PMM_ALLOC_FLAG_KERNEL), s0, r0, a,
      Snap(pmm.states, phys.ram, space.own), |phs|, false)
    requires a.own.Keys == {Root}
    requires Billed(s0, pmm.states, Zone(pmm.home, PMM_ALLOC_FLAG_USER), Zone(pmm.home, PMM_ALLOC_FLAG_KERNEL),
      PagesOf(phs), 1 + |Nodes(phs, |phs|)|)
    modifies space, phys, pmm`arenas, pmm`states
    ensures KernelUntouched(r0, phys.ram, kernel) && Preserves(s0, r0, pmm.states, phys.ram, {})
    ensures r.Ok? ==>
      && r.value == ProcessImage(loaded.entry, space, STACK_ADDR, STACK_SIZE) && space.Valid()
      && StackVisible(phys.ram, space.root)
      && Elsewhere(phs, |phs|, true, r0, cr3, phys.ram, space.root)
      && (forall i :: 0 <= i < |phs| ==> InFile(data, phs[i]) && SegmentVisible(data, phs, i, phys.ram, space.root))
      && Billed(s0, pmm.states, Zone(pmm.home, PMM_ALLOC_FLAG_USER), Zone(pmm.home, PMM_ALLOC_FLAG_KERNEL),
         UserPages(phs), TablePages(phs))
    ensures r.Err? ==> 0 in pmm.states
    ensures r.Halt? ==>
      UsedUp(s0, pmm.states, Zone(pmm.home, PMM_ALLOC_FLAG_USER), Zone(pmm.home, PMM_ALLOC_FLAG_KERNEL),
        UserPages(phs), TablePages(phs))
  {
    hide Represents, ArenasOk, Homes, Preserves, KernelUntouched, SpaceOk, KeptOutside, AllMapped, SpaceStep, Mapping,
      Billed, UsedUp, Charged, Paid, Zone, Backed, Outside, Room, TreeFrames, LoadEffect, Image, SegmentVisible,
      StackVisible, InFile, Walk, Elsewhere, Nodes, Paths, TablePages, UserPages, PagesOf;
    ghost var user, zone := Zone(pmm.home, PMM_ALLOC_FLAG_USER), Zone(pmm.home, PMM_ALLOC_FLAG_KERNEL);
    ghost var b := Snap(pmm.states, phys.ram, space.own);
    SpaceCovers(b.s, b.ram, cr3, kernel, b.own);
    var made := MakeStack(phys, pmm, loaded.stackSize);
    ghost var c := Snap(pmm.states, phys.ram, space.own);
    StackMade(data, phs, maps, cr3, kernel, zone, s0, r0, a, b, c);
    StackBilled(s0, b.s, c.s, user, zone, phs, made.Halt?);
    if !made.Ok? {
      return Halt;
    }
    var stack := made.value;
    StackReady(data, phs, maps, cr3, kernel, zone, s0, r0, a, b, c, stack.pages);
    var stackBottom := loaded.stackAddr - loaded.stackSize;
    var m := space.MapVmo(stack, stackBottom - stackBottom % 4096, loaded.stackSize, 6);
    ghost var d := Snap(pmm.states, phys.ram, space.own);
    StackTablesBilled(s0, a, b, c, d, user, zone, data, phs, maps, cr3, kernel, r0, m.Ok?, m.Halt?);
    StackMapped(data, phs, maps, cr3, kernel, s0, r0, a, b, c, d, zone);
    if !m.Ok? {
      return if m.Halt? then Halt else Err(m.error);
    }
    StackDone(data, phs, maps, cr3, kernel, s0, r0, a, b, c, d, zone, stack.pages);
    return Ok(ProcessImage(loaded.entry, space, loaded.stackAddr, loaded.stackSize));
  }

  /** The state of the mapping loop: `s0` and `r0` are from before the load, `a` from before the
      loop, and `b` is now. */
  ghost predicate Mapping(data: seq<byte>, phs: seq<ProgramHeader>, maps: seq<PageMap>, cr3: nat, kernel: set<nat>,
      zone: set<nat>, s0: States, r0: Ram, a: Snap, b: Snap, i: nat, stack: bool)
    requires i <= |phs|
  {
    && Fits(phs, b.ram, cr3) && Progress(data, phs, maps, b.s, b.ram, b.own, i, stack)
    && KernelUntouched(r0, b.ram, kernel) && r0.Keys == b.ram.Keys
    && Root in b.own && Elsewhere(phs, i, stack, r0, cr3, b.ram, b.own[Root])
    && Preserves(s0, r0, b.s, b.ram, {}) && WereFree(s0, b.own)
    && Paid(a.s, b.s, zone, a.own.Keys, b.own.Keys, Nodes(phs, i), true, false)
  }

  /** All tables of the process were Free pages before. */
  ghost predicate WereFree(s: States, own: Tree)
  {
    forall n :: n in own ==> own[n] in s && s[own[n]] == Free
  }

  /** So writing to them disturbs nobody. */
  lemma StepPreserves(s0: States, r0: Ram, kernel: set<nat>, b: Snap, c: Snap)
    requires Preserves(s0, r0, b.s, b.ram, {}) && WereFree(s0, b.own) &&
      SpaceStep(b.s, b.ram, kernel, b.own, c.s, c.ram, c.own)
    ensures Preserves(s0, r0, c.s, c.ram, {}) && WereFree(s0, c.own)
  {
    forall q | q in TreeFrames(b.own)
      ensures q in s0 && s0[q] == Free
    {
      var n :| n in b.own && b.own[n] == q;
    }
    PreservesTrans(s0, r0, b.s, b.ram, c.s, c.ram, {}, TreeFrames(b.own));
    forall n | n in c.own
      ensures c.own[n] in s0 && s0[c.own[n]] == Free
    {
      if n !in b.own {
        assert c.own[n] in b.s && b.s[c.own[n]] == Free;
      }
    }
  }

  lemma MappingParts(data: seq<byte>, phs: seq<ProgramHeader>, maps: seq<PageMap>, cr3: nat, kernel: set<nat>,
      zone: set<nat>, s0: States, r0: Ram, a: Snap, b: Snap, i: nat, stack: bool)
    requires i <= |phs| && Mapping(data, phs, maps, cr3, kernel, zone, s0, r0, a, b, i, stack)
    ensures KernelUntouched(r0, b.ram, kernel) && Preserves(s0, r0, b.s, b.ram, {})
    ensures Paid(a.s, b.s, zone, a.own.Keys, b.own.Keys, Nodes(phs, i), true, false)
  {
    hide Fits, Progress, KernelUntouched, Elsewhere, Preserves, WereFree, Paid, Nodes;
  }

  lemma MappingStep(data: seq<byte>, phs: seq<ProgramHeader>, maps: seq<PageMap>, cr3: nat, kernel: set<nat>,
      zone: set<nat>, s0: States, r0: Ram, a: Snap, b: Snap, c: Snap, i: nat)
    requires i < |phs| == |maps| && Mapping(data, phs, maps, cr3, kernel, zone, s0, r0, a, b, i, false) &&
      SpaceOk(b.s, b.ram, cr3, kernel, b.own)
    requires SpaceStep(b.s, b.ram, kernel, b.own, c.s, c.ram, c.own)
    requires KeptOutside(b.ram, b.own, FirstPage(phs[i]), FirstPage(phs[i]) + Pages(phs[i]), c.ram, c.own)
    requires AllMapped(c.ram, c.own, maps[i], FirstPage(phs[i]), Pages(phs[i]), phs[i].p_flags)
    requires Paid(b.s, c.s, zone, b.own.Keys, c.own.Keys, Paths(FirstPage(phs[i]), Pages(phs[i])), true, false)
    ensures Mapping(data, phs, maps, cr3, kernel, zone, s0, r0, a, c, i + 1, false)
  {
    hide Fits, Progress, KernelUntouched, Elsewhere, Preserves, Paid, Paths, SpaceOk, KeptOutside, AllMapped,
      SpaceStep, FirstPage, Pages, WereFree;
    StepFacts(b.s, b.ram, kernel, b.own, c.s, c.ram, c.own);
    UntouchedTrans(r0, b.ram, c.ram, kernel);
    FitsStep(phs, b.s, b.ram, cr3, kernel, b.own, c.ram);
    ProgressStep(data, phs, maps, kernel, b.s, b.ram, b.own, i, c.s, c.ram, c.own);
    ElsewhereSegment(phs, i, r0, cr3, b.ram, b.own, c.ram, c.own);
    StepPreserves(s0, r0, kernel, b, c);
    PaidTrans(a.s, b.s, c.s, zone, a.own.Keys, b.own.Keys, c.own.Keys, Nodes(phs, i),
      Paths(FirstPage(phs[i]), Pages(phs[i])), true, false);
    RootKept(b.ram, b.own, FirstPage(phs[i]), FirstPage(phs[i]) + Pages(phs[i]), c.ram, c.own);
  }

  lemma RootKept(ram: Ram, own: Tree, lo: nat, hi: nat, ram': Ram, own': Tree)
    requires KeptOutside(ram, own, lo, hi, ram', own')
    ensures Root in own && Root in own' && own'[Root] == own[Root]
  {
  }

  lemma MappingFails(data: seq<byte>, phs: seq<ProgramHeader>, maps: seq<PageMap>, cr3: nat, kernel: set<nat>,
      zone: set<nat>, s0: States, r0: Ram, a: Snap, b: Snap, c: Snap, i: nat, halted: bool)
    requires i < |phs| && Mapping(data, phs, maps, cr3, kernel, zone, s0, r0, a, b, i, false)
    requires SpaceStep(b.s, b.ram, kernel, b.own, c.s, c.ram, c.own)
    requires Paid(b.s, c.s, zone, b.own.Keys, c.own.Keys, Paths(FirstPage(phs[i]), Pages(phs[i])), false, halted)
    ensures KernelUntouched(r0, c.ram, kernel) && Preserves(s0, r0, c.s, c.ram, {})
    ensures Paid(a.s, c.s, zone, a.own.Keys, c.own.Keys, Nodes(phs, |phs|), false, halted)
  {
    hide Fits, Progress, KernelUntouched, Elsewhere, Preserves, Paid, Paths, SpaceStep, FirstPage, Pages, WereFree;
    StepFacts(b.s, b.ram, kernel, b.own, c.s, c.ram, c.own);
    UntouchedTrans(r0, b.ram, c.ram, kernel);
    StepPreserves(s0, r0, kernel, b, c);
    PaidTrans(a.s, b.s, c.s, zone, a.own.Keys, b.own.Keys, c.own.Keys, Nodes(phs, i),
      Paths(FirstPage(phs[i]), Pages(phs[i])), false, halted);
    NodesGrow(phs, i + 1, |phs|);
    PaidShort(a.s, c.s, zone, a.own.Keys, c.own.Keys, Nodes(phs, i + 1), Nodes(phs, |phs|), halted);
  }

  lemma {:induction false} NodesGrow(phs: seq<ProgramHeader>, i: nat, n: nat)
    requires i <= n <= |phs|
    ensures Nodes(phs, i) + Nodes(phs, n) == Nodes(phs, n)
    decreases n
  {
    hide Paths;
    if i < n {
      NodesGrow(phs, i, n - 1);
    }
  }

  // What a load costs

  lemma NothingBilled(s: States, user: set<nat>, kernel: set<nat>)
    ensures Billed(s, s, user, kernel, 0, 0)
  {
  }

  lemma FileBilled(s0: States, s1: States, user: set<nat>, zone: set<nat>, phs: seq<ProgramHeader>, ok: bool,
      halted: bool)
    requires Spent(s0, s1, user, PagesOf(phs), ok, halted)
    ensures ok ==> Billed(s0, s1, user, zone, PagesOf(phs), 0)
    ensures halted ==> UsedUp(s0, s1, user, zone, UserPages(phs), TablePages(phs))
  {
    hide Charged, Billed, UsedUp, PagesOf, Nodes, Paths;
    NothingBilled(s0, user, zone);
    if ok {
      BillUser(s0, s0, s1, user, zone, 0, 0, PagesOf(phs), false);
    }
    if halted {
      BillUser(s0, s0, s1, user, zone, 0, 0, PagesOf(phs), true);
      UsedUpMore(s0, s1, user, zone, PagesOf(phs), 0, UserPages(phs), TablePages(phs));
    }
  }

  lemma RootBilled(s0: States, s1: States, s2: States, user: set<nat>, zone: set<nat>, phs: seq<ProgramHeader>,
      halted: bool)
    requires Charged(s1, s2, zone, 1, halted)
    ensures Billed(s0, s1, user, zone, PagesOf(phs), 0) ==>
      if halted then UsedUp(s0, s2, user, zone, UserPages(phs), TablePages(phs))
        else Billed(s0, s2, user, zone, PagesOf(phs), 1)
  {
    hide Charged, Billed, UsedUp, PagesOf, Nodes, Paths;
    if Billed(s0, s1, user, zone, PagesOf(phs), 0) {
      BillKernel(s0, s1, s2, user, zone, PagesOf(phs), 0, 1, halted);
      if halted {
        UsedUpMore(s0, s2, user, zone, PagesOf(phs), 1, UserPages(phs), TablePages(phs));
      }
    }
  }

  lemma SegmentsBilled(s0: States, s2: States, s3: States, user: set<nat>, zone: set<nat>, phs: seq<ProgramHeader>,
      had: set<Node>, has: set<Node>, ok: bool, halted: bool)
    requires Billed(s0, s2, user, zone, PagesOf(phs), 1) && had == {Root}
    requires Paid(s2, s3, zone, had, has, Nodes(phs, |phs|), ok, halted)
    ensures ok ==> Billed(s0, s3, user, zone, PagesOf(phs), 1 + |Nodes(phs, |phs|)|)
    ensures halted ==> UsedUp(s0, s3, user, zone, UserPages(phs), TablePages(phs))
  {
    hide Charged, Billed, UsedUp, PagesOf, Nodes, Paths;
    NoRoot(phs, |phs|);
    var nodes := Nodes(phs, |phs|);
    assert nodes - had == nodes;
    if ok {
      BillKernel(s0, s2, s3, user, zone, PagesOf(phs), 1, |nodes|, false);
    }
    if halted {
      BillKernel(s0, s2, s3, user, zone, PagesOf(phs), 1, |nodes|, true);
      MoreNodes(nodes, Paths(STACK_PAGE, 1));
      UsedUpMore(s0, s3, user, zone, PagesOf(phs), 1 + |nodes|, UserPages(phs), TablePages(phs));
    }
  }

  lemma MoreNodes(x: set<Node>, y: set<Node>)
    ensures |x + y| == |x| + |y - x|
  {
    assert x + y == x + (y - x) && x !! (y - x);
  }

  lemma {:induction false} NoRoot(phs: seq<ProgramHeader>, i: nat)
    requires i <= |phs|
    ensures Root !in Nodes(phs, i)
  {
    if i > 0 {
      NoRoot(phs, i - 1);
      NoRootOn(FirstPage(phs[i - 1]), Pages(phs[i - 1]));
    }
  }

  lemma {:induction false} NoRootOn(lo: nat, n: nat)
    ensures Root !in Paths(lo, n)
  {
    if n > 0 {
      NoRootOn(lo, n - 1);
    }
  }

  lemma StackBilled(s0: States, s3: States, s4: States, user: set<nat>, zone: set<nat>, phs: seq<ProgramHeader>,
      halted: bool)
    requires Billed(s0, s3, user, zone, PagesOf(phs), 1 + |Nodes(phs, |phs|)|) &&
      Charged(s3, s4, user, PageCount(STACK_SIZE), halted)
    ensures if halted then UsedUp(s0, s4, user, zone, UserPages(phs), TablePages(phs))
            else Billed(s0, s4, user, zone, UserPages(phs), 1 + |Nodes(phs, |phs|)|)
  {
    hide Charged, Billed, UsedUp, PagesOf, Nodes, Paths;
    BillUser(s0, s3, s4, user, zone, PagesOf(phs), 1 + |Nodes(phs, |phs|)|, PageCount(STACK_SIZE), halted);
    if halted {
      MoreNodes(Nodes(phs, |phs|), Paths(STACK_PAGE, 1));
      UsedUpMore(s0, s4, user, zone, UserPages(phs), 1 + |Nodes(phs, |phs|)|, UserPages(phs), TablePages(phs));
    }
  }

  lemma StackTablesBilled(s0: States, a: Snap, b: Snap, c: Snap, d: Snap, user: set<nat>, zone: set<nat>,
      data: seq<byte>, phs: seq<ProgramHeader>, maps: seq<PageMap>, cr3: nat, kernel: set<nat>, r0: Ram, ok: bool,
      halted: bool)
    requires Mapping(data, phs, maps, cr3, kernel, zone, s0, r0, a, b, |phs|, false) && a.own.Keys == {Root} &&
      c.own == b.own
    requires Billed(s0, c.s, user, zone, UserPages(phs), 1 + |Nodes(phs, |phs|)|)
    requires Paid(c.s, d.s, zone, c.own.Keys, d.own.Keys, Paths(STACK_PAGE, 1), ok, halted)
    ensures ok ==> Billed(s0, d.s, user, zone, UserPages(phs), TablePages(phs))
    ensures halted ==> UsedUp(s0, d.s, user, zone, UserPages(phs), TablePages(phs))
  {
    hide Charged, Billed, UsedUp, UserPages, Nodes, Paths, Fits, Progress, KernelUntouched, Elsewhere, Preserves,
      WereFree;
    var nodes, more := Nodes(phs, |phs|), Paths(STACK_PAGE, 1);
    NoRootOn(STACK_PAGE, 1);
    assert more - c.own.Keys == more - nodes;
    MoreNodes(nodes, more);
    if ok {
      BillKernel(s0, c.s, d.s, user, zone, UserPages(phs), 1 + |nodes|, |more - nodes|, false);
    }
    if halted {
      BillKernel(s0, c.s, d.s, user, zone, UserPages(phs), 1 + |nodes|, |more - nodes|, true);
    }
  }

  // Small steps of the two methods

  lemma EnvCovers(s: States, ram: Ram, cr3: nat, kernel: set<nat>)
    requires KernelEnv(s, ram, cr3, kernel)
    ensures s.Keys <= ram.Keys
  {
  }

  lemma SpaceCovers(s: States, ram: Ram, cr3: nat, kernel: set<nat>, own: Tree)
    requires SpaceOk(s, ram, cr3, kernel, own)
    ensures s.Keys <= ram.Keys
  {
  }

  lemma FitsKept(phs: seq<ProgramHeader>, ram: Ram, ram': Ram, cr3: nat, kernel: set<nat>, s: States)
    requires Fits(phs, ram, cr3) && KernelEnv(s, ram, cr3, kernel) && ram'.Keys == ram.Keys &&
      KernelUntouched(ram, ram', kernel)
    ensures Fits(phs, ram', cr3)
  {
    FitsStays(phs, ram, ram', cr3, kernel);
  }

  lemma FitsStep(phs: seq<ProgramHeader>, s: States, ram: Ram, cr3: nat, kernel: set<nat>, own: Tree, ram': Ram)
    requires Fits(phs, ram, cr3) && SpaceOk(s, ram, cr3, kernel, own) && ram'.Keys == ram.Keys &&
      KernelUntouched(ram, ram', kernel)
    ensures Fits(phs, ram', cr3)
  {
    FitsStays(phs, ram, ram', cr3, kernel);
  }

  lemma KernelSelf(r: Ram, kernel: set<nat>)
    ensures KernelUntouched(r, r, kernel)
  {
  }

  /** Two preserving steps keep the running kernel, and the room it leaves. */
  lemma EnvKept(phs: seq<ProgramHeader>, s0: States, r0: Ram, cr3: nat, kernel: set<nat>, s: States, ram: Ram,
      s': States, ram': Ram)
    requires KernelEnv(s, ram, cr3, kernel) && Preserves(s, ram, s', ram', {}) && Fits(phs, ram, cr3)
    requires KernelUntouched(r0, ram, kernel) && r0.Keys == ram.Keys && Preserves(s0, r0, s, ram, {})
    ensures KernelEnv(s', ram', cr3, kernel) && Fits(phs, ram', cr3)
    ensures KernelUntouched(r0, ram', kernel) && r0.Keys == ram'.Keys && Preserves(s0, r0, s', ram', {})
  {
    hide KernelEnv, Fits, Preserves, KernelUntouched;
    KernelEnvStays(s, ram, cr3, kernel, s', ram');
    FitsKept(phs, ram, ram', cr3, kernel, s);
    UntouchedTrans(r0, ram, ram', kernel);
    PreservesTrans(s0, r0, s, ram, s', ram', {}, {});
  }

  lemma UntouchedTrans(r0: Ram, r1: Ram, r2: Ram, kernel: set<nat>)
    requires KernelUntouched(r0, r1, kernel) && KernelUntouched(r1, r2, kernel) && r0.Keys == r1.Keys
    ensures KernelUntouched(r0, r2, kernel)
  {
  }

  lemma MappingStart(data: seq<byte>, phs: seq<ProgramHeader>, maps: seq<PageMap>, cr3: nat, kernel: set<nat>,
      zone: set<nat>, s0: States, r0: Ram, s: States, ram: Ram, a: Snap, root: nat)
    requires KernelEnv(s0, r0, cr3, kernel) && Images(data, phs, s, ram, maps) && Preserves(s, ram, a.s, a.ram, {}) &&
      root in s && s[root] == Free
    requires Preserves(s0, r0, s, ram, {}) && Preserves(s0, r0, a.s, a.ram, {}) && a.own == map[Root := root] &&
      Fits(phs, a.ram, cr3)
    requires KernelUntouched(r0, a.ram, kernel) && r0.Keys == a.ram.Keys && forall va ::
      Walk(a.ram, root, va) == Walk(a.ram, cr3, va)
    ensures Mapping(data, phs, maps, cr3, kernel, zone, s0, r0, a, a, 0, false) && |maps| == |phs|
  {
    hide Images, KernelEnv, Fits, KernelUntouched, Walk, Elsewhere, Paid, Progress;
    ProgressStart(data, phs, maps, s, ram, a.s, a.ram, root);
    ElsewhereStart(phs, r0, s0, cr3, kernel, a.ram, root);
    PaidNothing(a.s, zone, a.own.Keys, {}, false);
    assert s0[root] == Free;
  }

  lemma ProgressStart(data: seq<byte>, phs: seq<ProgramHeader>, maps: seq<PageMap>, s: States, ram: Ram, s': States,
      ram': Ram, root: nat)
    requires Images(data, phs, s, ram, maps) && Preserves(s, ram, s', ram', {}) && root in s && s[root] == Free
    ensures Progress(data, phs, maps, s', ram', map[Root := root], 0, false) && |maps| == |phs|
  {
    hide Image, Disjoint;
    forall i | 0 <= i < |maps|
      ensures Outside(maps[i], {}) && Outside(maps[i], TreeFrames(map[Root := root]))
    {
      assert Backed(ram, s, maps[i]);
    }
    ImagesStay(data, phs, s, ram, maps, s', ram', {});
  }

  /** A loaded segment meets everything `map_vmo` asks for, and misses no page. */
  lemma SegmentReady(data: seq<byte>, phs: seq<ProgramHeader>, maps: seq<PageMap>, cr3: nat, kernel: set<nat>,
      zone: set<nat>, s0: States, r0: Ram, a: Snap, b: Snap, i: nat)
    requires i < |phs| && Mapping(data, phs, maps, cr3, kernel, zone, s0, r0, a, b, i, false)
    ensures |maps| == |phs| && Backed(b.ram, b.s, maps[i]) && Outside(maps[i], TreeFrames(b.own))
    ensures FirstPage(phs[i]) == phs[i].p_vaddr / 4096 && Pages(phs[i]) == PageCount(MemSize(phs[i]))
    ensures phs[i].p_vaddr + PageCount(MemSize(phs[i])) * 4096 <= VADDR_LIMIT
    ensures Room(b.ram, cr3, phs[i].p_vaddr / 4096, PageCount(MemSize(phs[i])))
    ensures forall j :: 0 <= j < PageCount(MemSize(phs[i])) ==> !PageMissing(maps[i], j)
  {
    hide Room, SegmentMapped, Disjoint, Elsewhere, KernelUntouched, Preserves, Paid, WereFree;
    NoPageMissing(data, phs[i], MemSize(phs[i]), b.s, b.ram, maps[i]);
  }

  lemma NoPageMissing(data: seq<byte>, ph: ProgramHeader, n: nat, s: States, ram: Ram, pages: PageMap)
    requires InFile(data, ph) && Image(data, ph, n, ram, pages) && Backed(ram, s, pages)
    ensures forall j :: 0 <= j < PageCount(n) ==> !PageMissing(pages, j)
  {
    forall j | 0 <= j < PageCount(n)
      ensures !PageMissing(pages, j)
    {
      assert j * 4096 % 4096 == 0 && j * 4096 < n;
    }
  }

  /** Making the stack object is a step that leaves all tables alone. */
  lemma StackStep(cr3: nat, kernel: set<nat>, b: Snap, c: Snap)
    requires SpaceOk(b.s, b.ram, cr3, kernel, b.own) && Preserves(b.s, b.ram, c.s, c.ram, {}) && c.own == b.own
    ensures SpaceOk(c.s, c.ram, cr3, kernel, c.own) && SpaceStep(b.s, b.ram, kernel, b.own, c.s, c.ram, c.own)
    ensures KeptOutside(b.ram, b.own, 0, 0, c.ram, c.own)
  {
    hide SpaceOk, KeptOutside, KernelUntouched, Preserves;
    SpaceStays(b.s, b.ram, cr3, kernel, b.own, c.s, c.ram);
    PreservesWeaken(b.s, b.ram, c.s, c.ram, TreeFrames(b.own));
  }

  lemma StackMade(data: seq<byte>, phs: seq<ProgramHeader>, maps: seq<PageMap>, cr3: nat, kernel: set<nat>,
      zone: set<nat>, s0: States, r0: Ram, a: Snap, b: Snap, c: Snap)
    requires Mapping(data, phs, maps, cr3, kernel, zone, s0, r0, a, b, |phs|, false) &&
      SpaceOk(b.s, b.ram, cr3, kernel, b.own)
    requires Preserves(b.s, b.ram, c.s, c.ram, {}) && c.own == b.own
    ensures SpaceOk(c.s, c.ram, cr3, kernel, c.own)
    ensures KernelUntouched(r0, c.ram, kernel) && Preserves(s0, r0, c.s, c.ram, {}) && WereFree(s0, c.own) &&
      r0.Keys == c.ram.Keys
    ensures Fits(phs, c.ram, cr3) && Progress(data, phs, maps, c.s, c.ram, c.own, |phs|, false)
    ensures Root in c.own && Elsewhere(phs, |phs|, false, r0, cr3, c.ram, c.own[Root])
  {
    hide SpaceOk, KeptOutside, KernelUntouched, Preserves, Fits, Elsewhere, Paid, SpaceStep, Images, SegmentMapped,
      Outside, Shown, WereFree;
    StackStep(cr3, kernel, b, c);
    StepFacts(b.s, b.ram, kernel, b.own, c.s, c.ram, c.own);
    UntouchedTrans(r0, b.ram, c.ram, kernel);
    StepPreserves(s0, r0, kernel, b, c);
    FitsStep(phs, b.s, b.ram, cr3, kernel, b.own, c.ram);
    ProgressKept(data, phs, maps, kernel, b.s, b.ram, b.own, |phs|, false, c.s, c.ram, c.own, 0, 0, |phs|, false);
    ElsewhereStep(phs, |phs|, |phs|, false, false, r0, cr3, b.ram, b.own, 0, 0, c.ram, c.own);
    RootKept(b.ram, b.own, 0, 0, c.ram, c.own);
  }

  lemma StackReady(data: seq<byte>, phs: seq<ProgramHeader>, maps: seq<PageMap>, cr3: nat, kernel: set<nat>,
      zone: set<nat>, s0: States, r0: Ram, a: Snap, b: Snap, c: Snap, pages: PageMap)
    requires SpaceOk(b.s, b.ram, cr3, kernel, b.own) && c.own == b.own && Fits(phs, c.ram, cr3)
    requires LoadEffect(b.s, b.ram, c.s, c.ram, pages) && Backed(c.ram, c.s, pages) &&
      Image([], ZeroSegment(4096), 4096, c.ram, pages)
    ensures Outside(pages, TreeFrames(c.own)) && Room(c.ram, cr3, STACK_PAGE, 1)
    ensures forall j :: 0 <= j < 1 ==> !PageMissing(pages, j)
  {
    hide Room, SpaceOk;
    NoPageMissing([], ZeroSegment(4096), 4096, c.s, c.ram, pages);
    TablesAllocated(b.s, b.ram, cr3, kernel, b.own);
    GrownOutside(b.s, map[], pages, TreeFrames(b.own));
  }

  lemma StackMapped(data: seq<byte>, phs: seq<ProgramHeader>, maps: seq<PageMap>, cr3: nat, kernel: set<nat>,
                    s0: States, r0: Ram, a: Snap, b: Snap, c: Snap, d: Snap, zone: set<nat>)
    requires KernelUntouched(r0, c.ram, kernel) && Preserves(s0, r0, c.s, c.ram, {}) && WereFree(s0, c.own) &&
      r0.Keys == c.ram.Keys
    requires SpaceStep(c.s, c.ram, kernel, c.own, d.s, d.ram, d.own)
    ensures KernelUntouched(r0, d.ram, kernel) && Preserves(s0, r0, d.s, d.ram, {})
  {
    hide KernelUntouched, Preserves, WereFree, SpaceStep;
    StepFacts(c.s, c.ram, kernel, c.own, d.s, d.ram, d.own);
    UntouchedTrans(r0, c.ram, d.ram, kernel);
    StepPreserves(s0, r0, kernel, c, d);
  }

  lemma StackDone(data: seq<byte>, phs: seq<ProgramHeader>, maps: seq<PageMap>, cr3: nat, kernel: set<nat>,
                  s0: States, r0: Ram, a: Snap, b: Snap, c: Snap, d: Snap, zone: set<nat>, pages: PageMap)
    requires SpaceOk(d.s, d.ram, cr3, kernel, d.own) && SpaceStep(c.s, c.ram, kernel, c.own, d.s, d.ram, d.own)
    requires KeptOutside(c.ram, c.own, STACK_PAGE, STACK_PAGE + 1, d.ram, d.own)
    requires Fits(phs, c.ram, cr3) && Progress(data, phs, maps, c.s, c.ram, c.own, |phs|, false)
    requires Root in c.own && Elsewhere(phs, |phs|, false, r0, cr3, c.ram, c.own[Root])
    requires Backed(c.ram, c.s, pages) && Backed(d.ram, d.s, pages) && Outside(pages, TreeFrames(c.own)) &&
      Image([], ZeroSegment(4096), 4096, c.ram, pages)
    requires AllMapped(d.ram, d.own, pages, STACK_PAGE, 1, 6) && forall i :: 0 <= i < |phs| ==>
      phs[i].p_vaddr % 4096 == 0
    ensures Root in d.own && StackVisible(d.ram, d.own[Root]) &&
      Elsewhere(phs, |phs|, true, r0, cr3, d.ram, d.own[Root])
    ensures forall i :: 0 <= i < |phs| ==> InFile(data, phs[i]) && SegmentVisible(data, phs, i, d.ram, d.own[Root])
  {
    hide SpaceOk, KeptOutside, Elsewhere, SpaceStep, Images, SegmentMapped, Outside, Backed, Image, AllMapped,
      StackVisible, SegmentVisible, InFile, Room;
    ProgressKept(data, phs, maps, kernel, c.s, c.ram, c.own, |phs|, false, d.s, d.ram, d.own, STACK_PAGE,
      STACK_PAGE + 1, |phs|, true);
    AllSeen(data, phs, maps, cr3, kernel, d.s, d.ram, d.own);
    ElsewhereStep(phs, |phs|, |phs|, false, true, r0, cr3, c.ram, c.own, STACK_PAGE, STACK_PAGE + 1, d.ram, d.own);
    StackSeen(kernel, cr3, c.s, c.ram, c.own, d.s, d.ram, d.own, pages);
    RootKept(c.ram, c.own, STACK_PAGE, STACK_PAGE + 1, d.ram, d.own);
  }

  lemma TablesAllocated(s: States, ram: Ram, cr3: nat, kernel: set<nat>, own: Tree)
    requires SpaceOk(s, ram, cr3, kernel, own)
    ensures forall p :: p in TreeFrames(own) ==> p in s && s[p] == Allocated
  {
  }

  lemma SpaceKernel(s: States, ram: Ram, cr3: nat, kernel: set<nat>, own: Tree)
    requires SpaceOk(s, ram, cr3, kernel, own)
    ensures KernelOk(ram, cr3, kernel) && RamOk(ram) && Root in own
  {
  }

  lemma AllSeen(data: seq<byte>, phs: seq<ProgramHeader>, maps: seq<PageMap>, cr3: nat, kernel: set<nat>, s: States,
      ram: Ram, own: Tree)
    requires SpaceOk(s, ram, cr3, kernel, own) && ProgressBut(data, phs, maps, s, ram, own, |phs|, |phs|, true)
    requires forall i :: 0 <= i < |phs| ==>
      phs[i].p_vaddr % 4096 == 0 && phs[i].p_vaddr + Pages(phs[i]) * 4096 <= VADDR_LIMIT
    ensures forall i :: 0 <= i < |phs| ==> InFile(data, phs[i]) && SegmentVisible(data, phs, i, ram, own[Root])
  {
    hide SpaceOk, SegmentMapped, Image, Backed, Disjoint, SegmentVisible, RamOk, Outside, InFile;
    SpaceKernel(s, ram, cr3, kernel, own);
    forall i | 0 <= i < |phs|
      ensures InFile(data, phs[i]) && SegmentVisible(data, phs, i, ram, own[Root])
    {
      SegmentSeen(data, phs, i, ram, s, own, maps[i]);
    }
  }

  lemma StackPage(ram: Ram, own: Tree, pages: PageMap, k: nat)
    requires AllMapped(ram, own, pages, STACK_PAGE, 1, 6) && k < 4096
    ensures !PageMissing(pages, k / 4096) &&
      PageMapped(ram, own, (STACK_ADDR - STACK_SIZE) / 4096 + k / 4096, pages[k / 4096 * 4096].paddr, 6)
  {
    hide PageMapped, PageMissing;
    assert k / 4096 == 0 && (STACK_ADDR - STACK_SIZE) / 4096 == STACK_PAGE;
  }

  lemma StackSeen(kernel: set<nat>, cr3: nat, s2: States, ram2: Ram, own: Tree, s: States, ram: Ram, own': Tree,
      pages: PageMap)
    requires SpaceOk(s, ram, cr3, kernel, own') && SpaceStep(s2, ram2, kernel, own, s, ram, own')
    requires Backed(ram2, s2, pages) && Backed(ram, s, pages) && Outside(pages, TreeFrames(own)) &&
      Image([], ZeroSegment(4096), 4096, ram2, pages)
    requires AllMapped(ram, own', pages, STACK_PAGE, 1, 6)
    ensures StackVisible(ram, own'[Root])
  {
    hide Walk, Fetch, AllMapped, Backed, RamOk, SpaceOk, TreeFrames, Outside;
    SpaceKernel(s, ram, cr3, kernel, own');
    StepFacts(s2, ram2, kernel, own, s, ram, own');
    ImageStays([], ZeroSegment(4096), 4096, s2, ram2, pages, s, ram, TreeFrames(own));
    forall va | STACK_ADDR - STACK_SIZE <= va < STACK_ADDR
      ensures Fetch(ram, own'[Root], va) == Some(0)
      ensures Walk(ram, own'[Root], va).Some? && Walk(ram, own'[Root], va).value.user &&
        Walk(ram, own'[Root], va).value.writable
    {
      var k := va - (STACK_ADDR - STACK_SIZE);
      assert ByteAt(ram, pages, k) == 0;
      StackPage(ram, own', pages, k);
      MappedByte(ram, s, own', pages, STACK_ADDR - STACK_SIZE, 6, k);
    }
  }
}
