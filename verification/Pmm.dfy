/** The physical memory manager (src/mm/pmm.rs): page frames in zoned arenas, handed out by
    linear scans. `states` is the ghost view the rest of the kernel relies on: which page is
    Free, Allocated or Reserved. */
module Pmm {
  import opened Memory

  datatype PageState = Free | Allocated | Reserved

  datatype Page = Page(paddr: nat, state: PageState, refCount: nat)

  datatype ArenaInfo = ArenaInfo(flags: bv32, priority: nat, base: nat, size: nat)

  datatype Arena = Arena(info: ArenaInfo, pages: seq<Page>)

  datatype Status = OK | ERR_INVALID_ARGS | ERR_NO_MEMORY

  /** `Spin` is the endless loop entered when a single-page request cannot be met. */
  datatype AllocResult = Got(paddr: nat) | Failed(status: Status) | Spin

  type States = map<nat, PageState>

  const MAX_ARENAS: nat := 8
  const ARENA_FLAG_LOW_MEM: bv32 := 1
  const ARENA_FLAG_KERNEL: bv32 := 4
  const ARENA_FLAG_USER: bv32 := 8
  const PMM_ALLOC_FLAG_LOW_MEM: bv32 := 1
  const PMM_ALLOC_FLAG_KERNEL: bv32 := 4
  const PMM_ALLOC_FLAG_USER: bv32 := 8

  // Shape of the arena list

  function PageAddr(a: Arena, i: nat): nat
  {
    a.info.base + i * 4096
  }

  predicate InArena(a: Arena, p: nat)
  {
    a.info.base <= p < a.info.base + a.info.size
  }

  /** An allocated page has one reference, a free one none; reserving keeps the count. */
  predicate Counted(st: PageState, refCount: nat)
  {
    (st == Allocated ==> refCount == 1) && (st == Free ==> refCount == 0)
  }

  ghost predicate ArenaOk(a: Arena)
  {
    && a.info.base % 4096 == 0
    && |a.pages| == a.info.size / 4096
    && (forall i :: 0 <= i < |a.pages| ==>
          a.pages[i].paddr == PageAddr(a, i) && Counted(a.pages[i].state, a.pages[i].refCount))
  }

  ghost predicate Apart(x: ArenaInfo, y: ArenaInfo)
  {
    x.base + x.size <= y.base || y.base + y.size <= x.base
  }

  /** What init.rs supplies and the manager itself never checks: aligned, disjoint arenas. */
  ghost predicate ArenasOk(arenas: seq<Arena>)
  {
    && |arenas| <= MAX_ARENAS
    && (forall a :: 0 <= a < |arenas| ==> ArenaOk(arenas[a]))
    && (forall a, b :: 0 <= a < |arenas| && 0 <= b < |arenas| && a != b ==> Apart(arenas[a].info, arenas[b].info))
  }

  ghost predicate HasPage(arenas: seq<Arena>, a: int, i: int)
  {
    0 <= a < |arenas| && 0 <= i < |arenas[a].pages|
  }

  /** Arena and page index of a page. */
  datatype Loc = Loc(arena: nat, index: nat)

  /** `at` places every page address in the arena list, one page per address. */
  ghost predicate Locates(arenas: seq<Arena>, at: map<nat, Loc>)
  {
    && (forall p :: p in at ==>
          HasPage(arenas, at[p].arena, at[p].index) && p == PageAddr(arenas[at[p].arena], at[p].index))
    && (forall a, i :: HasPage(arenas, a, i) ==>
       PageAddr(arenas[a], i) in at && at[PageAddr(arenas[a], i)] == Loc(a, i))
  }

  ghost predicate Represents(arenas: seq<Arena>, at: map<nat, Loc>, states: States)
  {
    && Locates(arenas, at)
    && states.Keys == at.Keys
    && (forall p :: p in states ==> states[p] == arenas[at[p].arena].pages[at[p].index].state)
  }

  lemma PageInArena(a: Arena, i: nat)
    requires ArenaOk(a) && i < |a.pages|
    ensures a.info.base <= PageAddr(a, i) && PageAddr(a, i) + 4096 <= a.info.base + a.info.size
    ensures PageAddr(a, i) % 4096 == 0
  {
  }

  lemma AllPagesInArena(arenas: seq<Arena>)
    requires ArenasOk(arenas)
    ensures forall a, i :: HasPage(arenas, a, i) ==> InArena(arenas[a], PageAddr(arenas[a], i))
  {
    forall a, i | HasPage(arenas, a, i)
      ensures InArena(arenas[a], PageAddr(arenas[a], i))
    {
      PageInArena(arenas[a], i);
    }
  }

  /** No page's reference count differs. */
  ghost predicate SameCounts(arenas: seq<Arena>, arenas': seq<Arena>)
  {
    && SameLayout(arenas, arenas')
    && forall a, i :: HasPage(arenas, a, i) ==> arenas'[a].pages[i].refCount == arenas[a].pages[i].refCount
  }

  function WithState(a: Arena, i: nat, st: PageState, rc: nat): Arena
    requires i < |a.pages|
  {
    a.(pages := a.pages[i := a.pages[i].(state := st, refCount := rc)])
  }

  /** Setting one page's state is one map update in the view. */
  lemma SetStateRepresents(arenas: seq<Arena>, at: map<nat, Loc>, states: States, a: nat, i: nat, st: PageState,
      rc: nat)
    requires ArenasOk(arenas) && Represents(arenas, at, states) && HasPage(arenas, a, i) && Counted(st, rc)
    ensures PageAddr(arenas[a], i) in states && states[PageAddr(arenas[a], i)] == arenas[a].pages[i].state
    ensures var arenas' := arenas[a := WithState(arenas[a], i, st, rc)];
      ArenasOk(arenas') && SameLayout(arenas, arenas') && Represents(arenas', at, states[PageAddr(arenas[a], i) := st])
  {
    hide PageAddr;
    var arenas' := arenas[a := WithState(arenas[a], i, st, rc)];
    assert SameLayout(arenas, arenas');
    LayoutKeepsLocations(arenas, arenas', at);
    StillOk(arenas, arenas', a);
    var q := PageAddr(arenas[a], i);
    assert at[q] == Loc(a, i);
    forall p | p in states
      ensures states[q := st][p] == arenas'[at[p].arena].pages[at[p].index].state
    {
      assert HasPage(arenas, at[p].arena, at[p].index);
    }
  }

  lemma StillOk(arenas: seq<Arena>, arenas': seq<Arena>, a: nat)
    requires ArenasOk(arenas) && SameLayout(arenas, arenas') && a < |arenas|
    requires forall b :: 0 <= b < |arenas| && b != a ==> arenas'[b] == arenas[b]
    requires forall i :: 0 <= i < |arenas[a].pages| ==>
      && arenas'[a].pages[i].paddr == arenas[a].pages[i].paddr
      && Counted(arenas'[a].pages[i].state, arenas'[a].pages[i].refCount)
    ensures ArenasOk(arenas')
  {
    assert ArenaOk(arenas'[a]);
  }

  lemma LayoutKeepsLocations(arenas: seq<Arena>, arenas': seq<Arena>, at: map<nat, Loc>)
    requires Locates(arenas, at) && SameLayout(arenas, arenas')
    ensures Locates(arenas', at)
  {
    forall a, i | HasPage(arenas', a, i)
      ensures PageAddr(arenas'[a], i) in at && at[PageAddr(arenas'[a], i)] == Loc(a, i)
    {
      assert HasPage(arenas, a, i);
    }
  }

  // Selection rules

  /** The filters `pmm_alloc_page` applies to each arena. */
  predicate Admits(info: ArenaInfo, flags: bv32)
  {
    && (flags == PMM_ALLOC_FLAG_LOW_MEM ==> info.flags & ARENA_FLAG_LOW_MEM != 0)
    && (flags == PMM_ALLOC_FLAG_KERNEL ==> info.flags & ARENA_FLAG_KERNEL != 0)
    && (flags == PMM_ALLOC_FLAG_USER ==> info.flags & ARENA_FLAG_USER != 0)
  }

  /** The single filter `pmm_alloc_contiguous` applies. */
  predicate AdmitsRun(info: ArenaInfo, flags: bv32)
  {
    flags == PMM_ALLOC_FLAG_LOW_MEM ==> info.flags & ARENA_FLAG_LOW_MEM != 0
  }

  ghost predicate NoFree(a: Arena)
  {
    forall i :: 0 <= i < |a.pages| ==> a.pages[i].state != Free
  }

  /** Page `i` of arena `a` is the first free page of the first admitted arena that has one. */
  ghost predicate FirstFree(arenas: seq<Arena>, flags: bv32, a: int, i: int)
  {
    && HasPage(arenas, a, i)
    && Admits(arenas[a].info, flags)
    && arenas[a].pages[i].state == Free
    && (forall j :: 0 <= j < i ==> arenas[a].pages[j].state != Free)
    && (forall b :: 0 <= b < a && Admits(arenas[b].info, flags) ==> NoFree(arenas[b]))
  }

  ghost predicate FreeWindow(a: Arena, start: int, count: int)
  {
    && 0 <= start && start + count <= |a.pages|
    && (forall i :: start <= i < start + count ==> a.pages[i].state == Free)
  }

  /** `start` is the lowest all-free window of the first admitted arena that has one. */
  ghost predicate FirstWindow(arenas: seq<Arena>, flags: bv32, count: int, a: int, start: int)
  {
    && 0 <= a < |arenas|
    && AdmitsRun(arenas[a].info, flags)
    && FreeWindow(arenas[a], start, count)
    && (forall s :: 0 <= s < start ==> !FreeWindow(arenas[a], s, count))
    && (forall b :: 0 <= b < a && AdmitsRun(arenas[b].info, flags) ==> NoWindow(arenas[b], count))
  }

  ghost predicate NoWindow(a: Arena, count: int)
  {
    forall s :: 0 <= s <= |a.pages| ==> !FreeWindow(a, s, count)
  }

  /** `q` is one of the page addresses `p, p + 4096, ...` of a run. */
  predicate OnRun(q: nat, p: nat, count: nat)
  {
    p <= q < p + count * 4096 && (q - p) % 4096 == 0
  }

  /** `after` is `before` with exactly the known pages of the run set to `st`. */
  ghost predicate SetRun(before: States, after: States, p: nat, count: nat, st: PageState)
  {
    && after.Keys == before.Keys
    && (forall q :: q in before ==> after[q] == if OnRun(q, p, count) then st else before[q])
  }

  ghost predicate RunIs(states: States, p: nat, count: nat, st: PageState)
  {
    forall q :: OnRun(q, p, count) ==> q in states && states[q] == st
  }

  /** `home` tells for every page which arena it belongs to. */
  ghost predicate Homes(arenas: seq<Arena>, at: map<nat, Loc>, home: map<nat, ArenaInfo>)
  {
    && home.Keys == at.Keys
    && (forall p :: p in at ==> at[p].arena < |arenas| && home[p] == arenas[at[p].arena].info)
  }

  class Manager {
    var arenas: seq<Arena>
    ghost var states: States
    ghost var at: map<nat, Loc>
    ghost var home: map<nat, ArenaInfo>

    ghost predicate Valid()
      reads this
    {
      ArenasOk(arenas) && Represents(arenas, at, states) && Homes(arenas, at, home)
    }

    constructor ()
      ensures Valid() && arenas == [] && states == map[] && home == map[]
    {
      arenas := [];
      states := map[];
      at := map[];
      home := map[];
    }

    /** Appends an arena whose pages are all Free. The caller is trusted to pass an aligned
        region disjoint from the others: with that, the view grows by exactly those pages. */
    method AddArena(info: ArenaInfo, descriptors: bool) returns (status: Status)
      modifies this
      ensures status == if old(|arenas|) >= MAX_ARENAS then ERR_NO_MEMORY
                        else if info.size / 4096 == 0 then ERR_INVALID_ARGS
                        else if !descriptors then ERR_NO_MEMORY else OK
      ensures status != OK ==> arenas == old(arenas) && states == old(states) && at == old(at) && home == old(home)
      ensures status == OK ==> arenas == old(arenas) + [FreshArena(info)]
      ensures status == OK && old(Valid()) && Fits(old(arenas), info) ==>
        && Valid()
        && (forall p: nat :: p in states <==> p in old(states) || OnRun(p, info.base, info.size / 4096))
        && (forall p :: p in states ==> states[p] == if p in old(states) then old(states)[p] else Free)
        && home.Keys == states.Keys && (forall p :: p in home ==>
           home[p] == if p in old(states) then old(home)[p] else info)
    {
      hide Represents, ArenasOk, Homes, Fits, OnRun;
      if |arenas| >= MAX_ARENAS {
        return ERR_NO_MEMORY;
      }
      var pageCount := info.size / 4096;
      if pageCount == 0 {
        return ERR_INVALID_ARGS;
      }
      if !descriptors {
        return ERR_NO_MEMORY;
      }
      var pages := [];
      for i := 0 to pageCount
        invariant |pages| == i
        invariant forall j :: 0 <= j < i ==> pages[j] == Page(info.base + j * 4096, Free, 0)
      {
        pages := pages + [Page(info.base + i * 4096, Free, 0)];
      }
      assert pages == FreshArena(info).pages;
      if Valid() && Fits(arenas, info) {
        ghost var at', states' := AddedArenaRepresents(arenas, at, states, info);
        home := HomesAdded(arenas, at, states, home, info, at', states');
        at, states := at', states';
      }
      arenas := arenas + [Arena(info, pages)];
      return OK;
    }

    /** One page from the first admitted arena with a free page, lowest page first. */
    method AllocPage(flags: bv32) returns (r: AllocResult)
      requires Valid()
      modifies this`arenas, this`states
      ensures Valid() && SameLayout(old(arenas), arenas)
      ensures !r.Failed?
      ensures r.Got? ==>
        && r.paddr in old(states) && old(states)[r.paddr] == Free
        && states == old(states)[r.paddr := Allocated]
        && r.paddr % 4096 == 0
        && (exists a, i :: FirstFree(old(arenas), flags, a, i) && r.paddr == PageAddr(old(arenas)[a], i))
      ensures Charged(old(states), states, Zone(home, flags), 1, r.Spin?)
      ensures r.Spin? ==>
        && states == old(states)
        && (forall a :: 0 <= a < |arenas| && Admits(arenas[a].info, flags) ==> NoFree(arenas[a]))
    {
      hide Represents, Homes, Zone, FreeOf, Admits, Charged;
      for a := 0 to |arenas|
        invariant arenas == old(arenas) && states == old(states)
        invariant forall b :: 0 <= b < a && Admits(arenas[b].info, flags) ==> NoFree(arenas[b])
      {
        if Admits(arenas[a].info, flags) {
          for i := 0 to |arenas[a].pages|
            invariant arenas == old(arenas) && states == old(states)
            invariant forall j :: 0 <= j < i ==> arenas[a].pages[j].state != Free
          {
            if arenas[a].pages[i].state == Free {
              assert FirstFree(arenas, flags, a, i);
              PageInArena(arenas[a], i);
              PageZone(arenas, at, states, home, flags, a, i);
              SetPage(a, i, Allocated, 1);
              TakeOne(old(states), Zone(home, flags), PageAddr(arenas[a], i));
              return Got(arenas[a].pages[i].paddr);
            }
          }
        }
      }
      NothingSpare(arenas, at, states, home, flags);
      return Spin;
    }

    /** Writes one page descriptor. */
    method SetPage(a: nat, i: nat, st: PageState, rc: nat)
      requires Valid() && HasPage(arenas, a, i) && Counted(st, rc)
      modifies this`arenas, this`states
      ensures Valid() && SameLayout(old(arenas), arenas)
      ensures arenas == old(arenas)[a := WithState(old(arenas)[a], i, st, rc)]
      ensures PageAddr(old(arenas)[a], i) in old(states)
      ensures old(states)[PageAddr(old(arenas)[a], i)] == old(arenas)[a].pages[i].state
      ensures states == old(states)[PageAddr(old(arenas)[a], i) := st]
    {
      hide Represents, ArenasOk, Homes;
      SetStateRepresents(arenas, at, states, a, i, st, rc);
      HomesStay(arenas, arenas[a := WithState(arenas[a], i, st, rc)], at, home);
      states := states[PageAddr(arenas[a], i) := st];
      arenas := arenas[a := WithState(arenas[a], i, st, rc)];
    }

    /** `count` consecutive pages. After a non-free page the scan restarts just past it, and
        that skip never jumps over a feasible window. */
    method AllocContiguous(count: nat, flags: bv32) returns (r: AllocResult)
      requires Valid()
      modifies this`arenas, this`states
      ensures Valid() && SameLayout(old(arenas), arenas)
      ensures count == 0 ==> r == Failed(ERR_INVALID_ARGS)
      ensures !r.Got? ==> states == old(states)
      ensures r.Got? ==>
        && RunIs(old(states), r.paddr, count, Free)
        && SetRun(old(states), states, r.paddr, count, Allocated)
      ensures r.Got? && count >= 2 ==>
        exists a, s :: FirstWindow(old(arenas), flags, count, a, s) && r.paddr == PageAddr(old(arenas)[a], s)
      ensures r.Got? && count == 1 ==>
        exists a, i :: FirstFree(old(arenas), flags, a, i) && r.paddr == PageAddr(old(arenas)[a], i)
      ensures count >= 2 && !r.Got? ==>
        && r == Failed(ERR_NO_MEMORY)
        && (forall a :: 0 <= a < |arenas| && AdmitsRun(arenas[a].info, flags) ==> NoWindow(arenas[a], count))
    {
      hide OnRun, Represents, ArenaOk, FirstFree, FreeWindow, NoFree;
      if count == 0 {
        return Failed(ERR_INVALID_ARGS);
      }
      if count == 1 {
        r := AllocPage(flags);
        if r.Got? {
          SingleRun(old(states), r.paddr, Allocated);
        }
        return;
      }
      for a := 0 to |arenas|
        invariant arenas == old(arenas) && states == old(states)
        invariant forall b :: 0 <= b < a && AdmitsRun(arenas[b].info, flags) ==> NoWindow(arenas[b], count)
      {
        if AdmitsRun(arenas[a].info, flags) {
          var start, found := ScanWindow(arenas[a], count);
          if found {
            assert FirstWindow(arenas, flags, count, a, start);
            r := Got(arenas[a].info.base + start * 4096);
            MarkRun(a, start, count);
            return;
          }
        }
      }
      return Failed(ERR_NO_MEMORY);
    }

    /** The inner search of the contiguous allocator over one arena. */
    static method ScanWindow(arena: Arena, count: nat) returns (start: nat, found: bool)
      requires count >= 1
      ensures found ==> FreeWindow(arena, start, count) && forall s :: 0 <= s < start ==> !FreeWindow(arena, s, count)
      ensures !found ==> NoWindow(arena, count)
    {
      start := 0;
      while start + count <= |arena.pages|
        invariant forall s :: 0 <= s < start ==> !FreeWindow(arena, s, count)
        decreases |arena.pages| - start
      {
        var allFree, from, i := true, start, start;
        while i < from + count && allFree
          invariant from <= i <= from + count
          invariant allFree ==> start == from && forall j :: from <= j < i ==> arena.pages[j].state == Free
          invariant !allFree ==> from < start <= from + count && arena.pages[start - 1].state != Free
          decreases from + count - i, allFree
        {
          if arena.pages[i].state != Free {
            allFree := false;
            start := i + 1;
          } else {
            i := i + 1;
          }
        }
        if allFree {
          return start, true;
        }
        forall s | from <= s < start
          ensures !FreeWindow(arena, s, count)
        {
          assert s <= start - 1 < s + count;
        }
      }
      return start, false;
    }

    method MarkRun(a: nat, start: nat, count: nat)
      requires Valid()
      requires a < |arenas| && FreeWindow(arenas[a], start, count)
      modifies this`arenas, this`states
      ensures Valid() && SameLayout(old(arenas), arenas)
      ensures RunIs(old(states), PageAddr(old(arenas)[a], start), count, Free)
      ensures SetRun(old(states), states, PageAddr(old(arenas)[a], start), count, Allocated)
    {
      hide OnRun, Represents, ArenaOk;
      ghost var base := PageAddr(arenas[a], start);
      EmptyRun(states, base);
      for i := start to start + count
        invariant Valid() && SameLayout(old(arenas), arenas)
        invariant RunIs(old(states), base, i - start, Free)
        invariant SetRun(old(states), states, base, i - start, Allocated)
        invariant forall j :: i <= j < start + count ==> arenas[a].pages[j] == old(arenas)[a].pages[j]
      {
        assert PageAddr(arenas[a], i) == base + (i - start) * 4096;
        ghost var mid := states;
        SetPage(a, i, Allocated, 1);
        RunStep(old(states), mid, states, base, i - start, Allocated);
      }
    }

    /** Frees the page whatever its state was, even a Reserved one. */
    method FreePage(paddr: nat) returns (status: Status)
      requires Valid()
      modifies this`arenas, this`states
      ensures Valid() && SameLayout(old(arenas), arenas)
      ensures status == if paddr in old(states) then OK else ERR_INVALID_ARGS
      ensures states == if paddr in old(states) then old(states)[paddr := Free] else old(states)
    {
      for a := 0 to |arenas|
        invariant arenas == old(arenas) && states == old(states)
        invariant forall b :: 0 <= b < a ==> !InArena(arenas[b], paddr)
      {
        if InArena(arenas[a], paddr) {
          var ok := FreeInArena(a, paddr);
          return if ok then OK else ERR_INVALID_ARGS;
        }
      }
      assert forall a, i :: HasPage(arenas, a, i) ==> InArena(arenas[a], PageAddr(arenas[a], i)) by {
        AllPagesInArena(arenas);
      }
      return ERR_INVALID_ARGS;
    }

    method FreeInArena(a: nat, paddr: nat) returns (ok: bool)
      requires Valid() && a < |arenas| && InArena(arenas[a], paddr)
      modifies this`arenas, this`states
      ensures Valid() && SameLayout(old(arenas), arenas)
      ensures ok == (paddr in old(states))
      ensures states == if ok then old(states)[paddr := Free] else old(states)
    {
      hide Represents, ArenaOk;
      var offset := paddr - arenas[a].info.base;
      LookupInArena(arenas, at, states, a, paddr);
      if offset % 4096 != 0 {
        return false;
      }
      var index := offset / 4096;
      if index >= |arenas[a].pages| {
        return false;
      }
      SetPage(a, index, Free, 0);
      return true;
    }

    /** Frees the aligned run when one arena holds all of it; on an unaligned address inside
        an arena the source reports OK although nothing is freed. */
    method FreeContiguous(paddr: nat, count: nat) returns (status: Status)
      requires Valid()
      modifies this`arenas, this`states
      ensures Valid() && SameLayout(old(arenas), arenas)
      ensures if status == OK then SetRun(old(states), states, paddr, count, Free) else states == old(states)
      ensures status == if count > 0 && HoldsRun(old(arenas), paddr, count) then OK else ERR_INVALID_ARGS
    {
      hide OnRun, Represents, ArenaOk;
      if count == 0 {
        return ERR_INVALID_ARGS;
      }
      for a := 0 to |arenas|
        invariant arenas == old(arenas) && states == old(states)
        invariant forall b :: 0 <= b < a ==>
          !(InArena(arenas[b], paddr) && InArena(arenas[b], paddr + count * 4096 - 1))
      {
        if InArena(arenas[a], paddr) && InArena(arenas[a], paddr + count * 4096 - 1) {
          EmptyRun(states, paddr);
          for i := 0 to count
            invariant Valid() && SameLayout(old(arenas), arenas)
            invariant SetRun(old(states), states, paddr, i, Free)
          {
            ghost var mid := states;
            var _ := FreeInArena(a, paddr + i * 4096);
            RunStep(old(states), mid, states, paddr, i, Free);
          }
          return OK;
        }
      }
      return ERR_INVALID_ARGS;
    }

    /** Marks the pages of a range Reserved, whatever their state was. The range starts at
        the page holding `paddr`. */
    method ReservePages(paddr: nat, count: nat) returns (status: Status)
      requires Valid()
      modifies this`arenas, this`states
      ensures Valid() && SameLayout(old(arenas), arenas)
      ensures if status == OK then SetRun(old(states), states, paddr - paddr % 4096, count, Reserved)
              else states == old(states)
      ensures status == if count > 0 && HoldsRun(old(arenas), paddr, count) then OK else ERR_INVALID_ARGS
      ensures SameCounts(old(arenas), arenas)
    {
      hide OnRun, Represents, ArenaOk;
      if count == 0 {
        return ERR_INVALID_ARGS;
      }
      for a := 0 to |arenas|
        invariant arenas == old(arenas) && states == old(states)
        invariant forall b :: 0 <= b < a ==>
          !(InArena(arenas[b], paddr) && InArena(arenas[b], paddr + count * 4096 - 1))
      {
        if InArena(arenas[a], paddr) && InArena(arenas[a], paddr + count * 4096 - 1) {
          ghost var start := paddr - paddr % 4096;
          EmptyRun(states, start);
          for i := 0 to count
            invariant Valid() && SameLayout(old(arenas), arenas) && SameCounts(old(arenas), arenas)
            invariant SetRun(old(states), states, start, i, Reserved)
          {
            ghost var mid := states;
            ReserveInArena(a, paddr + i * 4096);
            RoundedRun(paddr, i);
            RunStep(old(states), mid, states, start, i, Reserved);
          }
          return OK;
        }
      }
      return ERR_INVALID_ARGS;
    }

    method ReserveInArena(a: nat, paddr: nat)
      requires Valid() && a < |arenas| && InArena(arenas[a], paddr)
      modifies this`arenas, this`states
      ensures Valid() && SameLayout(old(arenas), arenas)
      ensures var page := paddr - paddr % 4096;
        states == if page in old(states) then old(states)[page := Reserved] else old(states)
      ensures SameCounts(old(arenas), arenas)
    {
      hide Represents, ArenaOk;
      ReserveIndex(arenas[a], paddr);
      var index := (paddr - arenas[a].info.base) / 4096;
      LookupInArena(arenas, at, states, a, paddr - paddr % 4096);
      if index < |arenas[a].pages| {
        SetPage(a, index, Reserved, arenas[a].pages[index].refCount);
      }
    }

    /** The number the kernel prints at boot is the number of Free pages in the view. */
    method CountFreePages() returns (count: nat)
      requires Valid()
      ensures count == |InState(states, Free)|
    {
      FreeBeforeEnds(arenas, at, states);
      hide FreeBefore, ArenaOk;
      count := 0;
      ghost var seen: set<nat> := {};
      for a := 0 to |arenas|
        invariant |seen| == count
        invariant seen == FreeBefore(arenas, at, a, 0)
      {
        count, seen := CountFreeIn(a, count, seen);
      }
    }

    method CountFreeIn(a: nat, sofar: nat, ghost before: set<nat>) returns (count: nat, ghost seen: set<nat>)
      requires Valid() && a < |arenas|
      requires before == FreeBefore(arenas, at, a, 0) && |before| == sofar
      ensures seen == FreeBefore(arenas, at, a + 1, 0) && |seen| == count
    {
      hide FreeBefore, ArenaOk;
      count, seen := sofar, before;
      for i := 0 to |arenas[a].pages|
        invariant |seen| == count
        invariant seen == FreeBefore(arenas, at, a, i)
      {
        FreeBeforeStep(arenas, at, a, i);
        if arenas[a].pages[i].state == Free {
          count := count + 1;
          seen := seen + {PageAddr(arenas[a], i)};
        }
      }
      FreeBeforeRow(arenas, at, a);
    }
  }

  lemma FreeBeforeEnds(arenas: seq<Arena>, at: map<nat, Loc>, states: States)
    requires Represents(arenas, at, states)
    ensures FreeBefore(arenas, at, 0, 0) == {}
    ensures FreeBefore(arenas, at, |arenas|, 0) == InState(states, Free)
  {
  }

  lemma FreeBeforeStep(arenas: seq<Arena>, at: map<nat, Loc>, a: nat, i: nat)
    requires Locates(arenas, at) && HasPage(arenas, a, i)
    ensures var page := PageAddr(arenas[a], i);
      && page !in FreeBefore(arenas, at, a, i)
      && FreeBefore(arenas, at, a, i + 1) == FreeBefore(arenas, at, a, i) + if arenas[a].pages[i].state == Free
         then {page} else {}
  {
    var page := PageAddr(arenas[a], i);
    assert at[page] == Loc(a, i);
    forall p | p in FreeBefore(arenas, at, a, i + 1)
      ensures p in FreeBefore(arenas, at, a, i) || (p == page && arenas[a].pages[i].state == Free)
    {
      if at[p] == Loc(a, i) {
        assert p == page;
      }
    }
  }

  lemma FreeBeforeRow(arenas: seq<Arena>, at: map<nat, Loc>, a: nat)
    requires Locates(arenas, at) && a < |arenas|
    ensures FreeBefore(arenas, at, a, |arenas[a].pages|) == FreeBefore(arenas, at, a + 1, 0)
  {
    assert forall p :: p in at && at[p].arena == a ==> at[p].index < |arenas[a].pages|;
  }

  /** Free pages that come before page `i` of arena `a` in scan order. */
  ghost function FreeBefore(arenas: seq<Arena>, at: map<nat, Loc>, a: nat, i: nat): set<nat>
    requires Locates(arenas, at)
  {
    set p | p in at && (at[p].arena < a || (at[p].arena == a && at[p].index < i))
            && arenas[at[p].arena].pages[at[p].index].state == Free
  }

  function FreshArena(info: ArenaInfo): Arena
  {
    Arena(info, seq(info.size / 4096, i requires 0 <= i => Page(info.base + i * 4096, Free, 0)))
  }

  /** The region is aligned and disjoint from the arenas already there. */
  ghost predicate Fits(arenas: seq<Arena>, info: ArenaInfo)
  {
    info.base % 4096 == 0 && forall a :: 0 <= a < |arenas| ==> Apart(arenas[a].info, info)
  }

  /** One arena holds both ends of the run. */
  ghost predicate HoldsRun(arenas: seq<Arena>, paddr: nat, count: nat)
    requires count > 0
  {
    exists a :: 0 <= a < |arenas| && InArena(arenas[a], paddr) && InArena(arenas[a], paddr + count * 4096 - 1)
  }

  lemma AddedArenaRepresents(arenas: seq<Arena>, at: map<nat, Loc>, states: States, info: ArenaInfo)
      returns (at': map<nat, Loc>, states': States)
    requires ArenasOk(arenas) && Represents(arenas, at, states) && |arenas| < MAX_ARENAS && Fits(arenas, info)
    ensures ArenasOk(arenas + [FreshArena(info)]) && Represents(arenas + [FreshArena(info)], at', states')
    ensures forall p: nat :: p in states' <==> p in states || OnRun(p, info.base, info.size / 4096)
    ensures forall p :: p in states' ==> states'[p] == if p in states then states[p] else Free
  {
    hide Locates, ArenasOk, OnRun, PageAddr;
    var added := FreshArena(info);
    FreshPagesNew(arenas, at, info);
    at', states' := AddedMaps(at, states, info, |arenas|);
    AddedArenaLocates(arenas, at, added, at');
    AddedArenaOk(arenas, info);
    AddedArenaStates(arenas, at, states, info, at', states');
  }

  /** The views with the pages of a fresh arena added. */
  lemma AddedMaps(at: map<nat, Loc>, states: States, info: ArenaInfo, n: nat)
      returns (at': map<nat, Loc>, states': States)
    requires states.Keys == at.Keys && forall p :: p in at ==> !OnRun(p, info.base, info.size / 4096)
    ensures states'.Keys == at'.Keys
    ensures forall p: nat :: p in at' <==> p in at || OnRun(p, info.base, info.size / 4096)
    ensures forall p :: p in at' ==>
      if p in at then at'[p] == at[p] && states'[p] == states[p] else at'[p].arena == n && states'[p] == Free
    ensures forall i :: 0 <= i < info.size / 4096 ==>
      PageAddr(FreshArena(info), i) in at' && at'[PageAddr(FreshArena(info), i)] == Loc(n, i)
    ensures forall p :: p in at' && p !in at ==>
      exists i :: 0 <= i < info.size / 4096 && p == PageAddr(FreshArena(info), i)
  {
    var added := FreshArena(info);
    var run := set i | 0 <= i < info.size / 4096 :: PageAddr(added, i);
    forall p: nat
      ensures p in run <==> OnRun(p, info.base, info.size / 4096)
    {
      RunIndex(p, info, added);
    }
    hide OnRun;
    at' := map p | p in at.Keys + run :: if p in at then at[p] else Loc(n, (p - info.base) / 4096);
    states' := map p | p in states.Keys + run :: if p in states then states[p] else Free;
  }

  lemma AddedArenaStates(arenas: seq<Arena>, at: map<nat, Loc>, states: States, info: ArenaInfo, at': map<nat, Loc>,
      states': States)
    requires Represents(arenas, at, states) && Locates(arenas + [FreshArena(info)], at')
    requires states'.Keys == at'.Keys
    requires forall p :: p in at' ==>
      if p in at then at'[p] == at[p] && states'[p] == states[p] else at'[p].arena == |arenas| && states'[p] == Free
    ensures Represents(arenas + [FreshArena(info)], at', states')
  {
    var all := arenas + [FreshArena(info)];
    forall p | p in states'
      ensures states'[p] == all[at'[p].arena].pages[at'[p].index].state
    {
      assert HasPage(all, at'[p].arena, at'[p].index);
    }
  }

  lemma AddedArenaOk(arenas: seq<Arena>, info: ArenaInfo)
    requires ArenasOk(arenas) && |arenas| < MAX_ARENAS && Fits(arenas, info)
    ensures ArenasOk(arenas + [FreshArena(info)])
  {
    var all := arenas + [FreshArena(info)];
    assert ArenaOk(FreshArena(info));
    forall a, b | 0 <= a < |all| && 0 <= b < |all| && a != b
      ensures Apart(all[a].info, all[b].info)
    {
      assert b < |arenas| ==> all[b] == arenas[b];
      assert a < |arenas| ==> all[a] == arenas[a];
    }
  }

  lemma RunIndex(p: nat, info: ArenaInfo, added: Arena)
    requires added == FreshArena(info)
    ensures (exists i :: 0 <= i < info.size / 4096 && p == PageAddr(added, i)) <==>
      OnRun(p, info.base, info.size / 4096)
  {
    if OnRun(p, info.base, info.size / 4096) {
      assert p == PageAddr(added, (p - info.base) / 4096);
    }
  }

  lemma FreshPagesNew(arenas: seq<Arena>, at: map<nat, Loc>, info: ArenaInfo)
    requires ArenasOk(arenas) && Locates(arenas, at) && Fits(arenas, info)
    ensures forall p :: p in at ==> !OnRun(p, info.base, info.size / 4096)
  {
    forall p | p in at
      ensures !OnRun(p, info.base, info.size / 4096)
    {
      PageInArena(arenas[at[p].arena], at[p].index);
      assert Apart(arenas[at[p].arena].info, info);
    }
  }

  lemma AddedArenaLocates(arenas: seq<Arena>, at: map<nat, Loc>, added: Arena, at': map<nat, Loc>)
    requires Locates(arenas, at)
    requires forall p :: p in at ==> p in at' && at'[p] == at[p]
    requires forall i :: 0 <= i < |added.pages| ==>
      PageAddr(added, i) in at' && at'[PageAddr(added, i)] == Loc(|arenas|, i)
    requires forall p :: p in at' && p !in at ==> exists i :: 0 <= i < |added.pages| && p == PageAddr(added, i)
    ensures Locates(arenas + [added], at')
  {
    var all := arenas + [added];
    forall a, i | HasPage(all, a, i)
      ensures PageAddr(all[a], i) in at' && at'[PageAddr(all[a], i)] == Loc(a, i)
    {
      if a < |arenas| {
        assert HasPage(arenas, a, i);
      }
    }
    forall p | p in at'
      ensures HasPage(all, at'[p].arena, at'[p].index) && p == PageAddr(all[at'[p].arena], at'[p].index)
    {
      if p !in at {
        var i :| 0 <= i < |added.pages| && p == PageAddr(added, i);
        assert all[|arenas|] == added;
      }
    }
  }

  lemma SameArena(arenas: seq<Arena>, a: nat, b: nat, p: nat)
    requires ArenasOk(arenas) && a < |arenas| && b < |arenas| && InArena(arenas[a], p) && InArena(arenas[b], p)
    ensures a == b
  {
  }

  /** An address inside an arena is a known page exactly when its offset is a page index. */
  lemma LookupInArena(arenas: seq<Arena>, at: map<nat, Loc>, states: States, a: nat, paddr: nat)
    requires ArenasOk(arenas) && Represents(arenas, at, states) && a < |arenas| && InArena(arenas[a], paddr)
    ensures var offset := paddr - arenas[a].info.base;
      if offset % 4096 == 0 && offset / 4096 < |arenas[a].pages|
      then paddr in states && PageAddr(arenas[a], offset / 4096) == paddr
      else paddr !in states
  {
    var offset := paddr - arenas[a].info.base;
    if paddr in at {
      var Loc(b, j) := at[paddr];
      PageInArena(arenas[b], j);
      SameArena(arenas, a, b, paddr);
    }
    if offset % 4096 == 0 && offset / 4096 < |arenas[a].pages| {
      assert HasPage(arenas, a, offset / 4096) && PageAddr(arenas[a], offset / 4096) == paddr;
    }
  }

  lemma ReserveIndex(a: Arena, paddr: nat)
    requires ArenaOk(a) && InArena(a, paddr)
    ensures InArena(a, paddr - paddr % 4096)
    ensures (paddr - paddr % 4096 - a.info.base) % 4096 == 0
    ensures (paddr - a.info.base) / 4096 == (paddr - paddr % 4096 - a.info.base) / 4096
  {
  }

  lemma RoundedRun(paddr: nat, i: nat)
    ensures paddr + i * 4096 - (paddr + i * 4096) % 4096 == paddr - paddr % 4096 + i * 4096
  {
  }

  lemma EmptyRun(states: States, p: nat)
    ensures forall st :: SetRun(states, states, p, 0, st) && RunIs(states, p, 0, st)
  {
  }

  lemma SingleRun(states: States, p: nat, st: PageState)
    requires p in states
    ensures SetRun(states, states[p := st], p, 1, st) && RunIs(states, p, 1, states[p])
  {
    assert forall q: nat :: OnRun(q, p, 1) <==> q == p;
  }

  /** One more page of a run. */
  lemma RunStep(before: States, mid: States, after: States, p: nat, n: nat, st: PageState)
    requires SetRun(before, mid, p, n, st)
    requires after == if p + n * 4096 in mid then mid[p + n * 4096 := st] else mid
    ensures SetRun(before, after, p, n + 1, st)
    ensures p + n * 4096 in mid ==> mid[p + n * 4096] == before[p + n * 4096]
    ensures p + n * 4096 in mid && RunIs(before, p, n, mid[p + n * 4096]) ==> RunIs(before, p, n + 1, mid[p + n * 4096])
  {
    assert !OnRun(p + n * 4096, p, n);
    assert forall q: nat :: OnRun(q, p, n + 1) <==> OnRun(q, p, n) || q == p + n * 4096;
  }

  ghost predicate SameLayout(x: seq<Arena>, y: seq<Arena>)
  {
    |x| == |y| && forall a :: 0 <= a < |x| ==> x[a].info == y[a].info && |x[a].pages| == |y[a].pages|
  }

  ghost function InState(states: States, st: PageState): set<nat>
  {
    set p | p in states && states[p] == st
  }

  // Zones

  /** The pages a request with these flags may get. */
  ghost function Zone(home: map<nat, ArenaInfo>, flags: bv32): set<nat>
  {
    set p | p in home && Admits(home[p], flags)
  }

  ghost function FreeOf(states: States, zone: set<nat>): set<nat>
  {
    set p | p in zone && p in states && states[p] == Free
  }

  /** How many more requests a zone can serve. */
  ghost function Spare(states: States, zone: set<nat>): nat
  {
    |FreeOf(states, zone)|
  }

  /** Pages outside the zone keep their state. */
  ghost predicate Within(states: States, states': States, zone: set<nat>)
  {
    states'.Keys == states.Keys && forall p :: p in states && p !in zone ==> states'[p] == states[p]
  }

  lemma HomesStay(arenas: seq<Arena>, arenas': seq<Arena>, at: map<nat, Loc>, home: map<nat, ArenaInfo>)
    requires Homes(arenas, at, home) && SameLayout(arenas, arenas')
    ensures Homes(arenas', at, home)
  {
  }

  lemma HomesAdded(arenas: seq<Arena>, at: map<nat, Loc>, states: States, home: map<nat, ArenaInfo>, info: ArenaInfo,
                   at': map<nat, Loc>, states': States) returns (home': map<nat, ArenaInfo>)
    requires Homes(arenas, at, home) && Represents(arenas, at, states) &&
      Represents(arenas + [FreshArena(info)], at', states')
    ensures Homes(arenas + [FreshArena(info)], at', home')
    ensures home'.Keys == states'.Keys && home.Keys == states.Keys
    ensures forall p :: p in home' ==> home'[p] == if p in states then home[p] else info
  {
    var arenas' := arenas + [FreshArena(info)];
    home' := map p | p in at' :: if p in home then home[p] else info;
    forall p | p in at'
      ensures at'[p].arena < |arenas'| && home'[p] == arenas'[at'[p].arena].info
    {
      assert HasPage(arenas', at'[p].arena, at'[p].index);
      if p in home {
        var l := at[p];
        assert HasPage(arenas, l.arena, l.index) && HasPage(arenas', l.arena, l.index);
        assert at'[PageAddr(arenas'[l.arena], l.index)] == l;
      } else if at'[p].arena < |arenas| {
        assert HasPage(arenas, at'[p].arena, at'[p].index);
      }
    }
  }

  lemma PageZone(arenas: seq<Arena>, at: map<nat, Loc>, states: States, home: map<nat, ArenaInfo>, flags: bv32, a: nat,
      i: nat)
    requires Represents(arenas, at, states) && Homes(arenas, at, home) && HasPage(arenas, a, i) &&
      Admits(arenas[a].info, flags)
    ensures PageAddr(arenas[a], i) in Zone(home, flags)
  {
    hide Admits;
    assert at[PageAddr(arenas[a], i)] == Loc(a, i);
  }

  lemma NothingSpare(arenas: seq<Arena>, at: map<nat, Loc>, states: States, home: map<nat, ArenaInfo>, flags: bv32)
    requires Represents(arenas, at, states) && Homes(arenas, at, home)
    requires forall a :: 0 <= a < |arenas| && Admits(arenas[a].info, flags) ==> NoFree(arenas[a])
    ensures Charged(states, states, Zone(home, flags), 1, true)
  {
    hide Admits;
    forall p | p in Zone(home, flags) && p in states
      ensures states[p] != Free
    {
      assert HasPage(arenas, at[p].arena, at[p].index);
      assert NoFree(arenas[at[p].arena]);
    }
    assert FreeOf(states, Zone(home, flags)) == {};
  }

  /** An operation that needs `need` pages of a zone gets them all, or takes what there is and
      halts; it halts exactly when there are too few. Other zones lose nothing. */
  ghost predicate Charged(states: States, states': States, zone: set<nat>, need: nat, halted: bool)
  {
    && Within(states, states', zone)
    && (halted <==> need > Spare(states, zone))
    && Spare(states', zone) == if halted then 0 else Spare(states, zone) - need
  }

  lemma TakeOne(states: States, zone: set<nat>, p: nat)
    requires p in zone && p in states && states[p] == Free
    ensures Charged(states, states[p := Allocated], zone, 1, false)
  {
    assert FreeOf(states, zone) == FreeOf(states[p := Allocated], zone) + {p};
  }

  lemma ChargedNothing(states: States, zone: set<nat>)
    ensures Charged(states, states, zone, 0, false)
  {
  }

  /** Charges add up, and the first one that halts decides. */
  lemma ChargedTrans(s0: States, s1: States, s2: States, zone: set<nat>, a: nat, b: nat, halted: bool)
    requires Charged(s0, s1, zone, a, false) && Charged(s1, s2, zone, b, halted)
    ensures Charged(s0, s2, zone, a + b, halted)
  {
  }

  lemma ChargedMore(s0: States, s1: States, zone: set<nat>, a: nat, b: nat)
    requires Charged(s0, s1, zone, a, true) && b >= a
    ensures Charged(s0, s1, zone, b, true)
  {
  }

  /** The same for an operation that may also fail otherwise, about which nothing more is said. */
  ghost predicate Spent(states: States, states': States, zone: set<nat>, need: nat, ok: bool, halted: bool)
  {
    && Within(states, states', zone)
    && (ok ==> Charged(states, states', zone, need, false))
    && (halted ==> Charged(states, states', zone, need, true))
  }

  /** What happens within one zone costs a disjoint one nothing. */
  lemma SpareElsewhere(states: States, states': States, zone: set<nat>, other: set<nat>)
    requires Within(states, states', zone) && zone !! other
    ensures Spare(states', other) == Spare(states, other)
  {
    assert FreeOf(states', other) == FreeOf(states, other);
  }

  /** From two disjoint zones, `u` and `k` pages have been taken since `s0`. */
  ghost predicate Billed(s0: States, s: States, user: set<nat>, kernel: set<nat>, u: nat, k: nat)
  {
    user !! kernel ==> Spare(s0, user) == Spare(s, user) + u && Spare(s0, kernel) == Spare(s, kernel) + k
  }

  /** One of the zones is used up, and at `s0` one of them had too little for `u` and `k` pages. */
  ghost predicate UsedUp(s0: States, s: States, user: set<nat>, kernel: set<nat>, u: nat, k: nat)
  {
    && (Spare(s, user) == 0 || Spare(s, kernel) == 0)
    && (user !! kernel ==> u > Spare(s0, user) || k > Spare(s0, kernel))
  }

  lemma BillUser(s0: States, s: States, s': States, user: set<nat>, kernel: set<nat>, u: nat, k: nat, need: nat,
      halted: bool)
    requires Billed(s0, s, user, kernel, u, k) && Charged(s, s', user, need, halted)
    ensures if halted then UsedUp(s0, s', user, kernel, u + need, k) else Billed(s0, s', user, kernel, u + need, k)
  {
    if user !! kernel {
      SpareElsewhere(s, s', user, kernel);
    }
  }

  lemma BillKernel(s0: States, s: States, s': States, user: set<nat>, kernel: set<nat>, u: nat, k: nat, need: nat,
      halted: bool)
    requires Billed(s0, s, user, kernel, u, k) && Charged(s, s', kernel, need, halted)
    ensures if halted then UsedUp(s0, s', user, kernel, u, k + need) else Billed(s0, s', user, kernel, u, k + need)
  {
    if user !! kernel {
      SpareElsewhere(s, s', kernel, user);
    }
  }

  lemma UsedUpMore(s0: States, s: States, user: set<nat>, kernel: set<nat>, u: nat, k: nat, u': nat, k': nat)
    requires UsedUp(s0, s, user, kernel, u, k) && u <= u' && k <= k'
    ensures UsedUp(s0, s, user, kernel, u', k')
  {
  }

  // Framing for everything above the page allocator

  /** Nothing outside `touched` and the pages that were Free has changed. */
  ghost predicate Preserves(states: States, ram: Ram, states': States, ram': Ram, touched: set<nat>)
  {
    && states'.Keys == states.Keys && ram'.Keys == ram.Keys
    && (forall q :: q in states && states[q] != Free ==> states'[q] == states[q])
    && (forall q :: q in ram && q !in touched && (q in states ==> states[q] != Free) ==> ram'[q] == ram[q])
  }

  lemma PreservesRefl(states: States, ram: Ram)
    ensures forall t :: Preserves(states, ram, states, ram, t)
  {
  }

  lemma PreservesWeaken(s0: States, r0: Ram, s1: States, r1: Ram, t: set<nat>)
    requires Preserves(s0, r0, s1, r1, {})
    ensures Preserves(s0, r0, s1, r1, t)
  {
  }

  lemma PreservesTrans(s0: States, r0: Ram, s1: States, r1: Ram, s2: States, r2: Ram, t: set<nat>, u: set<nat>)
    requires Preserves(s0, r0, s1, r1, t) && Preserves(s1, r1, s2, r2, u)
    requires forall q :: q in u ==> q in t || (q in s0 && s0[q] == Free)
    ensures Preserves(s0, r0, s2, r2, t)
  {
  }
}
