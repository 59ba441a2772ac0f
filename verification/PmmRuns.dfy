/** Whole-run safety of the physical memory manager, and the boot layout of src/init.rs. */
module PmmRuns {
  import opened Pmm

  /** What one call did to the page states. A failed call does nothing. */
  datatype Event =
    | HandOut(paddr: nat, count: nat)
    | Release(paddr: nat, count: nat)
    | Reserve(paddr: nat, count: nat)
    | Nothing

  ghost predicate Step(s: States, e: Event, s': States)
  {
    match e
    case HandOut(p, n) => RunIs(s, p, n, Free) && SetRun(s, s', p, n, Allocated)
    case Release(p, n) => SetRun(s, s', p, n, Free)
    case Reserve(p, n) => SetRun(s, s', p, n, Reserved)
    case Nothing => s' == s
  }

  ghost predicate IsRun(trace: seq<States>, events: seq<Event>)
  {
    && |trace| == |events| + 1
    && (forall i :: 0 <= i < |events| ==> Step(trace[i], events[i], trace[i + 1]))
  }

  predicate HandsOut(e: Event, q: nat)
  {
    e.HandOut? && OnRun(q, e.paddr, e.count)
  }

  predicate Releases(e: Event, q: nat)
  {
    e.Release? && OnRun(q, e.paddr, e.count)
  }

  // The public operations of the manager are exactly such steps.

  method HandOutPages(pmm: Manager, count: nat, flags: bv32) returns (r: AllocResult)
    requires pmm.Valid()
    modifies pmm`arenas, pmm`states
    ensures pmm.Valid() && SameLayout(old(pmm.arenas), pmm.arenas)
    ensures Step(old(pmm.states), if r.Got? then HandOut(r.paddr, count) else Nothing, pmm.states)
  {
    r := pmm.AllocContiguous(count, flags);
  }

  method ReleasePages(pmm: Manager, paddr: nat, count: nat) returns (status: Status)
    requires pmm.Valid()
    modifies pmm`arenas, pmm`states
    ensures pmm.Valid() && SameLayout(old(pmm.arenas), pmm.arenas)
    ensures Step(old(pmm.states), if status == OK then Release(paddr, count) else Nothing, pmm.states)
  {
    if count == 1 {
      status := pmm.FreePage(paddr);
      if status == OK {
        SingleRun(old(pmm.states), paddr, Free);
      }
    } else {
      status := pmm.FreeContiguous(paddr, count);
    }
  }

  method WithholdPages(pmm: Manager, paddr: nat, count: nat) returns (status: Status)
    requires pmm.Valid()
    modifies pmm`arenas, pmm`states
    ensures pmm.Valid() && SameLayout(old(pmm.arenas), pmm.arenas)
    ensures Step(old(pmm.states), if status == OK then Reserve(paddr - paddr % 4096, count) else Nothing, pmm.states)
  {
    hide Represents, ArenasOk, Homes, OnRun, HoldsRun, SetRun;
    status := pmm.ReservePages(paddr, count);
  }

  // Safety over every run

  /** Only a release makes a page Free again. */
  lemma {:induction false} TakenUntilReleased(trace: seq<States>, events: seq<Event>, i: nat, j: nat, q: nat)
    requires IsRun(trace, events) && i <= j <= |events|
    requires q in trace[i] && trace[i][q] != Free
    requires forall k :: i <= k < j ==> !Releases(events[k], q)
    ensures q in trace[j] && trace[j][q] != Free
    decreases j - i
  {
    if i < j {
      assert Step(trace[i], events[i], trace[i + 1]);
      TakenUntilReleased(trace, events, i + 1, j, q);
    }
  }

  /** No page is handed out twice unless it was released in between. */
  lemma NoDoubleHandOut(trace: seq<States>, events: seq<Event>, i: nat, j: nat, q: nat)
    requires IsRun(trace, events) && i < j < |events|
    requires HandsOut(events[i], q) && HandsOut(events[j], q)
    ensures exists k :: i < k < j && Releases(events[k], q)
  {
    if forall k :: i < k < j ==> !Releases(events[k], q) {
      assert Step(trace[i], events[i], trace[i + 1]) && Step(trace[j], events[j], trace[j + 1]);
      TakenUntilReleased(trace, events, i + 1, j, q);
    }
  }

  /** A reserved page is never handed out unless it was explicitly released first. */
  lemma ReservedStaysReserved(trace: seq<States>, events: seq<Event>, i: nat, j: nat, q: nat)
    requires IsRun(trace, events) && i < j < |events|
    requires events[i].Reserve? && OnRun(q, events[i].paddr, events[i].count) && q in trace[i]
    requires HandsOut(events[j], q)
    ensures exists k :: i < k < j && Releases(events[k], q)
  {
    if forall k :: i < k < j ==> !Releases(events[k], q) {
      assert Step(trace[i], events[i], trace[i + 1]) && Step(trace[j], events[j], trace[j + 1]);
      TakenUntilReleased(trace, events, i + 1, j, q);
    }
  }

  /** One call keeps a reserved page reserved exactly when it does not release it: a release asks
      for no state. */
  lemma ReservedIff(s: States, e: Event, s': States, q: nat)
    requires Step(s, e, s') && q in s && s[q] == Reserved
    ensures q in s' && (s'[q] == Reserved <==> !Releases(e, q))
  {
  }

  /** No run adds or loses a page: the three states always add up to the same total. */
  lemma {:induction false} PagesConserved(trace: seq<States>, events: seq<Event>, j: nat)
    requires IsRun(trace, events) && j < |trace|
    ensures trace[j].Keys == trace[0].Keys
    ensures |InState(trace[j], Free)| + |InState(trace[j], Allocated)| + |InState(trace[j], Reserved)|
      == |trace[0].Keys|
  {
    hide InState, OnRun;
    if j > 0 {
      PagesConserved(trace, events, j - 1);
      assert Step(trace[j - 1], events[j - 1], trace[j]);
    }
    StatesPartition(trace[j]);
  }

  lemma StatesPartition(s: States)
    ensures |InState(s, Free)| + |InState(s, Allocated)| + |InState(s, Reserved)| == |s.Keys|
  {
    assert InState(s, Free) + InState(s, Allocated) + InState(s, Reserved) == s.Keys;
    assert InState(s, Free) !! InState(s, Allocated);
    assert InState(s, Free) + InState(s, Allocated) !! InState(s, Reserved);
  }

  /** A hand-out of `n` pages takes exactly `n` pages from the Free ones. */
  lemma HandOutCount(s: States, s': States, p: nat, n: nat)
    requires Step(s, HandOut(p, n), s')
    ensures |InState(s', Free)| == |InState(s, Free)| - n
    ensures |InState(s', Allocated)| == |InState(s, Allocated)| + n
  {
    var run := RunSet(s, p, n);
    RunSetSize(s, p, n);
    assert InState(s, Free) == InState(s', Free) + run;
    assert InState(s', Allocated) == InState(s, Allocated) + run;
  }

  ghost function RunSet(s: States, p: nat, n: nat): set<nat>
  {
    set q | q in s && OnRun(q, p, n)
  }

  lemma {:induction false} RunSetSize(s: States, p: nat, n: nat)
    requires forall q :: OnRun(q, p, n) ==> q in s
    ensures |RunSet(s, p, n)| == n
  {
    if n == 0 {
      assert RunSet(s, p, 0) == {};
    } else {
      var last := p + (n - 1) * 4096;
      assert OnRun(last, p, n) && !OnRun(last, p, n - 1);
      assert forall q: nat :: OnRun(q, p, n) <==> OnRun(q, p, n - 1) || q == last;
      RunSetSize(s, p, n - 1);
      assert RunSet(s, p, n) == RunSet(s, p, n - 1) + {last};
    }
  }

  // Boot layout

  const KERNEL_ARENA := ArenaInfo(ARENA_FLAG_LOW_MEM | ARENA_FLAG_KERNEL, 0, 0x0020_0000, 14 * 1024 * 1024)
  const USER_ARENA := ArenaInfo(ARENA_FLAG_LOW_MEM | ARENA_FLAG_USER, 1, 0x0200_0000, 96 * 1024 * 1024)

  ghost predicate BootLayout(arenas: seq<Arena>)
  {
    |arenas| == 2 && arenas[0].info == KERNEL_ARENA && arenas[1].info == USER_ARENA
  }

  /** `init_early`: the arenas it adds are disjoint, so the manager's view is exact from the
      start; the kernel stack is reserved. The later reservation of the heap range lies in no
      arena, so it is refused. */
  method InitEarly() returns (pmm: Manager, heapStatus: Status)
    ensures fresh(pmm) && pmm.Valid() && BootLayout(pmm.arenas)
    ensures forall p: nat :: p in pmm.states <==> OnRun(p, 0x0020_0000, 3584) || OnRun(p, 0x0200_0000, 24576)
    ensures forall p: nat :: p in pmm.states ==>
      pmm.states[p] == if OnRun(p, 0x0020_0000, 64) then Reserved else Free
    ensures heapStatus == ERR_INVALID_ARGS
    ensures Zone(pmm.home, PMM_ALLOC_FLAG_USER) !! Zone(pmm.home, PMM_ALLOC_FLAG_KERNEL)
  {
    hide OnRun, Represents, ArenasOk, Homes, Zone;
    pmm := BootArenas();
    var _ := pmm.ReservePages(0x0020_0000, 64);
    heapStatus := pmm.ReservePages(0x0100_0000, 4096);
  }

  /** For instance: after boot, freeing the first page of the reserved kernel stack is accepted,
      and the next kernel page handed out is that very page. */
  method ReservedExample() returns (status: Status, got: AllocResult)
    ensures status == OK && got == Got(0x0020_0000)
  {
    hide Represents, ArenasOk, Homes, Zone, Charged, FirstFree;
    var pmm, _ := InitEarly();
    assert 0x0020_0000 in pmm.states && pmm.states[0x0020_0000] == Reserved;
    status := pmm.FreePage(0x0020_0000);
    LowestKernelPage(pmm.arenas, pmm.at, pmm.states);
    got := pmm.AllocPage(PMM_ALLOC_FLAG_KERNEL);
    if got.Spin? {
      LowestKernelPage(pmm.arenas, pmm.at, pmm.states);
    }
  }

  lemma LowestKernelPage(arenas: seq<Arena>, at: map<nat, Loc>, states: States)
    requires ArenasOk(arenas) && Represents(arenas, at, states) && BootLayout(arenas)
    requires 0x0020_0000 in states && states[0x0020_0000] == Free
    ensures !NoFree(arenas[0]) && Admits(arenas[0].info, PMM_ALLOC_FLAG_KERNEL)
    ensures forall a, i :: FirstFree(arenas, PMM_ALLOC_FLAG_KERNEL, a, i) ==> PageAddr(arenas[a], i) == 0x0020_0000
  {
    assert HasPage(arenas, 0, 0) && PageAddr(arenas[0], 0) == 0x0020_0000;
  }

  method BootArenas() returns (pmm: Manager)
    ensures fresh(pmm) && pmm.Valid() && BootLayout(pmm.arenas)
    ensures forall p: nat :: p in pmm.states <==> OnRun(p, 0x0020_0000, 3584) || OnRun(p, 0x0200_0000, 24576)
    ensures forall p: nat :: p in pmm.states ==> pmm.states[p] == Free
    ensures Zone(pmm.home, PMM_ALLOC_FLAG_USER) !! Zone(pmm.home, PMM_ALLOC_FLAG_KERNEL)
    ensures pmm.home.Keys == pmm.states.Keys
    ensures forall p: nat :: p in pmm.home ==>
      pmm.home[p] == if OnRun(p, 0x0020_0000, 3584) then KERNEL_ARENA else USER_ARENA
  {
    hide OnRun, Represents, ArenaOk, Homes, Zone;
    pmm := new Manager();
    var _ := pmm.AddArena(KERNEL_ARENA, true);
    assert pmm.arenas == [FreshArena(KERNEL_ARENA)];
    var _ := pmm.AddArena(USER_ARENA, true);
    ZonesApart(pmm.home);
  }

  /** User requests and kernel requests compete for no page. */
  lemma ZonesApart(home: map<nat, ArenaInfo>)
    requires forall p :: p in home ==> home[p] == KERNEL_ARENA || home[p] == USER_ARENA
    ensures Zone(home, PMM_ALLOC_FLAG_USER) !! Zone(home, PMM_ALLOC_FLAG_KERNEL)
  {
  }

  /** Which arenas of the boot layout serve which requests: single pages of a kind come from the
      arena of that kind, runs of pages from any arena, whatever the flags. */
  lemma BootAdmits(flags: bv32)
    ensures Admits(KERNEL_ARENA, flags) <==> flags != 8
    ensures Admits(USER_ARENA, flags) <==> flags != 4
    ensures AdmitsRun(KERNEL_ARENA, flags) && AdmitsRun(USER_ARENA, flags)
  {
    assert KERNEL_ARENA.flags == 5 && USER_ARENA.flags == 9;
  }

  /** And the one case in which a run is not served from an arena. */
  lemma RunsAdmitted(info: ArenaInfo, flags: bv32)
    ensures AdmitsRun(info, flags) <==> flags != 1 || info.flags & 1 != 0
  {
  }

  /** KERNEL and USER requests stay in their zones, whatever happened since boot. */
  lemma ZoneOfPage(arenas: seq<Arena>, flags: bv32, a: nat, i: nat)
    requires ArenasOk(arenas) && BootLayout(arenas) && FirstFree(arenas, flags, a, i)
    ensures flags == PMM_ALLOC_FLAG_KERNEL ==> 0x0020_0000 <= PageAddr(arenas[a], i) < 0x0100_0000
    ensures flags == PMM_ALLOC_FLAG_USER ==> 0x0200_0000 <= PageAddr(arenas[a], i) < 0x0800_0000
  {
    PageInArena(arenas[a], i);
    assert arenas[a].info == if a == 0 then KERNEL_ARENA else USER_ARENA;
  }
}
