/** Process address spaces (src/process/address_space.rs). `own` is the ghost record of the
    tables the process has made private; everything else in its tree belongs to the kernel. */
module AddressSpaces {
  import opened Memory
  import opened Pmm
  import opened PageTable
  import opened VmoObject

  /** Physical addresses have at most 52 bits; frames start at page boundaries. */
  ghost predicate RamOk(ram: Ram)
  {
    forall q :: q in ram ==> q % 4096 == 0 && q < PADDR_LIMIT
  }

  /** Private tables are allocated pages, kernel tables are never free ones. */
  ghost predicate OwnOk(states: States, kernel: set<nat>, own: Tree)
  {
    && (forall n :: n in own ==> own[n] in states && states[own[n]] == Allocated)
    && (forall q :: q in kernel && q in states ==> states[q] != Free)
  }

  ghost function TreeFrames(own: Tree): set<nat>
  {
    set n | n in own :: own[n]
  }

  /** The running kernel an address space is built over. */
  ghost predicate KernelEnv(states: States, ram: Ram, cr3: nat, kernel: set<nat>)
  {
    && states.Keys <= ram.Keys && RamOk(ram)
    && KernelOk(ram, cr3, kernel)
    && (forall q :: q in kernel && q in states ==> states[q] != Free)
  }

  ghost predicate SpaceOk(states: States, ram: Ram, cr3: nat, kernel: set<nat>, own: Tree)
  {
    && states.Keys <= ram.Keys && RamOk(ram)
    && TreeOk(ram, cr3, kernel, own)
    && OwnOk(states, kernel, own)
  }

  /** Tables were allocated and linked; nobody else's memory changed. */
  ghost predicate SpaceGrew(s: States, ram: Ram, kernel: set<nat>, own: Tree, va: nat, s': States, ram': Ram,
      own': Tree)
  {
    && Preserves(s, ram, s', ram', TreeFrames(own))
    && Grew(ram, kernel, own, va, ram', own')
    && (forall n :: n in own' && n !in own ==> own'[n] in s && s[own'[n]] == Free)
  }

  lemma SpaceGrewTrans(s0: States, r0: Ram, kernel: set<nat>, own0: Tree, va: nat, s1: States, r1: Ram, own1: Tree,
      s2: States, r2: Ram, own2: Tree)
    requires SpaceGrew(s0, r0, kernel, own0, va, s1, r1, own1) && SpaceGrew(s1, r1, kernel, own1, va, s2, r2, own2)
    ensures SpaceGrew(s0, r0, kernel, own0, va, s2, r2, own2)
  {
    hide Empty;
    forall q | q in TreeFrames(own1)
      ensures q in TreeFrames(own0) || (q in s0 && s0[q] == Free)
    {
      var n :| n in own1 && own1[n] == q;
      assert n in own0 ==> own0[n] == q;
    }
    PreservesTrans(s0, r0, s1, r1, s2, r2, TreeFrames(own0), TreeFrames(own1));
    GrewTrans(r0, kernel, own0, va, r1, own1, r2, own2);
    forall n | n in own2 && n !in own0
      ensures own2[n] in s0 && s0[own2[n]] == Free
    {
      if n in own1 {
      } else {
        assert s1[own2[n]] == Free;
      }
    }
  }

  // Effects on translations

  /** Every page outside `lo .. hi` keeps its frame; one with a private page table keeps its
      whole translation. */
  ghost predicate KeptOutside(ram: Ram, own: Tree, lo: nat, hi: nat, ram': Ram, own': Tree)
  {
    && Root in own && Root in own' && own'[Root] == own[Root]
    && (forall n :: n in own ==> n in own')
    && (forall va :: 0 <= va < VADDR_LIMIT && !(lo <= va / 4096 < hi) ==>
          && SameFrame(Walk(ram, own[Root], va), Walk(ram', own[Root], va))
          && (NodeAt(va, 3) in own ==> Walk(ram', own[Root], va) == Walk(ram, own[Root], va)))
  }

  /** The page translates to `paddr` through a private page table. */
  ghost predicate PageMapped(ram: Ram, own: Tree, page: nat, paddr: nat, flags: nat)
  {
    Root in own && forall va :: 0 <= va < VADDR_LIMIT && va / 4096 == page ==>
      && NodeAt(va, 3) in own
      && Walk(ram, own[Root], va) == Some(Translation(paddr + va % 4096, flags / 2 % 2 == 1, true))
  }

  lemma KeptTrans(r0: Ram, own0: Tree, lo: nat, hi: nat, r1: Ram, own1: Tree, lo': nat, hi': nat, r2: Ram, own2: Tree,
      low: nat, high: nat)
    requires KeptOutside(r0, own0, lo, hi, r1, own1) && KeptOutside(r1, own1, lo', hi', r2, own2)
    requires (lo == hi || (low <= lo && hi <= high)) && (lo' == hi' || (low <= lo' && hi' <= high))
    ensures KeptOutside(r0, own0, low, high, r2, own2)
  {
    hide Walk, NodeAt;
    forall va | 0 <= va < VADDR_LIMIT && !(low <= va / 4096 < high)
      ensures SameFrame(Walk(r0, own0[Root], va), Walk(r2, own0[Root], va))
      ensures NodeAt(va, 3) in own0 ==> Walk(r2, own0[Root], va) == Walk(r0, own0[Root], va)
    {
      assert SameFrame(Walk(r0, own0[Root], va), Walk(r1, own0[Root], va));
    }
  }

  lemma PageStays(r0: Ram, own0: Tree, r1: Ram, own1: Tree, lo: nat, hi: nat, page: nat, paddr: nat, flags: nat)
    requires KeptOutside(r0, own0, lo, hi, r1, own1) && PageMapped(r0, own0, page, paddr, flags) && !(lo <= page < hi)
    ensures PageMapped(r1, own1, page, paddr, flags)
  {
    hide Walk, NodeAt;
  }

  lemma GrewKept(ram: Ram, cr3: nat, kernel: set<nat>, own: Tree, va: nat, ram': Ram, own': Tree)
    requires TreeOk(ram, cr3, kernel, own) && TreeOk(ram', cr3, kernel, own') && Grew(ram, kernel, own, va, ram', own')
    ensures KeptOutside(ram, own, 0, 0, ram', own')
  {
    hide Walk, NodeAt, KTable, KEntry, Open, EntryOk, KernelOk, Empty;
    forall vb | 0 <= vb < VADDR_LIMIT
      ensures SameFrame(Walk(ram, own[Root], vb), Walk(ram', own[Root], vb))
      ensures NodeAt(vb, 3) in own ==> Walk(ram', own[Root], vb) == Walk(ram, own[Root], vb)
    {
      GrewKeepsWalk(ram, cr3, kernel, own, va, ram', own', vb);
    }
  }

  /** The final store maps exactly one page. */
  lemma PteEffect(ram: Ram, cr3: nat, kernel: set<nat>, own: Tree, va: nat, paddr: nat, flags: nat, ram': Ram)
    requires TreeOk(ram, cr3, kernel, own) && NodeAt(va, 3) in own && va < VADDR_LIMIT
    requires paddr % 4096 == 0 && paddr < PADDR_LIMIT && own[NodeAt(va, 3)] in ram && Pte(paddr, flags) < WORD_LIMIT
    requires ram' == ram[own[NodeAt(va, 3)] := SetWord(ram[own[NodeAt(va, 3)]], Index(va, 3), Pte(paddr, flags))]
    ensures TreeOk(ram', cr3, kernel, own)
    ensures PageMapped(ram', own, va / 4096, paddr, flags)
    ensures KeptOutside(ram, own, va / 4096, va / 4096 + 1, ram', own)
  {
    hide Walk, NodeAt, KTable, KEntry, Open, EntryOk, KernelOk, Word, SetWord, Index, Pte, Present, Writable, User,
      HwBase;
    var n := NodeAt(va, 3);
    PteKeepsTree(ram, cr3, kernel, own, n, ram');
    PteBits(paddr, flags);
    forall vb | 0 <= vb < VADDR_LIMIT
      ensures vb / 4096 == va / 4096 ==>
        NodeAt(vb, 3) in own && Walk(ram', own[Root], vb)
          == Some(Translation(paddr + vb % 4096, flags / 2 % 2 == 1, true))
      ensures vb / 4096 != va / 4096 ==>
        && SameFrame(Walk(ram, own[Root], vb), Walk(ram', own[Root], vb))
        && (NodeAt(vb, 3) in own ==> Walk(ram', own[Root], vb) == Walk(ram, own[Root], vb))
    {
      PteWalk(ram, cr3, kernel, own, va, Pte(paddr, flags), ram', vb);
    }
  }

  lemma PteWalk(ram: Ram, cr3: nat, kernel: set<nat>, own: Tree, va: nat, e: nat, ram': Ram, vb: nat)
    requires TreeOk(ram, cr3, kernel, own) && TreeOk(ram', cr3, kernel, own) && NodeAt(va, 3) in own
    requires va < VADDR_LIMIT && vb < VADDR_LIMIT && own[NodeAt(va, 3)] in ram && e < WORD_LIMIT
    requires ram' == ram[own[NodeAt(va, 3)] := SetWord(ram[own[NodeAt(va, 3)]], Index(va, 3), e)]
    ensures vb / 4096 == va / 4096 ==> NodeAt(vb, 3) in own && Walk(ram', own[Root], vb) == PteTranslation(e, vb)
    ensures vb / 4096 != va / 4096 ==>
      && SameFrame(Walk(ram, own[Root], vb), Walk(ram', own[Root], vb))
      && (NodeAt(vb, 3) in own ==> Walk(ram', own[Root], vb) == Walk(ram, own[Root], vb))
  {
    hide Walk, KTable, KEntry, Open, EntryOk, KernelOk, Word, SetWord, Index, PteTranslation;
    if vb / 4096 == va / 4096 {
      PageIndices(va, vb);
      PrivateWalk(ram', cr3, kernel, own, vb);
    } else if NodeAt(vb, 3) in own {
      PrivateWalk(ram, cr3, kernel, own, vb);
      PrivateWalk(ram', cr3, kernel, own, vb);
      if NodeAt(vb, 3) == NodeAt(va, 3) && Index(vb, 3) == Index(va, 3) {
        SamePage(va, vb);
      }
    } else {
      SharedWalk(ram, cr3, kernel, own, vb, 0);
      SharedWalk(ram', cr3, kernel, own, vb, 0);
      KernelWalkSame(ram, ram', cr3, kernel, vb, 0);
      TopTree(ram, own, vb);
      TopTree(ram', own, vb);
    }
  }

  // What the tables cost

  /** The tables `goal` are there afterwards, the missing ones on kernel pages; it halts exactly
      when there are fewer Free kernel pages than tables missing. */
  ghost predicate Paid(s: States, s': States, zone: set<nat>, had: set<Node>, has: set<Node>, goal: set<Node>,
      ok: bool, halted: bool)
  {
    && Within(s, s', zone)
    && (ok ==> has == had + goal && Charged(s, s', zone, |goal - had|, false))
    && (halted ==> Charged(s, s', zone, |goal - had|, true))
  }

  lemma PaidNothing(s: States, zone: set<nat>, had: set<Node>, goal: set<Node>, halted: bool)
    requires goal <= had
    ensures Paid(s, s, zone, had, had, goal, true, false) && Paid(s, s, zone, had, had, {}, true, false)
  {
    assert goal - had == {} && {} - had == {} && had + goal == had && had + {} == had;
  }

  lemma PaidOne(s: States, s': States, zone: set<nat>, had: set<Node>, has: set<Node>, n: Node, ok: bool, halted: bool)
    requires Charged(s, s', zone, 1, halted) && n !in had && (ok ==> !halted && has == had + {n})
    ensures Paid(s, s', zone, had, has, {n}, ok, halted)
  {
    assert {n} - had == {n};
  }

  lemma PaidTrans(s0: States, s1: States, s2: States, zone: set<nat>, o0: set<Node>, o1: set<Node>, o2: set<Node>,
                  g1: set<Node>, g2: set<Node>, ok: bool, halted: bool)
    requires Paid(s0, s1, zone, o0, o1, g1, true, false) && Paid(s1, s2, zone, o1, o2, g2, ok, halted)
    ensures Paid(s0, s2, zone, o0, o2, g1 + g2, ok, halted)
  {
    assert (g1 + g2) - o0 == (g1 - o0) + (g2 - o1) && (g1 - o0) !! (g2 - o1);
    if halted {
      ChargedTrans(s0, s1, s2, zone, |g1 - o0|, |g2 - o1|, true);
    }
    if ok {
      ChargedTrans(s0, s1, s2, zone, |g1 - o0|, |g2 - o1|, false);
      assert o2 == o0 + (g1 + g2);
    }
  }

  lemma PaidShort(s: States, s': States, zone: set<nat>, had: set<Node>, has: set<Node>, goal: set<Node>,
      more: set<Node>, halted: bool)
    requires Paid(s, s', zone, had, has, goal, false, halted)
    ensures Paid(s, s', zone, had, has, goal + more, false, halted)
  {
    assert (goal + more) - had == (goal - had) + (more - had - goal);
    if halted {
      ChargedMore(s, s', zone, |goal - had|, |(goal + more) - had|);
    }
  }

  /** The private tables a page's mapping goes through. */
  ghost function Path(va: nat, last: bool): set<Node>
  {
    {NodeAt(va, 1), NodeAt(va, 2)} + if last then {NodeAt(va, 3)} else {}
  }

  lemma PathParts(va: nat, last: bool)
    ensures var l := if last then {NodeAt(va, 3)} else {};
      Path(va, last) == {NodeAt(va, 1)} + ({NodeAt(va, 2)} + l) == ({NodeAt(va, 1)} + {NodeAt(va, 2)}) + l
  {
  }

  /** Those of a range of pages. */
  ghost function Paths(lo: nat, n: nat): set<Node>
  {
    if n == 0 then {} else Paths(lo, n - 1) + Path((lo + n - 1) * 4096, true)
  }

  lemma {:induction false} PathsGrow(lo: nat, m: nat, n: nat)
    requires m <= n
    ensures Paths(lo, m) <= Paths(lo, n) && Paths(lo, m) + Paths(lo, n) == Paths(lo, n)
    decreases n
  {
    if m < n {
      PathsGrow(lo, m, n - 1);
    }
  }

  lemma PaidFailed(s: States, s': States, zone: set<nat>, had: set<Node>, has: set<Node>, goal: set<Node>,
      other: set<Node>)
    requires Paid(s, s', zone, had, has, goal, true, false)
    ensures Paid(s, s', zone, had, has, other, false, false)
  {
  }

  // The kernel's side

  ghost predicate KernelUntouched(ram: Ram, ram': Ram, kernel: set<nat>)
  {
    forall q :: q in kernel && q in ram ==> q in ram' && ram'[q] == ram[q]
  }

  /** A 2 MB page of the kernel covers the address. */
  ghost predicate LargePage(ram: Ram, cr3: nat, va: nat)
  {
    Present(KEntry(ram, cr3, NodeAt(va, 2), Index(va, 2))) && Large(KEntry(ram, cr3, NodeAt(va, 2), Index(va, 2)))
  }

  /** What `map_page` takes for the address's page table when the kernel's PD slot is taken: the
      kernel's page table, or the first frame of its large page. */
  ghost function TakenFrame(ram: Ram, cr3: nat, va: nat): nat
  {
    Base(KEntry(ram, cr3, NodeAt(va, 2), Index(va, 2)))
  }

  /** No large page of the kernel covers the address. */
  ghost predicate NoLargePage(ram: Ram, cr3: nat, va: nat)
  {
    Open(ram, cr3, NodeAt(va, 2)) && !LargePage(ram, cr3, va)
  }

  /** The tree grew as for any mapping, and then one word of that frame was overwritten. */
  ghost predicate Overwritten(s: States, ram: Ram, cr3: nat, kernel: set<nat>, own: Tree, va: nat, e: nat,
                              s': States, ram': Ram, own': Tree)
  {
    var t := TakenFrame(ram, cr3, va);
    && e < WORD_LIMIT && t in ram'
    && exists grown: Ram :: OverwrittenFrom(s, ram, cr3, kernel, own, va, e, s', grown, own', ram')
  }

  /** `grown` is the memory between the two. */
  ghost predicate OverwrittenFrom(s: States, ram: Ram, cr3: nat, kernel: set<nat>, own: Tree, va: nat, e: nat,
                                  s': States, grown: Ram, own': Tree, ram': Ram)
    requires e < WORD_LIMIT
  {
    var t := TakenFrame(ram, cr3, va);
    && SpaceOk(s', grown, cr3, kernel, own') && SpaceGrew(s, ram, kernel, own, va, s', grown, own')
    && t in grown && ram' == grown[t := SetWord(grown[t], Index(va, 3), e)]
  }

  lemma OverwriteDone(s: States, ram: Ram, cr3: nat, kernel: set<nat>, own: Tree, va: nat, e: nat, s': States,
      grown: Ram, own': Tree, ram': Ram)
    requires e < WORD_LIMIT && OverwrittenFrom(s, ram, cr3, kernel, own, va, e, s', grown, own', ram')
    ensures Overwritten(s, ram, cr3, kernel, own, va, e, s', ram', own')
  {
    hide SpaceOk, SpaceGrew, KEntry, SetWord, Index;
  }

  lemma OverwrittenWord(s: States, ram: Ram, cr3: nat, kernel: set<nat>, own: Tree, va: nat, e: nat, s': States,
      ram': Ram, own': Tree)
    requires Overwritten(s, ram, cr3, kernel, own, va, e, s', ram', own')
    ensures TakenFrame(ram, cr3, va) in ram' && Word(ram'[TakenFrame(ram, cr3, va)], Index(va, 3)) == e
  {
    hide SpaceOk, SpaceGrew, KEntry, Word, Index, Base, NodeAt;
    var grown: Ram :| OverwrittenFrom(s, ram, cr3, kernel, own, va, e, s', grown, own', ram');
  }

  /** Overwriting leaves the kernel's tables alone exactly when the frame is none of them, or
      holds the very same entry. */
  lemma OverwriteShowsIff(s: States, ram: Ram, cr3: nat, kernel: set<nat>, own: Tree, va: nat, e: nat, s': States,
      ram': Ram, own': Tree)
    requires SpaceOk(s, ram, cr3, kernel, own) && Overwritten(s, ram, cr3, kernel, own, va, e, s', ram', own')
    ensures var t := TakenFrame(ram, cr3, va);
      t in ram && (KernelUntouched(ram, ram', kernel) <==> t !in kernel || Word(ram[t], Index(va, 3)) == e)
  {
    hide KEntry, Word, SetWord, Index, TreeOk, Base, NodeAt, Preserves;
    var t := TakenFrame(ram, cr3, va);
    var grown: Ram :| OverwrittenFrom(s, ram, cr3, kernel, own, va, e, s', grown, own', ram');
    if t in kernel {
      OverwriteShows(ram, ram', kernel, t, Index(va, 3), e);
    }
  }

  lemma OpenOrNot(ram: Ram, cr3: nat, va: nat)
    ensures LargePage(ram, cr3, va) ==> !Open(ram, cr3, NodeAt(va, 3))
  {
  }

  /** Where that is the memory of a large page, and not itself a table, the mapping has no effect:
      the address still walks to the large page. */
  lemma LargePageStays(s: States, ram: Ram, cr3: nat, kernel: set<nat>, own: Tree, va: nat, e: nat, s': States,
      ram': Ram, own': Tree)
    requires SpaceOk(s, ram, cr3, kernel, own) && Overwritten(s, ram, cr3, kernel, own, va, e, s', ram', own') &&
      LargePage(ram, cr3, va)
    requires var t := TakenFrame(ram, cr3, va); t !in kernel && t !in TreeFrames(own) && (t in s ==> s[t] != Free)
    ensures SpaceOk(s', ram', cr3, kernel, own')
    ensures Root in own' && SameFrame(Walk(ram, cr3, va), Walk(ram', own'[Root], va)) &&
      Walk(ram', cr3, va) == Walk(ram, cr3, va)
  {
    hide KTable, KEntry, Word, SetWord, Index, Open, Present, Large, Base, Walk, EntryOk, WalkFrom, SamePlace, NodeAt,
      Preserves, Shared, SharedEntry;
    var t := TakenFrame(ram, cr3, va);
    var grown: Ram :| OverwrittenFrom(s, ram, cr3, kernel, own, va, e, s', grown, own', ram');
    NotNewTable(s, ram, kernel, own, va, s', grown, own', t);
    TreeStays(grown, cr3, kernel, own', ram');
    LargeNotPrivate(grown, cr3, kernel, own', ram, va);
    SharedRoot(ram', cr3, kernel, own', va);
    WalksAgree(ram, grown, cr3, kernel, va);
    WalksAgree(grown, ram', cr3, kernel, va);
  }

  lemma NotNewTable(s: States, ram: Ram, kernel: set<nat>, own: Tree, va: nat, s': States, ram': Ram, own': Tree,
      t: nat)
    requires SpaceGrew(s, ram, kernel, own, va, s', ram', own') && t !in TreeFrames(own) && (t in s ==> s[t] != Free)
    ensures t !in TreeFrames(own')
  {
    hide Preserves, Empty, NodeAt;
    forall n | n in own'
      ensures own'[n] != t
    {
      assert n in own ==> own[n] in TreeFrames(own);
    }
  }

  /** Where it is a page table that the kernel uses in this place only, kernel and process see the
      new entry at that page, and all other pages as before. */
  lemma OverwriteSeen(s: States, ram: Ram, cr3: nat, kernel: set<nat>, own: Tree, va: nat, e: nat, s': States,
      ram': Ram, own': Tree, vb: nat)
    requires SpaceOk(s, ram, cr3, kernel, own) && Overwritten(s, ram, cr3, kernel, own, va, e, s', ram', own')
    requires var t := TakenFrame(ram, cr3, va);
      KTable(ram, cr3, NodeAt(va, 3)) == Some(t) && OnlyAt(ram, cr3, NodeAt(va, 3), t)
    requires va < VADDR_LIMIT && vb < VADDR_LIMIT
    ensures SpaceOk(s', ram', cr3, kernel, own') && Root in own && Root in own'
    ensures vb / 4096 == va / 4096 ==>
      SamePlace(Walk(ram', cr3, vb), PteTranslation(e, vb)) &&
        SameFrame(PteTranslation(e, vb), Walk(ram', own'[Root], vb))
    ensures vb / 4096 != va / 4096 ==>
      Walk(ram', cr3, vb) == Walk(ram, cr3, vb) && SameFrame(Walk(ram, own[Root], vb), Walk(ram', own'[Root], vb))
  {
    hide KTable, KEntry, Word, SetWord, Index, TreeOk, Base, NodeAt, Preserves, Walk, PteTranslation, SamePlace,
      OnlyAt, Grew, StoredEntry;
    var t := TakenFrame(ram, cr3, va);
    var grown: Ram :| OverwrittenFrom(s, ram, cr3, kernel, own, va, e, s', grown, own', ram');
    StoredInGrown(ram, cr3, kernel, own, va, e, grown, own', ram', t);
    GrownSees(ram, cr3, kernel, own, va, grown, own', vb);
    StoreKeepsSpace(s', grown, cr3, kernel, own', va, t, e, ram');
    if vb / 4096 == va / 4096 {
      StoreSeen(grown, cr3, kernel, own', va, t, e, ram', vb);
    } else {
      StoreUnseen(grown, cr3, kernel, own', va, t, e, ram', vb);
    }
  }

  /** And so does every other process over the same kernel. */
  lemma OthersSee(s: States, ram: Ram, cr3: nat, kernel: set<nat>, own: Tree, va: nat, e: nat, s': States, ram': Ram,
      own': Tree, other: Tree, vb: nat)
    requires SpaceOk(s, ram, cr3, kernel, own) && Overwritten(s, ram, cr3, kernel, own, va, e, s', ram', own')
    requires var t := TakenFrame(ram, cr3, va);
      KTable(ram, cr3, NodeAt(va, 3)) == Some(t) && OnlyAt(ram, cr3, NodeAt(va, 3), t)
    requires SpaceOk(s, ram, cr3, kernel, other) && TreeFrames(other) !! TreeFrames(own)
    requires va < VADDR_LIMIT && vb < VADDR_LIMIT
    ensures SpaceOk(s', ram', cr3, kernel, other) && Root in other
    ensures vb / 4096 == va / 4096 ==> SameFrame(PteTranslation(e, vb), Walk(ram', other[Root], vb))
    ensures vb / 4096 != va / 4096 ==> SameFrame(Walk(ram, other[Root], vb), Walk(ram', other[Root], vb))
  {
    hide KTable, KEntry, Word, SetWord, Index, TreeOk, Base, NodeAt, Preserves, Walk, PteTranslation, SamePlace,
      OnlyAt, Grew, StoredEntry;
    var t := TakenFrame(ram, cr3, va);
    var grown: Ram :| OverwrittenFrom(s, ram, cr3, kernel, own, va, e, s', grown, own', ram');
    StoredInGrown(ram, cr3, kernel, own, va, e, grown, own', ram', t);
    OtherKept(s, ram, cr3, kernel, own, va, s', grown, own', other, vb);
    StoreKeepsSpace(s', grown, cr3, kernel, other, va, t, e, ram');
    if vb / 4096 == va / 4096 {
      StoreSeen(grown, cr3, kernel, other, va, t, e, ram', vb);
    } else {
      StoreUnseen(grown, cr3, kernel, other, va, t, e, ram', vb);
    }
  }

  lemma StoredInGrown(ram: Ram, cr3: nat, kernel: set<nat>, own: Tree, va: nat, e: nat, grown: Ram, own': Tree,
      ram': Ram, t: nat)
    requires TreeOk(ram, cr3, kernel, own) && Grew(ram, kernel, own, va, grown, own') && e < WORD_LIMIT && t in grown
    requires KTable(ram, cr3, NodeAt(va, 3)) == Some(t) && OnlyAt(ram, cr3, NodeAt(va, 3), t)
    requires ram' == grown[t := SetWord(grown[t], Index(va, 3), e)]
    ensures StoredEntry(grown, cr3, va, t, e, ram')
  {
    hide KTable, KEntry, Word, SetWord, Index, EntryOk, Open, NodeAt, Empty;
    KernelSameAll(ram, grown, cr3, kernel);
  }

  lemma GrownSees(ram: Ram, cr3: nat, kernel: set<nat>, own: Tree, va: nat, grown: Ram, own': Tree, vb: nat)
    requires TreeOk(ram, cr3, kernel, own) && TreeOk(grown, cr3, kernel, own') &&
      Grew(ram, kernel, own, va, grown, own')
    ensures Root in own && Root in own' && Walk(grown, cr3, vb) == Walk(ram, cr3, vb)
    ensures SameFrame(Walk(ram, own[Root], vb), Walk(grown, own'[Root], vb))
  {
    hide KTable, KEntry, Walk, EntryOk, Open, NodeAt, Empty, KernelOk;
    GrewKeepsWalk(ram, cr3, kernel, own, va, grown, own', vb);
    WalksAgree(ram, grown, cr3, kernel, vb);
  }

  lemma StoreKeepsSpace(s: States, ram: Ram, cr3: nat, kernel: set<nat>, own: Tree, va: nat, t: nat, e: nat, ram': Ram)
    requires SpaceOk(s, ram, cr3, kernel, own) && StoredEntry(ram, cr3, va, t, e, ram')
    ensures SpaceOk(s, ram', cr3, kernel, own)
  {
    hide TreeOk, KTable, KEntry, Word, SetWord, Index, NodeAt, Walk, OnlyAt;
    StoreSeen(ram, cr3, kernel, own, va, t, e, ram', va);
  }

  lemma KernelInRam(ram: Ram, cr3: nat, kernel: set<nat>, own: Tree)
    requires TreeOk(ram, cr3, kernel, own)
    ensures kernel <= ram.Keys
  {
  }

  /** A process whose tables another one does not own keeps them while that one grows. */
  lemma OtherKept(s: States, ram: Ram, cr3: nat, kernel: set<nat>, own: Tree, va: nat, s': States, ram': Ram,
      own': Tree, other: Tree, vb: nat)
    requires SpaceOk(s, ram, cr3, kernel, other) && SpaceGrew(s, ram, kernel, own, va, s', ram', own') &&
      TreeFrames(other) !! TreeFrames(own)
    ensures SpaceOk(s', ram', cr3, kernel, other) && Root in other
    ensures SameFrame(Walk(ram, other[Root], vb), Walk(ram', other[Root], vb))
  {
    hide Walk, KTable, KEntry, EntryOk, Open, NodeAt, Empty, KernelOk;
    assert forall n :: n in other ==> other[n] in TreeFrames(other);
    TreeStays(ram, cr3, kernel, other, ram');
    assert kernel <= ram.Keys by {
      KernelInRam(ram, cr3, kernel, other);
    }
    TreeWalkSame(ram, ram', cr3, kernel, other, vb);
  }

  lemma WalksAgree(ram: Ram, ram': Ram, cr3: nat, kernel: set<nat>, va: nat)
    requires KernelOk(ram, cr3, kernel) && ram'.Keys == ram.Keys && forall q :: q in kernel ==> q < PADDR_LIMIT
    requires forall q :: q in kernel && q in ram ==> ram'[q] == ram[q]
    ensures Walk(ram', cr3, va) == Walk(ram, cr3, va)
  {
    KernelWalkSame(ram, ram', cr3, kernel, va, 0);
  }

  lemma SharedRoot(ram: Ram, cr3: nat, kernel: set<nat>, own: Tree, va: nat)
    requires TreeOk(ram, cr3, kernel, own) && NodeAt(va, 3) !in own
    ensures Root in own && SameFrame(Walk(ram, cr3, va), Walk(ram, own[Root], va))
  {
    SharedWalk(ram, cr3, kernel, own, va, 0);
  }

  lemma LargeNotPrivate(ram: Ram, cr3: nat, kernel: set<nat>, own: Tree, ram0: Ram, va: nat)
    requires TreeOk(ram, cr3, kernel, own) && ram0.Keys == ram.Keys &&
      (forall q :: q in kernel && q in ram0 ==> ram[q] == ram0[q])
    requires KernelOk(ram0, cr3, kernel) && LargePage(ram0, cr3, va)
    ensures NodeAt(va, 3) !in own
  {
    hide KTable, KEntry, Word, Index, Present, Large, EntryOk;
    KernelSameAll(ram0, ram, cr3, kernel);
  }

  /** A tree does not depend on memory outside the tables. */
  lemma TreeStays(ram: Ram, cr3: nat, kernel: set<nat>, own: Tree, ram': Ram)
    requires TreeOk(ram, cr3, kernel, own) && ram'.Keys == ram.Keys
    requires forall q :: q in ram && (q in kernel || q in TreeFrames(own)) ==> ram'[q] == ram[q]
    ensures TreeOk(ram', cr3, kernel, own)
  {
    hide KTable, KEntry, Word, Open, Shared, TableEntry;
    KernelSameAll(ram, ram', cr3, kernel);
    forall n, i | n in own && !n.Pt? && 0 <= i < 512
      ensures EntryOk(ram', cr3, own, n, i)
    {
      assert EntryOk(ram, cr3, own, n, i) && own[n] in TreeFrames(own);
    }
  }

  /** Writing an entry into a kernel table goes unseen exactly when it was there already. */
  lemma OverwriteShows(ram: Ram, ram': Ram, kernel: set<nat>, t: nat, i: nat, e: nat)
    requires t in kernel && t in ram && t in ram' && i < 512 && e < WORD_LIMIT
    requires ram'[t] == SetWord(ram[t], i, e) && KernelUntouched(ram, ram', kernel - {t})
    ensures KernelUntouched(ram, ram', kernel) <==> Word(ram[t], i) == e
  {
    hide Word, SetWord;
    StoreIsIdle(ram[t], i, e);
  }

  /** The two tests of `map_page` recognise exactly the entries that are not private yet, and
      the kernel's table below is there exactly when the kernel's entry is present. */
  lemma EntryCases(states: States, ram: Ram, cr3: nat, kernel: set<nat>, own: Tree, n: Node, i: nat)
    requires SpaceOk(states, ram, cr3, kernel, own) && n in own && (n.Root? || n.Pdp?) && i < 512
    requires Open(ram, cr3, Child(n, i))
    ensures own[n] in ram && own[n] !in kernel && InRange(Child(n, i))
    ensures var ke, pe, c := KEntry(ram, cr3, n, i), Word(ram[own[n]], i), Child(n, i);
      && (c !in own <==> (Base(ke) == Base(pe) && Present(ke)) || !Present(pe))
      && (c in own ==> Base(pe) == own[c])
      && KTable(ram, cr3, c) == (if Present(ke) then Some(Base(ke)) else None)
      && (Present(ke) ==> Base(ke) in kernel && Base(ke) in ram)
  {
    var ke, c := KEntry(ram, cr3, n, i), Child(n, i);
    assert Parent(c) == n && LastIndex(c) == i;
    assert EntryOk(ram, cr3, own, n, i);
    if c in own {
      TableEntryBits(own[c]);
    } else {
      OrUserBits(ke);
      ZeroNotPresent();
    }
  }

  /** The PD entry is empty exactly where a private page table is still missing and may go. */
  lemma LastLevelCases(states: States, ram: Ram, cr3: nat, kernel: set<nat>, own: Tree, va: nat)
    requires SpaceOk(states, ram, cr3, kernel, own) && NodeAt(va, 2) in own
    ensures var n, i, c := NodeAt(va, 2), Index(va, 2), NodeAt(va, 3);
      && own[n] in ram && own[n] !in kernel && c == Child(n, i)
      && (c in own ==> Open(ram, cr3, c) && Base(Word(ram[own[n]], i)) == own[c])
      && (!Present(Word(ram[own[n]], i)) <==> c !in own && Open(ram, cr3, c))
      && (!Open(ram, cr3, c) ==> Base(Word(ram[own[n]], i)) == Base(KEntry(ram, cr3, n, i)))
  {
    hide KTable, KEntry, Present, Index, Word, KernelOk, OrUser;
    var n, i, c := NodeAt(va, 2), Index(va, 2), NodeAt(va, 3);
    assert EntryOk(ram, cr3, own, n, i);
    ZeroNotPresent();
    OrUserBits(KEntry(ram, cr3, n, i));
    if c in own {
      TableEntryBits(own[c]);
    }
  }

  /** A page just allocated is nobody's table. */
  lemma FreshTable(states: States, ram: Ram, cr3: nat, kernel: set<nat>, own: Tree, p: nat, va: nat)
    requires SpaceOk(states, ram, cr3, kernel, own) && p in states && states[p] == Free
    ensures p in ram && p % 4096 == 0 && p < PADDR_LIMIT && p !in kernel && forall m :: m in own ==> own[m] != p
    ensures SpaceOk(states[p := Allocated], ram, cr3, kernel, own)
    ensures SpaceGrew(states, ram, kernel, own, va, states[p := Allocated], ram, own)
  {
    hide TreeOk;
    assert TreeShape(ram, kernel, own) by {
      ShapeOf(ram, cr3, kernel, own);
    }
  }

  lemma ShapeOf(ram: Ram, cr3: nat, kernel: set<nat>, own: Tree)
    requires TreeOk(ram, cr3, kernel, own)
    ensures TreeShape(ram, kernel, own)
  {
  }

  /** Contents a table must have before it is linked under entry `i` of `n`. */
  ghost predicate ReadyTable(ram: Ram, cr3: nat, c: Node, f: Frame, va: nat)
    requires InRange(c)
  {
    if c.Pt? then c == NodeAt(va, 3) && Empty(f)
    else forall j :: 0 <= j < 512 ==> Word(f, j) == SharedEntry(ram, cr3, c, j)
  }

  /** Linking a ready table is a preserving step that grows the tree. */
  lemma LinkTable(states: States, ram: Ram, cr3: nat, kernel: set<nat>, own: Tree, n: Node, i: nat, p: nat, ram': Ram,
      own': Tree, va: nat)
    requires SpaceOk(states, ram, cr3, kernel, own) && n in own && !n.Pt? && i < 512
    requires Child(n, i) !in own && Open(ram, cr3, Child(n, i)) && p in states && states[p] == Free
    requires Installed(ram, own, n, i, p, ram', own') && p in ram && ReadyTable(ram, cr3, Child(n, i), ram'[p], va)
    ensures SpaceOk(states[p := Allocated], ram', cr3, kernel, own')
    ensures SpaceGrew(states, ram, kernel, own, va, states[p := Allocated], ram', own')
    ensures Base(Word(ram'[own[n]], i)) == p && own'[Root] == own[Root]
  {
    hide KTable, KEntry, Word, Open, Shared, TreeOk, Preserves, Grew, SpaceGrew;
    FreshTable(states, ram, cr3, kernel, own, p, va);
    ShapeOf(ram, cr3, kernel, own);
    InstallKeepsTree(ram, cr3, kernel, own, n, i, p, ram', own');
    TableEntryBits(p);
    LinkGrew(states, ram, cr3, kernel, own, n, i, p, ram', own', va);
  }

  lemma LinkGrew(states: States, ram: Ram, cr3: nat, kernel: set<nat>, own: Tree, n: Node, i: nat, p: nat, ram': Ram,
      own': Tree, va: nat)
    requires TreeShape(ram, kernel, own) && n in own && !n.Pt? && i < 512 && Child(n, i) !in own && p in states &&
      states[p] == Free
    requires p in ram && p % 4096 == 0 && p < PADDR_LIMIT && p !in kernel && forall m :: m in own ==> own[m] != p
    requires Installed(ram, own, n, i, p, ram', own') && ReadyTable(ram, cr3, Child(n, i), ram'[p], va)
    ensures SpaceGrew(states, ram, kernel, own, va, states[p := Allocated], ram', own')
  {
    hide KTable, KEntry, Word, Shared, NodeAt, Empty, TableEntry;
    hide Preserves, Grew;
    InstallShape(ram, kernel, own, n, i, p, ram', own');
    LinkPreserves(states, ram, own, n, i, p, ram', own');
    LinkTree(ram, cr3, kernel, own, n, i, p, ram', own', va);
  }

  lemma LinkPreserves(states: States, ram: Ram, own: Tree, n: Node, i: nat, p: nat, ram': Ram, own': Tree)
    requires n in own && !n.Pt? && i < 512 && p in states && states[p] == Free
    requires Installed(ram, own, n, i, p, ram', own')
    ensures Preserves(states, ram, states[p := Allocated], ram', TreeFrames(own))
  {
    hide Word, TableEntry;
    assert own[n] in TreeFrames(own);
  }

  lemma LinkTree(ram: Ram, cr3: nat, kernel: set<nat>, own: Tree, n: Node, i: nat, p: nat, ram': Ram, own': Tree,
      va: nat)
    requires n in own && !n.Pt? && i < 512 && Child(n, i) !in own && p in ram
    requires Installed(ram, own, n, i, p, ram', own') && InRange(Child(n, i)) &&
      ReadyTable(ram, cr3, Child(n, i), ram'[p], va)
    requires forall m :: m in own && m != n && own[m] in ram ==> ram'[own[m]] == ram[own[m]]
    requires forall q :: q in kernel && q in ram ==> ram'[q] == ram[q]
    ensures Grew(ram, kernel, own, va, ram', own')
  {
    hide KTable, KEntry, Word, Shared, NodeAt, Empty, TableEntry;
  }

  // Whole-table writes

  /** The 512-entry copy loop of `map_page`. */
  method CopyShared(phys: PhysMem, src: nat, dst: nat)
    requires src in phys.ram && dst in phys.ram && src != dst
    modifies phys
    ensures phys.ram.Keys == old(phys.ram).Keys
    ensures forall q :: q in phys.ram && q != dst ==> phys.ram[q] == old(phys.ram)[q]
    ensures forall j :: 0 <= j < 512 ==> Word(phys.ram[dst], j) == Shared(false, Word(old(phys.ram)[src], j))
  {
    hide Word, SetWord, Present, OrUser;
    for i := 0 to 512
      invariant phys.ram.Keys == old(phys.ram).Keys
      invariant forall q :: q in phys.ram && q != dst ==> phys.ram[q] == old(phys.ram)[q]
      invariant forall j :: 0 <= j < i ==> Word(phys.ram[dst], j) == Shared(false, Word(old(phys.ram)[src], j))
    {
      var entry := Word(phys.ram[src], i);
      OrUserBits(entry);
      phys.ram := phys.ram[dst := SetWord(phys.ram[dst], i, Shared(false, entry))];
    }
  }

  method CopyEntries(phys: PhysMem, src: nat, dst: nat, lo: nat, hi: nat)
    requires src in phys.ram && dst in phys.ram && src != dst && lo <= hi <= 512
    modifies phys
    ensures phys.ram.Keys == old(phys.ram).Keys
    ensures forall q :: q in phys.ram && q != dst ==> phys.ram[q] == old(phys.ram)[q]
    ensures forall j :: 0 <= j < 512 ==>
      Word(phys.ram[dst], j) == Word(old(phys.ram)[if lo <= j < hi then src else dst], j)
  {
    hide Word, SetWord;
    for i := lo to hi
      invariant phys.ram.Keys == old(phys.ram).Keys
      invariant forall q :: q in phys.ram && q != dst ==> phys.ram[q] == old(phys.ram)[q]
      invariant forall j :: 0 <= j < 512 ==>
        Word(phys.ram[dst], j) == Word(old(phys.ram)[if lo <= j < i then src else dst], j)
    {
      phys.ram := phys.ram[dst := SetWord(phys.ram[dst], i, Word(phys.ram[src], i))];
    }
  }

  method ZeroTable(phys: PhysMem, dst: nat)
    requires dst in phys.ram
    modifies phys
    ensures phys.ram.Keys == old(phys.ram).Keys
    ensures forall q :: q in phys.ram && q != dst ==> phys.ram[q] == old(phys.ram)[q]
    ensures Empty(phys.ram[dst])
  {
    hide Word, SetWord;
    for i := 0 to 512
      invariant phys.ram.Keys == old(phys.ram).Keys
      invariant forall q :: q in phys.ram && q != dst ==> phys.ram[q] == old(phys.ram)[q]
      invariant forall j :: 0 <= j < i ==> Word(phys.ram[dst], j) == 0
    {
      phys.ram := phys.ram[dst := SetWord(phys.ram[dst], i, 0)];
    }
  }

  class AddressSpace {
    const phys: PhysMem
    const pmm: Manager
    const cr3: nat
    const root: nat
    ghost const kernel: set<nat>
    ghost var own: Tree

    ghost predicate Valid()
      reads this, phys, pmm
    {
      && pmm.Valid()
      && SpaceOk(pmm.states, phys.ram, cr3, kernel, own)
      && own[Root] == root
    }

    constructor (phys: PhysMem, pmm: Manager, cr3: nat, root: nat, ghost kernel: set<nat>)
      ensures this.phys == phys && this.pmm == pmm && this.cr3 == cr3 && this.root == root && this.kernel == kernel
      ensures own == map[Root := root]
    {
      this.phys, this.pmm, this.cr3, this.root, this.kernel := phys, pmm, cr3, root, kernel;
      own := map[Root := root];
    }

    /** A new process root: the kernel's 512 root entries, bit for bit, so the process starts
        out seeing exactly what the kernel sees. */
    static method New(phys: PhysMem, pmm: Manager, cr3: nat, ghost kernel: set<nat>) returns (r: Outcome<AddressSpace>)
      requires pmm.Valid() && KernelEnv(pmm.states, phys.ram, cr3, kernel)
      modifies phys, pmm`arenas, pmm`states
      ensures pmm.Valid() && !r.Err?
      ensures Preserves(old(pmm.states), old(phys.ram), pmm.states, phys.ram, {})
      ensures r.Ok? ==>
        && fresh(r.value) && r.value.Valid()
        && r.value.phys == phys && r.value.pmm == pmm && r.value.cr3 == cr3 && r.value.kernel == kernel
        && r.value.own == map[Root := r.value.root]
        && r.value.root in old(pmm.states) && old(pmm.states)[r.value.root] == Free
        && (forall va :: Walk(phys.ram, r.value.root, va) == Walk(phys.ram, cr3, va))
      ensures Charged(old(pmm.states), pmm.states, Zone(pmm.home, PMM_ALLOC_FLAG_KERNEL), 1, r.Halt?)
    {
      hide Represents, ArenasOk, Homes, KernelEnv, SpaceOk, Word, Walk, Preserves, Charged, Zone;
      ghost var states, ram := pmm.states, phys.ram;
      var got := pmm.AllocPage(PMM_ALLOC_FLAG_KERNEL);
      if got.Spin? {
        PreservesRefl(states, ram);
        return Halt;
      }
      var pml4 := got.paddr;
      FreshRoot(states, ram, cr3, kernel, pml4);
      ZeroTable(phys, pml4);
      CopyEntries(phys, cr3, pml4, 0, 256);
      CopyEntries(phys, cr3, pml4, 256, 512);
      RootIsCopy(states, ram, cr3, kernel, pml4, phys.ram);
      var space := new AddressSpace(phys, pmm, cr3, pml4, kernel);
      return Ok(space);
    }

    /** One table page. Zero means failure to the callers, as in the source. */
    method AllocPageTable() returns (r: Outcome<nat>)
      requires pmm.Valid()
      modifies pmm`arenas, pmm`states
      ensures pmm.Valid() && !r.Err?
      ensures r.Ok? ==>
        r.value in old(pmm.states) && old(pmm.states)[r.value] == Free &&
        pmm.states == old(pmm.states)[r.value := Allocated]
      ensures r.Halt? ==> pmm.states == old(pmm.states)
      ensures Charged(old(pmm.states), pmm.states, Zone(pmm.home, PMM_ALLOC_FLAG_KERNEL), 1, r.Halt?)
    {
      hide Represents, ArenasOk, Homes, Charged, Zone;
      var got := pmm.AllocPage(PMM_ALLOC_FLAG_KERNEL);
      if got.Spin? {
        return Halt;
      }
      return Ok(got.paddr);
    }

    /** Makes the table under entry `i` of a private PML4 or PDP private: a kernel entry is
        replaced by a copy of its table, an empty one by a new table, a private one is kept. */
    method EnsureTable(ghost n: Node, table: nat, i: nat, kernelEntry: nat, ghost va: nat) returns (r: Outcome<nat>)
      requires Valid()
      requires n in own && (n.Root? || n.Pdp?) && table == own[n] && i < 512
      requires kernelEntry == KEntry(phys.ram, cr3, n, i) && Open(phys.ram, cr3, Child(n, i))
      modifies this, phys, pmm`arenas, pmm`states
      ensures Valid()
      ensures SpaceGrew(old(pmm.states), old(phys.ram), kernel, old(own), va, pmm.states, phys.ram, own)
      ensures r.Ok? ==> Child(n, i) in own && r.value == own[Child(n, i)]
      ensures r.Err? ==> 0 in pmm.states
      ensures Paid(old(pmm.states), pmm.states, Zone(pmm.home, PMM_ALLOC_FLAG_KERNEL), old(own).Keys, own.Keys,
        {Child(n, i)}, r.Ok?, r.Halt?)
    {
      hide Represents, ArenasOk, Homes, SpaceOk, KTable, KEntry, Word, SetWord, Present, Base, TableEntry, SpaceGrew,
        Preserves, Open, Charged, Zone, Paid;
      ghost var zone := Zone(pmm.home, PMM_ALLOC_FLAG_KERNEL);
      EntryCases(pmm.states, phys.ram, cr3, kernel, own, n, i);
      NothingGrew(pmm.states, phys.ram, kernel, own, va);
      if Child(n, i) in own {
        PaidNothing(pmm.states, zone, own.Keys, {Child(n, i)}, false);
      }
      var processEntry := Word(phys.ram[table], i);
      var isKernelEntry := Base(kernelEntry) == Base(processEntry) && Present(kernelEntry);
      if isKernelEntry || !Present(processEntry) {
        ghost var states, ram := pmm.states, phys.ram;
        var alloc := AllocPageTable();
        PaidOne(states, pmm.states, zone, own.Keys, own.Keys, Child(n, i), false, alloc.Halt?);
        if !alloc.Ok? {
          return alloc;
        }
        var newTable := alloc.value;
        FreshTable(states, ram, cr3, kernel, own, newTable, va);
        if newTable == 0 {
          return Err("Failed to allocate page table");
        }
        if Present(kernelEntry) {
          CopyShared(phys, Base(kernelEntry), newTable);
        } else {
          ZeroTable(phys, newTable);
        }
        FilledTable(ram, cr3, kernelEntry, Child(n, i), phys.ram[newTable], va);
        ghost var filled := phys.ram;
        TableEntryBits(newTable);
        phys.ram := phys.ram[table := SetWord(phys.ram[table], i, TableEntry(newTable))];
        own := own[Child(n, i) := newTable];
        PaidOne(states, pmm.states, zone, old(own).Keys, own.Keys, Child(n, i), true, false);
        LinkedTable(ram, old(own), n, i, newTable, filled, phys.ram, own);
        LinkTable(states, ram, cr3, kernel, old(own), n, i, newTable, phys.ram, own, va);
      }
      return Ok(Base(Word(phys.ram[table], i)));
    }

    /** The last level: an empty PD entry gets a new zeroed page table, any other is reused as
        it stands - also when it is the kernel's. */
    method EnsurePt(ghost n: Node, table: nat, i: nat, ghost va: nat) returns (r: Outcome<nat>)
      requires Valid()
      requires n in own && n == NodeAt(va, 2) && table == own[n] && i == Index(va, 2)
      modifies this, phys, pmm`arenas, pmm`states
      ensures Valid()
      ensures SpaceGrew(old(pmm.states), old(phys.ram), kernel, old(own), va, pmm.states, phys.ram, own)
      ensures r.Ok? ==>
        if Open(old(phys.ram), cr3, NodeAt(va, 3)) then NodeAt(va, 3) in own && r.value == own[NodeAt(va, 3)]
        else r.value == Base(KEntry(old(phys.ram), cr3, n, i))
      ensures r.Err? ==> 0 in pmm.states
      ensures Paid(old(pmm.states), pmm.states, Zone(pmm.home, PMM_ALLOC_FLAG_KERNEL), old(own).Keys, own.Keys,
                   if Open(old(phys.ram), cr3, NodeAt(va, 3)) then {NodeAt(va, 3)} else {}, r.Ok?, r.Halt?)
    {
      hide Represents, ArenasOk, Homes, SpaceOk, KTable, KEntry, Word, SetWord, Present, Base, TableEntry, SpaceGrew,
        Preserves, Open, Index, Charged, Zone, Paid;
      ghost var zone := Zone(pmm.home, PMM_ALLOC_FLAG_KERNEL);
      LastLevelCases(pmm.states, phys.ram, cr3, kernel, own, va);
      NothingGrew(pmm.states, phys.ram, kernel, own, va);
      PaidNothing(pmm.states, zone, own.Keys, if NodeAt(va, 3) in own then {NodeAt(va, 3)} else {}, false);
      if !Present(Word(phys.ram[table], i)) {
        ghost var states, ram := pmm.states, phys.ram;
        var alloc := AllocPageTable();
        PaidOne(states, pmm.states, zone, own.Keys, own.Keys, NodeAt(va, 3), false, alloc.Halt?);
        if !alloc.Ok? {
          return alloc;
        }
        var newTable := alloc.value;
        FreshTable(states, ram, cr3, kernel, own, newTable, va);
        if newTable == 0 {
          return Err("Failed to allocate page table");
        }
        ZeroTable(phys, newTable);
        ghost var filled := phys.ram;
        TableEntryBits(newTable);
        phys.ram := phys.ram[table := SetWord(phys.ram[table], i, TableEntry(newTable))];
        own := own[Child(n, i) := newTable];
        PaidOne(states, pmm.states, zone, old(own).Keys, own.Keys, NodeAt(va, 3), true, false);
        LinkedTable(ram, old(own), n, i, newTable, filled, phys.ram, own);
        LinkTable(states, ram, cr3, kernel, old(own), n, i, newTable, phys.ram, own, va);
      }
      return Ok(Base(Word(phys.ram[table], i)));
    }

    /** The three levels above the final entry: afterwards the PDP and PD of the address are
        private, and so is its page table unless the kernel's PD slot is taken. */
    method EnsurePath(va: nat) returns (r: Outcome<nat>)
      requires Valid() && va < VADDR_LIMIT && Open(phys.ram, cr3, NodeAt(va, 2))
      modifies this, phys, pmm`arenas, pmm`states
      ensures Valid()
      ensures SpaceGrew(old(pmm.states), old(phys.ram), kernel, old(own), va, pmm.states, phys.ram, own)
      ensures r.Ok? ==>
        if Open(old(phys.ram), cr3, NodeAt(va, 3)) then NodeAt(va, 3) in own && r.value == own[NodeAt(va, 3)]
        else r.value == Base(KEntry(old(phys.ram), cr3, NodeAt(va, 2), Index(va, 2)))
      ensures r.Err? ==> 0 in pmm.states
      ensures Paid(old(pmm.states), pmm.states, Zone(pmm.home, PMM_ALLOC_FLAG_KERNEL), old(own).Keys, own.Keys,
                   Path(va, Open(old(phys.ram), cr3, NodeAt(va, 3))), r.Ok?, r.Halt?)
    {
      hide Represents, ArenasOk, Homes, SpaceOk, KTable, KEntry, Word, Present, Base, SpaceGrew, Open, Index,
        Preserves, KernelUntouched, KeptOutside, NoLargePage, SpaceStep, Zone, Charged, Paid, Path;
      ghost var s0, ram0, own0 := pmm.states, phys.ram, own;
      ghost var zone, n1, n2 := Zone(pmm.home, PMM_ALLOC_FLAG_KERNEL), NodeAt(va, 1), NodeAt(va, 2);
      ghost var last := if Open(ram0, cr3, NodeAt(va, 3)) then {NodeAt(va, 3)} else {};
      PathParts(va, Open(ram0, cr3, NodeAt(va, 3)));
      KernelEntries(s0, ram0, cr3, kernel, own0, va);
      r := EnsureTable(Root, root, Index(va, 0), Word(phys.ram[cr3], Index(va, 0)), va);
      GrewStable(s0, ram0, cr3, kernel, own0, va, pmm.states, phys.ram, own);
      if !r.Ok? {
        PaidShort(s0, pmm.states, zone, own0.Keys, own.Keys, {n1}, {n2} + last, r.Halt?);
        return;
      }
      ghost var s1, ram1, own1 := pmm.states, phys.ram, own;
      KernelEntries(s1, ram1, cr3, kernel, own1, va);
      var pml4Entry := Word(phys.ram[cr3], Index(va, 0));
      var pdpEntry := if Present(pml4Entry) then Word(phys.ram[Base(pml4Entry)], Index(va, 1)) else 0;
      r := EnsureTable(Pdp(Index(va, 0)), r.value, Index(va, 1), pdpEntry, va);
      SpaceGrewTrans(s0, ram0, kernel, own0, va, s1, ram1, own1, pmm.states, phys.ram, own);
      GrewStable(s0, ram0, cr3, kernel, own0, va, pmm.states, phys.ram, own);
      PaidTrans(s0, s1, pmm.states, zone, own0.Keys, own1.Keys, own.Keys, {n1}, {n2}, r.Ok?, r.Halt?);
      if !r.Ok? {
        PaidShort(s0, pmm.states, zone, own0.Keys, own.Keys, {n1} + {n2}, last, r.Halt?);
        return;
      }
      ghost var s2, ram2, own2 := pmm.states, phys.ram, own;
      r := EnsurePt(Pd(Index(va, 0), Index(va, 1)), r.value, Index(va, 2), va);
      SpaceGrewTrans(s0, ram0, kernel, own0, va, s2, ram2, own2, pmm.states, phys.ram, own);
      PaidTrans(s0, s2, pmm.states, zone, own0.Keys, own2.Keys, own.Keys, {n1} + {n2}, last, r.Ok?, r.Halt?);
    }

    /** Maps one page. Where the kernel leaves the PD slot empty, the page walks to exactly
        `paddr`, writable iff PF_W, every other page keeps its frame, and no kernel word
        changes. Where the kernel has a page table there, that very table is overwritten; where
        it has a large page, a word of that page's memory is. */
    method MapPage(va: nat, paddr: nat, flags: nat) returns (r: Outcome<()>)
      requires Valid()
      requires va < VADDR_LIMIT && paddr % 4096 == 0 && paddr < PADDR_LIMIT
      requires Open(phys.ram, cr3, NodeAt(va, 2))
      requires LargePage(phys.ram, cr3, va) ==> TakenFrame(phys.ram, cr3, va) in phys.ram
      modifies this, phys, pmm`arenas, pmm`states
      ensures !r.Ok? || Open(old(phys.ram), cr3, NodeAt(va, 3)) ==>
        Valid() && SpaceStep(old(pmm.states), old(phys.ram), kernel, old(own), pmm.states, phys.ram, own)
      ensures !r.Ok? ==> KeptOutside(old(phys.ram), old(own), 0, 0, phys.ram, own)
      ensures r.Err? ==> 0 in pmm.states
      ensures r.Ok? && Open(old(phys.ram), cr3, NodeAt(va, 3)) ==>
        && PageMapped(phys.ram, own, va / 4096, paddr, flags)
        && KeptOutside(old(phys.ram), old(own), va / 4096, va / 4096 + 1, phys.ram, own)
      ensures r.Ok? && !Open(old(phys.ram), cr3, NodeAt(va, 3)) ==>
        && Overwritten(old(pmm.states), old(phys.ram), cr3, kernel, old(own), va, Pte(paddr, flags), pmm.states,
           phys.ram, own)
        && var t := TakenFrame(old(phys.ram), cr3, va);
           t in old(phys.ram) && (KernelUntouched(old(phys.ram), phys.ram, kernel) <==>
                                    t !in kernel || Word(old(phys.ram)[t], Index(va, 3)) == Pte(paddr, flags))
      ensures Paid(old(pmm.states), pmm.states, Zone(pmm.home, PMM_ALLOC_FLAG_KERNEL), old(own).Keys, own.Keys,
                   Path(va, Open(old(phys.ram), cr3, NodeAt(va, 3))), r.Ok?, r.Halt?)
    {
      hide Represents, ArenasOk, Homes, SpaceOk, KTable, KEntry, Word, SetWord, Present, Large, Base, SpaceGrew, Open,
        Index, Pte, PageMapped, KernelUntouched, KeptOutside, SpaceStep, Zone, Charged, Paid, Path, Overwritten;
      ghost var s0, ram0, own0 := pmm.states, phys.ram, own;
      var r3 := EnsurePath(va);
      GrewStable(s0, ram0, cr3, kernel, own0, va, pmm.states, phys.ram, own);
      if !r3.Ok? {
        return if r3.Halt? then Halt else Err(r3.error);
      }
      PteBits(paddr, flags);
      ghost var ram3 := phys.ram;
      OpenOrNot(ram0, cr3, va);
      TargetInRam(s0, ram0, cr3, kernel, own0, va);
      TargetInRam(pmm.states, ram3, cr3, kernel, own, va);
      phys.ram := phys.ram[r3.value := SetWord(phys.ram[r3.value], Index(va, 3), Pte(paddr, flags))];
      if Open(ram0, cr3, NodeAt(va, 3)) {
        MapDone(s0, ram0, cr3, kernel, own0, va, paddr, flags, pmm.states, ram3, own, phys.ram);
      } else {
        OverwriteDone(s0, ram0, cr3, kernel, own0, va, Pte(paddr, flags), pmm.states, ram3, own, phys.ram);
        OverwriteShowsIff(s0, ram0, cr3, kernel, own0, va, Pte(paddr, flags), pmm.states, phys.ram, own);
      }
      return Ok(());
    }

    /** Maps the pages of an object one after the other. No page mapped earlier in the loop is
        undone by a later one, and pages outside the range keep their frames. */
    method MapVmo(vmo: Vmo, vaddr: nat, size: nat, flags: nat) returns (r: Outcome<()>)
      requires Valid() && vmo.phys == phys && vmo.pmm == pmm && vmo.Valid()
      requires Outside(vmo.pages, TreeFrames(own))
      requires vaddr + PageCount(size) * 4096 <= VADDR_LIMIT
      requires Room(phys.ram, cr3, vaddr / 4096, PageCount(size))
      modifies this, phys, pmm`arenas, pmm`states
      ensures Valid() && vmo.Valid()
      ensures SpaceStep(old(pmm.states), old(phys.ram), kernel, old(own), pmm.states, phys.ram, own)
      ensures vaddr % 4096 != 0 ==> r == Err("Virtual address not page-aligned")
      ensures KeptOutside(old(phys.ram), old(own), vaddr / 4096, vaddr / 4096 + PageCount(size), phys.ram, own)
      ensures r.Ok? ==> AllMapped(phys.ram, own, vmo.pages, vaddr / 4096, PageCount(size), flags)
      ensures r.Err? && vaddr % 4096 == 0 ==>
        0 in pmm.states || exists j :: 0 <= j < PageCount(size) && PageMissing(vmo.pages, j)
      ensures Paid(old(pmm.states), pmm.states, Zone(pmm.home, PMM_ALLOC_FLAG_KERNEL), old(own).Keys, own.Keys,
                   Paths(vaddr / 4096, PageCount(size)), r.Ok?, r.Halt?)
    {
      hide Represents, ArenasOk, Homes, SpaceOk, KeptOutside, PageMapped, SpaceStep, Room, Backed, Outside, TreeFrames,
        Preserves, NewTablesWereFree, KernelUntouched, NoLargePage, LargePage, Open, NodeAt, Zone, Charged, Paid, Path,
        Paths, MappedSoFar, AllMapped;
      ghost var zone, lo := Zone(pmm.home, PMM_ALLOC_FLAG_KERNEL), vaddr / 4096;
      ghost var was := Snap(pmm.states, phys.ram, own);
      var numPages := PageCount(size);
      MappedNone(was, cr3, kernel, zone, vmo.pages, lo, numPages, flags);
      if vaddr % 4096 != 0 {
        return Err("Virtual address not page-aligned");
      }
      for idx := 0 to numPages
        invariant Valid() && vmo.Valid()
        invariant MappedSoFar(was, Snap(pmm.states, phys.ram, own), kernel, zone, vmo.pages, lo, numPages, idx, flags)
      {
        var offset := idx * 4096;
        ghost var now := Snap(pmm.states, phys.ram, own);
        MappedParts(was, now, kernel, zone, vmo.pages, lo, numPages, idx, flags);
        if offset !in vmo.pages || !vmo.pages[offset].present {
          assert PageMissing(vmo.pages, idx);
          return Err("VMO page not present");
        }
        var va := vaddr + offset;
        assert va / 4096 == lo + idx && va == (lo + idx) * 4096;
        RoomStays(was.s, was.ram, cr3, kernel, was.own, now.s, now.ram, now.own, lo, numPages, idx, va);
        VmoPage(now.s, now.ram, cr3, kernel, now.own, vmo.pages, offset);
        r := MapPage(va, vmo.pages[offset].paddr, flags);
        ghost var next := Snap(pmm.states, phys.ram, own);
        MapStep(was.s, was.ram, kernel, was.own, now.s, now.ram, now.own, next.s, next.ram, next.own, vmo.pages);
        if !r.Ok? {
          MappedFails(was, now, next, kernel, zone, vmo.pages, lo, numPages, idx, flags, r.Halt?);
          return;
        }
        MappedOne(was, now, next, kernel, zone, vmo.pages, lo, numPages, idx, flags);
      }
      MappedParts(was, Snap(pmm.states, phys.ram, own), kernel, zone, vmo.pages, lo, numPages, numPages, flags);
      return Ok(());
    }
  }

  /** Page states, memory and private tables at one moment. */
  datatype Snap = Snap(s: States, ram: Ram, own: Tree)

  /** Between two moments the first `idx` pages of a range were mapped, and what that cost. */
  ghost predicate MappedSoFar(a: Snap, b: Snap, kernel: set<nat>, zone: set<nat>, pages: PageMap, lo: nat, n: nat,
      idx: nat, flags: nat)
  {
    && SpaceStep(a.s, a.ram, kernel, a.own, b.s, b.ram, b.own)
    && KeptOutside(a.ram, a.own, lo, lo + n, b.ram, b.own)
    && AllMapped(b.ram, b.own, pages, lo, idx, flags)
    && Paid(a.s, b.s, zone, a.own.Keys, b.own.Keys, Paths(lo, idx), true, false)
  }

  lemma MappedNone(a: Snap, cr3: nat, kernel: set<nat>, zone: set<nat>, pages: PageMap, lo: nat, n: nat, flags: nat)
    requires SpaceOk(a.s, a.ram, cr3, kernel, a.own)
    ensures MappedSoFar(a, a, kernel, zone, pages, lo, n, 0, flags)
    ensures SpaceStep(a.s, a.ram, kernel, a.own, a.s, a.ram, a.own) &&
      KeptOutside(a.ram, a.own, lo, lo + n, a.ram, a.own)
    ensures Paid(a.s, a.s, zone, a.own.Keys, a.own.Keys, Paths(lo, n), false, false)
  {
    hide SpaceOk, Paid, KeptOutside, SpaceStep, PageMapped, Path, PageMissing;
    SpaceStepRefl(a.s, a.ram, cr3, kernel, a.own, lo, lo + n);
    PaidNothing(a.s, zone, a.own.Keys, {}, false);
    PaidFailed(a.s, a.s, zone, a.own.Keys, a.own.Keys, {}, Paths(lo, n));
  }

  lemma MappedParts(a: Snap, b: Snap, kernel: set<nat>, zone: set<nat>, pages: PageMap, lo: nat, n: nat, idx: nat,
      flags: nat)
    requires MappedSoFar(a, b, kernel, zone, pages, lo, n, idx, flags)
    ensures SpaceStep(a.s, a.ram, kernel, a.own, b.s, b.ram, b.own) &&
      KeptOutside(a.ram, a.own, lo, lo + n, b.ram, b.own)
    ensures AllMapped(b.ram, b.own, pages, lo, idx, flags)
    ensures Paid(a.s, b.s, zone, a.own.Keys, b.own.Keys, Paths(lo, idx), true, false)
    ensures Paid(a.s, b.s, zone, a.own.Keys, b.own.Keys, Paths(lo, n), false, false)
  {
    hide KeptOutside, SpaceStep, AllMapped;
  }

  lemma MappedOne(a: Snap, b: Snap, c: Snap, kernel: set<nat>, zone: set<nat>, pages: PageMap, lo: nat, n: nat,
      idx: nat, flags: nat)
    requires MappedSoFar(a, b, kernel, zone, pages, lo, n, idx, flags) && idx < n
    requires SpaceStep(a.s, a.ram, kernel, a.own, c.s, c.ram, c.own)
    requires KeptOutside(b.ram, b.own, lo + idx, lo + idx + 1, c.ram, c.own)
    requires !PageMissing(pages, idx) && PageMapped(c.ram, c.own, lo + idx, pages[idx * 4096].paddr, flags)
    requires Paid(b.s, c.s, zone, b.own.Keys, c.own.Keys, Path((lo + idx) * 4096, true), true, false)
    ensures MappedSoFar(a, c, kernel, zone, pages, lo, n, idx + 1, flags)
  {
    hide KeptOutside, SpaceStep, PageMapped, Paid, Path, AllMapped;
    KeptTrans(a.ram, a.own, lo, lo + n, b.ram, b.own, lo + idx, lo + idx + 1, c.ram, c.own, lo, lo + n);
    AllMappedStep(b.ram, b.own, c.ram, c.own, pages, lo, idx, flags);
    PaidTrans(a.s, b.s, c.s, zone, a.own.Keys, b.own.Keys, c.own.Keys, Paths(lo, idx), Path((lo + idx) * 4096, true),
      true, false);
  }

  lemma MappedFails(a: Snap, b: Snap, c: Snap, kernel: set<nat>, zone: set<nat>, pages: PageMap, lo: nat, n: nat,
      idx: nat, flags: nat, halted: bool)
    requires MappedSoFar(a, b, kernel, zone, pages, lo, n, idx, flags) && idx < n
    requires KeptOutside(b.ram, b.own, 0, 0, c.ram, c.own)
    requires Paid(b.s, c.s, zone, b.own.Keys, c.own.Keys, Path((lo + idx) * 4096, true), false, halted)
    ensures KeptOutside(a.ram, a.own, lo, lo + n, c.ram, c.own)
    ensures Paid(a.s, c.s, zone, a.own.Keys, c.own.Keys, Paths(lo, n), false, halted)
  {
    hide KeptOutside, SpaceStep, Paid, Path, AllMapped;
    KeptTrans(a.ram, a.own, lo, lo + n, b.ram, b.own, 0, 0, c.ram, c.own, lo, lo + n);
    PaidTrans(a.s, b.s, c.s, zone, a.own.Keys, b.own.Keys, c.own.Keys, Paths(lo, idx), Path((lo + idx) * 4096, true),
      false, halted);
    PathsGrow(lo, idx + 1, n);
    PaidShort(a.s, c.s, zone, a.own.Keys, c.own.Keys, Paths(lo, idx + 1), Paths(lo, n), halted);
  }

  predicate PageMissing(pages: PageMap, j: nat)
  {
    j * 4096 !in pages || !pages[j * 4096].present
  }

  /** The kernel maps nothing, and has no page table, at any of the pages. */
  ghost predicate Room(ram: Ram, cr3: nat, lo: nat, n: nat)
  {
    forall va :: 0 <= va < VADDR_LIMIT && lo <= va / 4096 < lo + n ==>
      NoLargePage(ram, cr3, va) && Open(ram, cr3, NodeAt(va, 3))
  }

  /** The first `n` pages of the object are mapped at `lo` onwards. */
  ghost predicate AllMapped(ram: Ram, own: Tree, pages: PageMap, lo: nat, n: nat, flags: nat)
  {
    forall j :: 0 <= j < n ==> !PageMissing(pages, j) && PageMapped(ram, own, lo + j, pages[j * 4096].paddr, flags)
  }

  /** An address-space operation: only its own tables and pages that were Free are written. */
  ghost predicate SpaceStep(s: States, ram: Ram, kernel: set<nat>, own: Tree, s': States, ram': Ram, own': Tree)
  {
    && Preserves(s, ram, s', ram', TreeFrames(own))
    && NewTablesWereFree(s, own, own')
    && KernelUntouched(ram, ram', kernel)
    && (forall n :: n in own ==> n in own' && own'[n] == own[n])
  }

  lemma SpaceStepRefl(s: States, ram: Ram, cr3: nat, kernel: set<nat>, own: Tree, lo: nat, hi: nat)
    requires SpaceOk(s, ram, cr3, kernel, own)
    ensures SpaceStep(s, ram, kernel, own, s, ram, own) && KeptOutside(ram, own, lo, hi, ram, own)
  {
    hide Walk, NodeAt, TreeFrames;
  }

  lemma SpaceStepTrans(s0: States, r0: Ram, kernel: set<nat>, own0: Tree, s1: States, r1: Ram, own1: Tree, s2: States,
      r2: Ram, own2: Tree)
    requires SpaceStep(s0, r0, kernel, own0, s1, r1, own1) && SpaceStep(s1, r1, kernel, own1, s2, r2, own2)
    ensures SpaceStep(s0, r0, kernel, own0, s2, r2, own2)
  {
    forall q | q in TreeFrames(own1)
      ensures q in TreeFrames(own0) || (q in s0 && s0[q] == Free)
    {
      var n :| n in own1 && own1[n] == q;
      assert n in own0 ==> own0[n] == q;
    }
    PreservesTrans(s0, r0, s1, r1, s2, r2, TreeFrames(own0), TreeFrames(own1));
    forall n | n in own2 && n !in own0
      ensures own2[n] in s0 && s0[own2[n]] == Free
    {
      if n !in own1 {
        assert s1[own2[n]] == Free;
      }
    }
  }

  lemma RoomStays(s0: States, ram0: Ram, cr3: nat, kernel: set<nat>, own0: Tree, s: States, ram: Ram, own: Tree,
      lo: nat, n: nat, idx: nat, va: nat)
    requires SpaceOk(s0, ram0, cr3, kernel, own0) && SpaceStep(s0, ram0, kernel, own0, s, ram, own)
    requires Room(ram0, cr3, lo, n) && idx < n && va < VADDR_LIMIT && va / 4096 == lo + idx
    ensures Open(ram, cr3, NodeAt(va, 2)) && !LargePage(ram, cr3, va) && Open(ram, cr3, NodeAt(va, 3))
  {
    hide KTable, KEntry, Word, Index, Present, Large, EntryOk, Open, NodeAt, TreeFrames;
    assert NoLargePage(ram0, cr3, va) && Open(ram0, cr3, NodeAt(va, 3));
    KernelSameAll(ram0, ram, cr3, kernel);
  }

  lemma VmoPage(s: States, ram: Ram, cr3: nat, kernel: set<nat>, own: Tree, pages: PageMap, k: nat)
    requires SpaceOk(s, ram, cr3, kernel, own) && Backed(ram, s, pages) && k in pages
    ensures pages[k].present && pages[k].paddr % 4096 == 0 && pages[k].paddr < PADDR_LIMIT
  {
    hide TreeOk;
  }

  /** A mapping step leaves an object alone whose pages are not tables. */
  lemma MapStep(s0: States, r0: Ram, kernel: set<nat>, own0: Tree, s1: States, r1: Ram, own1: Tree, s2: States,
      r2: Ram, own2: Tree, pages: PageMap)
    requires SpaceStep(s0, r0, kernel, own0, s1, r1, own1) && SpaceStep(s1, r1, kernel, own1, s2, r2, own2)
    requires Backed(r0, s0, pages) && Backed(r1, s1, pages) && Outside(pages, TreeFrames(own0))
    ensures SpaceStep(s0, r0, kernel, own0, s2, r2, own2)
    ensures Backed(r2, s2, pages) && Outside(pages, TreeFrames(own2)) && s2.Keys == s0.Keys && r2.Keys == r0.Keys
  {
    SpaceStepTrans(s0, r0, kernel, own0, s1, r1, own1, s2, r2, own2);
    VmoOutside(s0, r0, kernel, own0, s1, r1, own1, pages);
    VmoOutside(s0, r0, kernel, own0, s2, r2, own2, pages);
    FramesStay(s1, r1, s2, r2, TreeFrames(own1), pages);
  }

  lemma VmoOutside(s0: States, r0: Ram, kernel: set<nat>, own0: Tree, s: States, r: Ram, own: Tree, pages: PageMap)
    requires SpaceStep(s0, r0, kernel, own0, s, r, own) && Backed(r0, s0, pages) && Outside(pages, TreeFrames(own0))
    ensures Outside(pages, TreeFrames(own))
  {
    forall k | k in pages
      ensures pages[k].paddr !in TreeFrames(own)
    {
      forall n | n in own
        ensures own[n] != pages[k].paddr
      {
        if n in own0 {
          assert own0[n] in TreeFrames(own0);
        }
      }
    }
  }

  lemma AllMappedStep(r1: Ram, own1: Tree, r2: Ram, own2: Tree, pages: PageMap, lo: nat, idx: nat, flags: nat)
    requires AllMapped(r1, own1, pages, lo, idx, flags) && KeptOutside(r1, own1, lo + idx, lo + idx + 1, r2, own2)
    requires !PageMissing(pages, idx) && PageMapped(r2, own2, lo + idx, pages[idx * 4096].paddr, flags)
    ensures AllMapped(r2, own2, pages, lo, idx + 1, flags)
  {
    hide KeptOutside, PageMapped;
    forall j | 0 <= j < idx + 1
      ensures !PageMissing(pages, j) && PageMapped(r2, own2, lo + j, pages[j * 4096].paddr, flags)
    {
      if j < idx {
        assert !PageMissing(pages, j);
        PageStays(r1, own1, r2, own2, lo + idx, lo + idx + 1, lo + j, pages[j * 4096].paddr, flags);
      }
    }
  }

  lemma FreshRoot(states: States, ram: Ram, cr3: nat, kernel: set<nat>, p: nat)
    requires KernelEnv(states, ram, cr3, kernel) && p in states && states[p] == Free
    ensures p in ram && p !in kernel && cr3 in ram && cr3 in kernel && p % 4096 == 0 && p < PADDR_LIMIT
  {
    assert KTable(ram, cr3, Root) == Some(cr3);
  }

  lemma RootIsCopy(states: States, ram: Ram, cr3: nat, kernel: set<nat>, p: nat, ram': Ram)
    requires KernelEnv(states, ram, cr3, kernel) && p in states && states[p] == Free
    requires p in ram && p !in kernel && cr3 in ram && cr3 in kernel && p % 4096 == 0 && p < PADDR_LIMIT
    requires ram'.Keys == ram.Keys && forall q :: q in ram && q != p ==> ram'[q] == ram[q]
    requires forall i :: 0 <= i < 512 ==> Word(ram'[p], i) == Word(ram[cr3], i)
    ensures SpaceOk(states[p := Allocated], ram', cr3, kernel, map[Root := p])
    ensures Preserves(states, ram, states[p := Allocated], ram', {})
    ensures forall va :: Walk(ram', p, va) == Walk(ram', cr3, va)
  {
    hide Word;
    var own: Tree := map[Root := p];
    KernelSameAll(ram, ram', cr3, kernel);
    forall va
      ensures Walk(ram', p, va) == Walk(ram', cr3, va)
    {
      assert Word(ram'[p], Index(va, 0)) == Word(ram'[cr3], Index(va, 0));
    }
    forall n, i | n in own && !n.Pt? && 0 <= i < 512
      ensures EntryOk(ram', cr3, own, n, i)
    {
      assert KTable(ram', cr3, Root) == Some(cr3);
    }
  }

  ghost predicate NewTablesWereFree(s: States, own: Tree, own': Tree)
  {
    forall n :: n in own' && n !in own ==> own'[n] in s && s[own'[n]] == Free
  }

  /** What the code reads on the kernel's side of the walk. */
  lemma KernelEntries(states: States, ram: Ram, cr3: nat, kernel: set<nat>, own: Tree, va: nat)
    requires SpaceOk(states, ram, cr3, kernel, own)
    ensures cr3 in ram && Root in own && InRange(Root) &&
      Word(ram[cr3], Index(va, 0)) == KEntry(ram, cr3, Root, Index(va, 0))
    ensures var e := KEntry(ram, cr3, Root, Index(va, 0));
      && (Present(e) ==> Base(e) in ram)
      && KEntry(ram, cr3, Pdp(Index(va, 0)), Index(va, 1)) == if Present(e) then Word(ram[Base(e)], Index(va, 1)) else 0
    ensures Open(ram, cr3, Pdp(Index(va, 0)))
    ensures NodeAt(va, 1) == Pdp(Index(va, 0)) && NodeAt(va, 2) == Pd(Index(va, 0), Index(va, 1))
  {
    hide Present, Base, Word, Index, EntryOk;
    assert KTable(ram, cr3, Root) == Some(cr3);
    assert KTable(ram, cr3, Pdp(Index(va, 0))).Some? ==> KTable(ram, cr3, Pdp(Index(va, 0))).value in kernel;
  }

  /** Growing the tree leaves the kernel's tables, and so every condition on them, unchanged. */
  lemma GrewStable(s0: States, ram0: Ram, cr3: nat, kernel: set<nat>, own0: Tree, va: nat, s: States, ram: Ram,
      own: Tree)
    requires SpaceOk(s0, ram0, cr3, kernel, own0) && SpaceOk(s, ram, cr3, kernel, own)
    requires SpaceGrew(s0, ram0, kernel, own0, va, s, ram, own)
    ensures SpaceStep(s0, ram0, kernel, own0, s, ram, own) && KernelUntouched(ram0, ram, kernel)
    ensures KeptOutside(ram0, own0, 0, 0, ram, own)
    ensures NoLargePage(ram, cr3, va) <==> NoLargePage(ram0, cr3, va)
    ensures Open(ram, cr3, NodeAt(va, 2)) <==> Open(ram0, cr3, NodeAt(va, 2))
    ensures Open(ram, cr3, NodeAt(va, 3)) <==> Open(ram0, cr3, NodeAt(va, 3))
    ensures KEntry(ram, cr3, NodeAt(va, 2), Index(va, 2)) == KEntry(ram0, cr3, NodeAt(va, 2), Index(va, 2))
    ensures ram.Keys == ram0.Keys
  {
    hide KTable, KEntry, Index, TreeOk, Open, KeptOutside, NoLargePage, NodeAt;
    GrewKernel(ram0, cr3, kernel, own0, va, ram, own);
    GrewKept(ram0, cr3, kernel, own0, va, ram, own);
  }

  lemma GrewKernel(ram0: Ram, cr3: nat, kernel: set<nat>, own0: Tree, va: nat, ram: Ram, own: Tree)
    requires TreeOk(ram0, cr3, kernel, own0) && Grew(ram0, kernel, own0, va, ram, own)
    ensures NoLargePage(ram, cr3, va) <==> NoLargePage(ram0, cr3, va)
    ensures Open(ram, cr3, NodeAt(va, 2)) <==> Open(ram0, cr3, NodeAt(va, 2))
    ensures Open(ram, cr3, NodeAt(va, 3)) <==> Open(ram0, cr3, NodeAt(va, 3))
    ensures KEntry(ram, cr3, NodeAt(va, 2), Index(va, 2)) == KEntry(ram0, cr3, NodeAt(va, 2), Index(va, 2))
  {
    hide KTable, KEntry, Word, Index, Present, Large, EntryOk, Open, Walk, NodeAt;
    KernelSameAll(ram0, ram, cr3, kernel);
  }

  lemma TargetInRam(states: States, ram: Ram, cr3: nat, kernel: set<nat>, own: Tree, va: nat)
    requires SpaceOk(states, ram, cr3, kernel, own) && Open(ram, cr3, NodeAt(va, 2))
    ensures NodeAt(va, 3) in own ==> own[NodeAt(va, 3)] in ram
    ensures !Open(ram, cr3, NodeAt(va, 3)) && !LargePage(ram, cr3, va) ==>
      && KTable(ram, cr3, NodeAt(va, 3)) == Some(Base(KEntry(ram, cr3, NodeAt(va, 2), Index(va, 2))))
      && Base(KEntry(ram, cr3, NodeAt(va, 2), Index(va, 2))) in kernel
      && Base(KEntry(ram, cr3, NodeAt(va, 2), Index(va, 2))) in ram
  {
    hide Present, Large, Base, Word, Index, EntryOk, KEntry;
    assert Parent(NodeAt(va, 3)) == NodeAt(va, 2) && LastIndex(NodeAt(va, 3)) == Index(va, 2);
  }

  lemma MapDone(s0: States, ram0: Ram, cr3: nat, kernel: set<nat>, own0: Tree, va: nat, paddr: nat, flags: nat,
                s: States, ram: Ram, own: Tree, ram': Ram)
    requires SpaceOk(s0, ram0, cr3, kernel, own0) && SpaceOk(s, ram, cr3, kernel, own) && NodeAt(va, 3) in own &&
      va < VADDR_LIMIT
    requires SpaceGrew(s0, ram0, kernel, own0, va, s, ram, own)
    requires paddr % 4096 == 0 && paddr < PADDR_LIMIT && own[NodeAt(va, 3)] in ram && Pte(paddr, flags) < WORD_LIMIT
    requires ram' == ram[own[NodeAt(va, 3)] := SetWord(ram[own[NodeAt(va, 3)]], Index(va, 3), Pte(paddr, flags))]
    ensures SpaceOk(s, ram', cr3, kernel, own)
    ensures SpaceStep(s0, ram0, kernel, own0, s, ram', own)
    ensures PageMapped(ram', own, va / 4096, paddr, flags)
    ensures KeptOutside(ram0, own0, va / 4096, va / 4096 + 1, ram', own)
  {
    hide KTable, KEntry, Word, SetWord, Index, KeptOutside, PageMapped, Pte, TreeOk, SpaceStep, Preserves, Grew, NodeAt;
    PteEffect(ram, cr3, kernel, own, va, paddr, flags, ram');
    GrewKept(ram0, cr3, kernel, own0, va, ram, own);
    KeptTrans(ram0, own0, 0, 0, ram, own, va / 4096, va / 4096 + 1, ram', own, va / 4096, va / 4096 + 1);
    ShapeOf(ram, cr3, kernel, own);
    StorePreserves(s0, ram0, kernel, own0, va, s, ram, own, NodeAt(va, 3), ram');
  }

  /** A store into a private table is covered by the frame of the growth before it. */
  lemma StorePreserves(s0: States, ram0: Ram, kernel: set<nat>, own0: Tree, va: nat, s: States, ram: Ram, own: Tree,
      n: Node, ram': Ram)
    requires SpaceGrew(s0, ram0, kernel, own0, va, s, ram, own) && n in own && own[n] !in kernel
    requires ram'.Keys == ram.Keys && forall q :: q in ram && q != own[n] ==> ram'[q] == ram[q]
    ensures SpaceStep(s0, ram0, kernel, own0, s, ram', own)
  {
    hide Empty, NodeAt;
    if n in own0 {
      assert own0[n] in TreeFrames(own0);
    }
  }

  lemma NothingGrew(states: States, ram: Ram, kernel: set<nat>, own: Tree, va: nat)
    ensures SpaceGrew(states, ram, kernel, own, va, states, ram, own)
  {
  }

  lemma FilledTable(ram: Ram, cr3: nat, kernelEntry: nat, c: Node, f: Frame, va: nat)
    requires InRange(c) && (c.Pdp? || c.Pd?)
    requires KTable(ram, cr3, c) == if Present(kernelEntry) then Some(Base(kernelEntry)) else None
    requires if Present(kernelEntry) then
        Base(kernelEntry) in ram && forall j :: 0 <= j < 512 ==>
          Word(f, j) == Shared(false, Word(ram[Base(kernelEntry)], j))
      else Empty(f)
    ensures ReadyTable(ram, cr3, c, f, va)
  {
    ZeroNotPresent();
    hide KTable, Present, OrUser, Word, Base;
  }

  lemma LinkedTable(ram: Ram, own: Tree, n: Node, i: nat, p: nat, filled: Ram, ram': Ram, own': Tree)
    requires n in own && !n.Pt? && i < 512 && own[n] in ram && p != own[n] && TableEntry(p) < WORD_LIMIT
    requires filled.Keys == ram.Keys && forall q :: q in filled && q != p ==> filled[q] == ram[q]
    requires ram' == filled[own[n] := SetWord(filled[own[n]], i, TableEntry(p))]
    requires own' == own[Child(n, i) := p]
    ensures Installed(ram, own, n, i, p, ram', own')
    ensures p in ram ==> ram'[p] == filled[p]
  {
    hide Word, SetWord, TableEntry;
  }
}
