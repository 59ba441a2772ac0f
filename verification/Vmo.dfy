/** Virtual memory objects (src/object/vmo.rs): sparse byte ranges backed page by page with
    user-zone frames. Every operation says which frames it may touch, so that isolation of
    one object from everything else in memory follows from the page allocator alone. */
module VmoObject {
  import opened Memory
  import opened Pmm

  datatype PageMapEntry = PageMapEntry(paddr: nat, present: bool, writable: bool)

  /** Page-aligned offset to backing page. */
  type PageMap = map<nat, PageMapEntry>

  const RESIZABLE: bv32 := 1

  function Key(k: nat): nat
  {
    k / 4096 * 4096
  }

  function PageCount(size: nat): (n: nat)
    ensures size <= n * 4096 < size + 4096
  {
    (size + 4095) / 4096
  }

  function RoundUp(n: nat): (r: nat)
    ensures r % 4096 == 0 && n <= r < n + 4096
  {
    (n + 4095) / 4096 * 4096
  }

  ghost function Frames(pages: PageMap): set<nat>
  {
    set k | k in pages :: pages[k].paddr
  }

  /** Every entry is an allocated frame of its own. */
  ghost predicate Backed(ram: Ram, states: States, pages: PageMap)
  {
    && (forall k :: k in pages ==>
          && k % 4096 == 0
          && pages[k].present && pages[k].writable
          && pages[k].paddr in ram
          && pages[k].paddr in states
          && states[pages[k].paddr] == Allocated)
    && (forall k, l :: k in pages && l in pages && k != l ==> pages[k].paddr != pages[l].paddr)
  }

  /** The byte an object holds at `k`: unbacked pages read as zero. */
  function ByteAt(ram: Ram, pages: PageMap, k: nat): byte
  {
    if Key(k) in pages && pages[Key(k)].paddr in ram then ram[pages[Key(k)].paddr][k % 4096] else 0
  }

  /** No page of the object lies in `frames`. */
  ghost predicate Outside(pages: PageMap, frames: set<nat>)
  {
    forall k :: k in pages ==> pages[k].paddr !in frames
  }

  /** A step that touches none of an object's frames leaves it backed by the same bytes. */
  lemma FramesStay(s: States, ram: Ram, s': States, ram': Ram, touched: set<nat>, pages: PageMap)
    requires Preserves(s, ram, s', ram', touched) && Backed(ram, s, pages) && Outside(pages, touched)
    ensures Backed(ram', s', pages)
    ensures forall k :: k in pages ==> ram'[pages[k].paddr] == ram[pages[k].paddr]
  {
  }

  lemma GrownRefl(states: States, pages: PageMap)
    ensures Grown(states, pages, pages)
  {
  }

  /** What `Write` does. It stores the part of the data below `size` and changes no other
      byte of memory that anyone owns. */
  ghost predicate WriteEffect(s: States, ram: Ram, size: nat, pages: PageMap, offset: nat, data: seq<byte>,
      r: Outcome<nat>, s': States, ram': Ram, pages': PageMap)
  {
    && Preserves(s, ram, s', ram', Frames(pages))
    && Grown(s, pages, pages')
    && (forall k :: k in pages' ==> k in pages || Touches(offset, |data|, k))
    && (offset >= size ==> r == Err("offset out of bounds") && pages' == pages && ram' == ram && s' == s)
    && (offset < size ==> !r.Err?)
    && (r.Halt? ==> ram' == ram)
    && (r.Ok? ==>
          && offset < size && r.value == Min(|data|, size - offset)
          && (forall k :: k in pages' <==> k in pages || Touches(offset, r.value, k))
          && Stored(ram, ram', pages', offset, data[..r.value]))
  }

  /** What `Clone` does when it succeeds. */
  ghost predicate CloneEffect(s: States, ram: Ram, parent: PageMap, s': States, ram': Ram, child: PageMap)
  {
    && Preserves(s, ram, s', ram', {})
    && Grown(s, map[], child)
    && child.Keys == parent.Keys
    && (forall k :: ByteAt(ram', child, k) == ByteAt(ram, parent, k))
  }

  /** Allocating pages and then storing into the object is one preserving step. */
  lemma WritePreserves(s0: States, s1: States, ram: Ram, ram': Ram, pages0: PageMap, pages: PageMap, offset: nat,
      data: seq<byte>)
    requires Preserves(s0, ram, s1, ram, {}) && Grown(s0, pages0, pages)
    requires Stored(ram, ram', pages, offset, data)
    ensures Preserves(s0, ram, s1, ram', Frames(pages0))
  {
    forall q | q in Frames(pages)
      ensures q in Frames(pages0) || (q in s0 && s0[q] == Free)
    {
      var k :| k in pages && pages[k].paddr == q;
    }
  }

  /** Backing one more page of an object with a page just allocated. */
  lemma PageAdded(ram: Ram, s0: States, s: States, pages0: PageMap, pages: PageMap, key: nat, p: nat)
    requires Backed(ram, s, pages) && Preserves(s0, ram, s, ram, {}) && Grown(s0, pages0, pages)
    requires key % 4096 == 0 && key !in pages && p in s && s[p] == Free && p in ram
    ensures var pages' := pages[key := PageMapEntry(p, true, true)];
      Backed(ram, s[p := Allocated], pages') && Preserves(s0, ram, s[p := Allocated], ram, {}) &&
        Grown(s0, pages0, pages')
  {
    assert p in s0 && s0[p] == Free;
  }

  /** What a walk that stopped at a page boundary has touched lies below it. */
  lemma TouchedBelow(offset: nat, d: nat, k: nat)
    requires Touches(offset, d, k) && (offset + d) % 4096 == 0
    ensures k < Key(offset + d)
  {
  }

  /** The pages a write of `n` bytes has to get. */
  ghost function WriteNeed(pages: PageMap, size: nat, offset: nat, n: nat): nat
  {
    if offset < size then |Missing(pages, offset, Min(n, size - offset))| else 0
  }

  /** The pages of a range that have no backing. */
  ghost function Missing(pages: PageMap, offset: nat, n: nat): set<nat>
  {
    set k: nat | k < offset + n && Touches(offset, n, k) && k !in pages
  }

  /** What an append to an object that is backed up to `n` has to get. */
  lemma AppendNeed(pages: PageMap, n: nat, c: nat)
    requires c > 0 && forall k: nat :: k in pages <==> k % 4096 == 0 && k < n
    ensures PageCount(n) <= PageCount(n + c) && |Missing(pages, n, c)| == PageCount(n + c) - PageCount(n)
  {
    var a, b := PageCount(n), PageCount(n + c);
    forall k: nat
      ensures k in Missing(pages, n, c) <==> k in Multiples(a, b)
    {
      if k % 4096 == 0 {
        FirstAtOrAbove(n, k);
        FirstAtOrAbove(n + c, k);
      }
    }
    assert Missing(pages, n, c) == Multiples(a, b);
    MultiplesSize(a, b);
  }

  lemma FirstAtOrAbove(n: nat, k: nat)
    requires k % 4096 == 0
    ensures k >= n <==> k >= PageCount(n) * 4096
  {
  }

  ghost function Multiples(a: nat, b: nat): set<nat>
  {
    set k: nat | k < b * 4096 && a * 4096 <= k && k % 4096 == 0
  }

  lemma {:induction false} MultiplesSize(a: nat, b: nat)
    requires a <= b
    ensures |Multiples(a, b)| == b - a
    decreases b
  {
    if a == b {
      assert Multiples(a, b) == {};
    } else {
      MultiplesSize(a, b - 1);
      assert Multiples(a, b) == Multiples(a, b - 1) + {(b - 1) * 4096};
    }
  }

  lemma {:induction false} AscendingSize(s: seq<nat>, t: set<nat>)
    requires forall i, j :: 0 <= i < j < |s| ==> s[i] < s[j]
    requires forall k :: k in s <==> k in t
    ensures |t| == |s|
  {
    if s != [] {
      var n := |s| - 1;
      assert s == s[..n] + [s[n]];
      AscendingSize(s[..n], t - {s[n]});
    }
  }

  /** `k` is a page that the bytes `offset .. offset + n` reach. */
  predicate Touches(offset: nat, n: nat, k: nat)
  {
    n > 0 && k % 4096 == 0 && k < offset + n && offset < k + 4096
  }

  /** `ram` is `ram0` with `data` stored at `offset` of the object, and nothing else. */
  ghost predicate Stored(ram0: Ram, ram: Ram, pages: PageMap, offset: nat, data: seq<byte>)
  {
    && ram.Keys == ram0.Keys
    && (forall q :: q in ram && q !in Frames(pages) ==> ram[q] == ram0[q])
    && (forall k, b :: k in pages && pages[k].paddr in ram && 0 <= b < 4096 ==>
          ram[pages[k].paddr][b] == if offset <= k + b < offset + |data| then data[k + b - offset]
            else ram0[pages[k].paddr][b])
  }

  /** Length of the part of a page-wise walk that starts at byte `at` with `left` bytes to go. */
  function Chunk(at: nat, left: nat): (c: nat)
    requires left > 0
    ensures 0 < c <= left && at % 4096 + c <= 4096
    ensures c == left || (at + c) % 4096 == 0
  {
    Min(left, 4096 - at % 4096)
  }

  /** One chunk of the walk reaches exactly one more page. */
  lemma TouchStep(offset: nat, d: nat, left: nat, k: nat)
    requires left > 0 && (d == 0 || (offset + d) % 4096 == 0)
    ensures Touches(offset, d + Chunk(offset + d, left), k) <==> Touches(offset, d, k) || k == Key(offset + d)
    ensures Touches(offset, d, k) ==> k < Key(offset + d)
  {
    var at, c, m := offset + d, Chunk(offset + d, left), k / 4096;
    if k % 4096 == 0 {
      assert k == m * 4096;
      assert k < at + c <==> k <= Key(at);
      assert d > 0 ==> Key(at) == at;
    }
  }

  lemma FrameOf(pages: PageMap, k: nat)
    requires k in pages
    ensures pages[k].paddr in Frames(pages)
  {
  }

  lemma ChunkStored(ram0: Ram, ram: Ram, pages: PageMap, offset: nat, data: seq<byte>, d: nat)
    requires d < |data|
    requires forall k, l :: k in pages && l in pages && k != l ==> pages[k].paddr != pages[l].paddr
    requires forall k :: k in pages ==> k % 4096 == 0
    requires Stored(ram0, ram, pages, offset, data[..d])
    requires Key(offset + d) in pages && pages[Key(offset + d)].paddr in ram
    ensures var at, c := offset + d, Chunk(offset + d, |data| - d);
      var p := pages[Key(at)].paddr;
      Stored(ram0, ram[p := Splice(ram[p], at % 4096, data[d..d + c])], pages, offset, data[..d + c])
  {
    hide Splice, Chunk, Key, Frames;
    var at, c := offset + d, Chunk(offset + d, |data| - d);
    var p := pages[Key(at)].paddr;
    var ram' := ram[p := Splice(ram[p], at % 4096, data[d..d + c])];
    FrameOf(pages, Key(at));
    forall k, b | k in pages && pages[k].paddr in ram' && 0 <= b < 4096
      ensures ram'[pages[k].paddr][b] ==
        if offset <= k + b < offset + |data[..d + c]| then data[..d + c][k + b - offset] else ram0[pages[k].paddr][b]
    {
      assert ram[pages[k].paddr][b] == if offset <= k + b < offset + d then data[..d][k + b - offset]
        else ram0[pages[k].paddr][b];
      if k != Key(at) {
        assert ram'[pages[k].paddr] == ram[pages[k].paddr];
        OtherPage(at, c, k, b);
      } else {
        OwnPage(at, k, b);
      }
      ChunkByte(data, d, c, k + b - offset);
    }
  }

  lemma ChunkByte(data: seq<byte>, d: nat, c: nat, i: int)
    requires d + c <= |data|
    ensures 0 <= i < d ==> data[..d][i] == data[..d + c][i] == data[i]
    ensures d <= i < d + c ==> data[..d + c][i] == data[d..d + c][i - d] == data[i]
  {
  }

  lemma OwnPage(at: nat, k: nat, b: nat)
    requires k == Key(at)
    ensures k + b == at - at % 4096 + b
  {
  }

  /** A store seen byte by byte. */
  lemma StoredByte(ram: Ram, ram': Ram, pages: PageMap, pages': PageMap, offset: nat, data: seq<byte>, k: nat)
    requires Stored(ram, ram', pages', offset, data) && (Key(k) in pages' ==> pages'[Key(k)].paddr in ram')
    requires Key(k) in pages ==> Key(k) in pages' && pages[Key(k)] == pages'[Key(k)]
    ensures offset <= k < offset + |data| && Key(k) in pages' ==> ByteAt(ram', pages', k) == data[k - offset]
    ensures !(offset <= k < offset + |data|) && Key(k) in pages ==> ByteAt(ram', pages', k) == ByteAt(ram, pages, k)
    ensures Key(k) !in pages' ==> ByteAt(ram', pages', k) == 0 == ByteAt(ram, pages, k)
  {
    assert Key(k) + k % 4096 == k;
  }

  lemma StoredNothing(ram: Ram, pages: PageMap, offset: nat)
    ensures Stored(ram, ram, pages, offset, [])
  {
  }

  /** What there is to know of a page of a backed object. */
  lemma BackedPage(ram: Ram, states: States, pages: PageMap, k: nat)
    requires Backed(ram, states, pages) && k in pages
    ensures pages[k].present && pages[k].paddr in ram && pages[k].paddr in states && states[pages[k].paddr] == Allocated
    ensures forall l :: l in pages ==> l % 4096 == 0
    ensures forall l, m :: l in pages && m in pages && l != m ==> pages[l].paddr != pages[m].paddr
  {
  }

  lemma StoreKeepsBacked(ram: Ram, states: States, pages: PageMap, k: nat, f: Frame)
    requires Backed(ram, states, pages) && k in pages
    ensures Backed(ram[pages[k].paddr := f], states, pages)
  {
  }

  lemma OtherPage(at: nat, c: nat, k: nat, b: nat)
    requires k % 4096 == 0 && k != Key(at) && b < 4096 && at % 4096 + c <= 4096
    ensures !(at <= k + b < at + c)
  {
  }

  class Vmo {
    const phys: PhysMem
    const pmm: Manager
    const flags: bv32
    var size: nat
    var pages: PageMap

    ghost predicate Valid()
      reads this, phys, pmm
    {
      && pmm.Valid()
      && pmm.states.Keys <= phys.ram.Keys
      && Backed(phys.ram, pmm.states, pages)
      && size % 4096 == 0
    }

    constructor (phys: PhysMem, pmm: Manager, size: nat, flags: bv32)
      ensures this.phys == phys && this.pmm == pmm && this.flags == flags
      ensures this.size == RoundUp(size) && pages == map[]
    {
      this.phys, this.pmm, this.flags := phys, pmm, flags;
      this.size := RoundUp(size);
      pages := map[];
    }

    static method Create(phys: PhysMem, pmm: Manager, size: nat, flags: bv32) returns (r: Outcome<Vmo>)
      ensures size == 0 ==> r == Err("size cannot be zero")
      ensures size > 0 ==>
        && r.Ok? && fresh(r.value)
        && r.value.phys == phys && r.value.pmm == pmm && r.value.flags == flags
        && r.value.size == RoundUp(size) && r.value.pages == map[]
    {
      if size == 0 {
        return Err("size cannot be zero");
      }
      var vmo := new Vmo(phys, pmm, size, flags);
      return Ok(vmo);
    }

    /** Changes the size only; the page map is left as it is, also when shrinking. */
    method Resize(newSize: nat) returns (r: Outcome<()>)
      requires Valid()
      modifies this`size
      ensures Valid()
      ensures flags & RESIZABLE == 0 ==> r == Err("VMO not resizable") && size == old(size)
      ensures flags & RESIZABLE != 0 ==> r == Ok(()) && size == RoundUp(newSize)
    {
      if flags & RESIZABLE == 0 {
        return Err("VMO not resizable");
      }
      size := RoundUp(newSize);
      return Ok(());
    }

    /** Stores the part of `data` that fits below `size`, and changes no other byte of memory
        that anyone owns. */
    method Write(offset: nat, data: seq<byte>) returns (r: Outcome<nat>)
      requires Valid()
      modifies this`pages, phys, pmm`arenas, pmm`states
      ensures Valid()
      ensures WriteEffect(old(pmm.states), old(phys.ram), size, old(pages), offset, data, r, pmm.states, phys.ram,
        pages)
      ensures Charged(old(pmm.states), pmm.states, Zone(pmm.home, PMM_ALLOC_FLAG_USER),
        WriteNeed(old(pages), size, offset, |data|), r.Halt?)
    {
      hide Represents, ArenasOk, Homes, Backed, Preserves, Stored, Frames, Grown, Charged, Zone, Missing;
      PreservesRefl(pmm.states, phys.ram);
      GrownRefl(pmm.states, pages);
      ChargedNothing(pmm.states, Zone(pmm.home, PMM_ALLOC_FLAG_USER));
      if offset >= size {
        return Err("offset out of bounds");
      }
      var end := Min(offset + |data|, size);
      var toWrite := data[..end - offset];
      var missing := MissingPages(offset, |toWrite|);
      var halted := AddPages(missing);
      PreservesWeaken(old(pmm.states), phys.ram, pmm.states, phys.ram, Frames(old(pages)));
      if halted {
        return Halt;
      }
      ghost var states, ram := pmm.states, phys.ram;
      StorePages(offset, toWrite);
      WritePreserves(old(pmm.states), states, ram, phys.ram, old(pages), pages, offset, toWrite);
      return Ok(|toWrite|);
    }

    /** First pass: the pages of the range that have no backing yet, in order. */
    method MissingPages(offset: nat, n: nat) returns (missing: seq<nat>)
      ensures forall i, j :: 0 <= i < j < |missing| ==> missing[i] < missing[j]
      ensures forall k :: k in missing <==> Touches(offset, n, k) && k !in pages
      ensures |missing| == |Missing(pages, offset, n)|
    {
      missing := [];
      var d := 0;
      while d < n
        invariant d <= n && (d == n || d == 0 || (offset + d) % 4096 == 0)
        invariant forall i, j :: 0 <= i < j < |missing| ==> missing[i] < missing[j]
        invariant forall k :: k in missing <==> Touches(offset, d, k) && k !in pages
      {
        forall k: nat {
          TouchStep(offset, d, n - d, k);
        }
        var key := Key(offset + d);
        if key !in pages {
          forall i | 0 <= i < |missing|
            ensures missing[i] < key
          {
            assert missing[i] in missing;
            TouchedBelow(offset, d, missing[i]);
          }
          missing := missing + [key];
        }
        d := d + Chunk(offset + d, n - d);
      }
      AscendingSize(missing, Missing(pages, offset, n));
    }

    /** Second pass: one user-zone page for each missing key. */
    method AddPages(missing: seq<nat>) returns (halted: bool)
      requires Valid()
      requires forall i, j :: 0 <= i < j < |missing| ==> missing[i] < missing[j]
      requires forall k :: k in missing ==> k % 4096 == 0 && k !in pages
      modifies this`pages, pmm`arenas, pmm`states
      ensures Valid()
      ensures Preserves(old(pmm.states), phys.ram, pmm.states, phys.ram, {})
      ensures Grown(old(pmm.states), old(pages), pages)
      ensures !halted ==> forall k :: k in pages <==> k in old(pages) || k in missing
      ensures forall k :: k in pages ==> k in old(pages) || k in missing
      ensures Charged(old(pmm.states), pmm.states, Zone(pmm.home, PMM_ALLOC_FLAG_USER), |missing|, halted)
    {
      hide Represents, ArenasOk, Homes, Backed, Grown, Preserves, Charged, Zone;
      ghost var user := Zone(pmm.home, PMM_ALLOC_FLAG_USER);
      PreservesRefl(pmm.states, phys.ram);
      GrownRefl(pmm.states, pages);
      ChargedNothing(pmm.states, user);
      for i := 0 to |missing|
        invariant Valid()
        invariant Preserves(old(pmm.states), phys.ram, pmm.states, phys.ram, {})
        invariant Grown(old(pmm.states), old(pages), pages)
        invariant forall k :: k in pages <==> k in old(pages) || k in missing[..i]
        invariant Charged(old(pmm.states), pmm.states, user, i, false)
      {
        ghost var states := pmm.states;
        var got := pmm.AllocPage(PMM_ALLOC_FLAG_USER);
        ChargedTrans(old(pmm.states), states, pmm.states, user, i, 1, got.Spin?);
        if got.Spin? {
          ChargedMore(old(pmm.states), pmm.states, user, i + 1, |missing|);
          return true;
        }
        assert missing[i] in missing && missing[i] !in missing[..i];
        PageAdded(phys.ram, old(pmm.states), states, old(pages), pages, missing[i], got.paddr);
        pages := pages[missing[i] := PageMapEntry(got.paddr, true, true)];
        assert missing[..i + 1] == missing[..i] + [missing[i]];
      }
      assert missing[..|missing|] == missing;
      return false;
    }

    /** Third pass: the page-wise copy. */
    method StorePages(offset: nat, data: seq<byte>)
      requires Valid()
      requires forall k :: Touches(offset, |data|, k) ==> k in pages
      modifies phys
      ensures Valid()
      ensures Stored(old(phys.ram), phys.ram, pages, offset, data)
    {
      hide Represents, ArenasOk, Stored, Backed;
      StoredNothing(phys.ram, pages, offset);
      var d := 0;
      while d < |data|
        invariant d <= |data|
        invariant Valid()
        invariant Stored(old(phys.ram), phys.ram, pages, offset, data[..d])
      {
        var at, c := offset + d, Chunk(offset + d, |data| - d);
        assert Touches(offset, |data|, Key(at));
        var p := pages[Key(at)].paddr;
        BackedPage(phys.ram, pmm.states, pages, Key(at));
        ChunkStored(old(phys.ram), phys.ram, pages, offset, data, d);
        var frame := Splice(phys.ram[p], at % 4096, data[d..d + c]);
        StoreKeepsBacked(phys.ram, pmm.states, pages, Key(at), frame);
        phys.ram := phys.ram[p := frame];
        d := d + c;
      }
      assert data[..|data|] == data;
    }

    /** Fills the front of `buf` with the object's bytes; unbacked pages read as zero. */
    method Read(offset: nat, buf: array<byte>) returns (r: Outcome<nat>)
      requires Valid()
      modifies buf
      ensures offset >= size ==> r == Err("offset out of bounds") && buf[..] == old(buf[..])
      ensures offset < size ==> r == Ok(Min(buf.Length, size - offset))
      ensures r.Ok? ==>
        && (forall i :: 0 <= i < r.value ==> buf[i] == ByteAt(phys.ram, pages, offset + i))
        && (forall i :: r.value <= i < buf.Length ==> buf[i] == old(buf[i]))
    {
      hide Represents, ArenasOk;
      if offset >= size {
        return Err("offset out of bounds");
      }
      var toRead := Min(offset + buf.Length, size) - offset;
      var done := 0;
      while done < toRead
        invariant done <= toRead
        invariant forall i :: 0 <= i < done ==> buf[i] == ByteAt(phys.ram, pages, offset + i)
        invariant forall i :: done <= i < buf.Length ==> buf[i] == old(buf[i])
      {
        var at := offset + done;
        var c := Chunk(at, toRead - done);
        var chunk := if Key(at) in pages
                     then phys.ram[pages[Key(at)].paddr][at % 4096..at % 4096 + c]
                     else seq(c, _ => 0);
        ChunkBytes(phys.ram, pages, at, c, chunk);
        FillBuffer(buf, done, chunk);
        done := done + c;
      }
      return Ok(toRead);
    }

    /** An independent snapshot: fresh frames with the same bytes. An empty object (after a
        resize to zero) cannot be cloned. */
    method Clone() returns (r: Outcome<Vmo>)
      requires Valid()
      modifies phys, pmm`arenas, pmm`states
      ensures Valid()
      ensures Preserves(old(pmm.states), old(phys.ram), pmm.states, phys.ram, {})
      ensures size == 0 ==> r == Err("size cannot be zero")
      ensures size > 0 ==> !r.Err?
      ensures r.Ok? ==>
        && fresh(r.value) && r.value.phys == phys && r.value.pmm == pmm
        && r.value.Valid() && r.value.size == size && r.value.flags == 0
        && CloneEffect(old(pmm.states), old(phys.ram), pages, pmm.states, phys.ram, r.value.pages)
      ensures Charged(old(pmm.states), pmm.states, Zone(pmm.home, PMM_ALLOC_FLAG_USER), if size == 0 then 0
        else |pages.Keys|, r.Halt?)
    {
      hide Represents, ArenasOk, Homes, Backed, Grown, Preserves, ByteAt, CloneSoFar, CloneEffect, Charged, Zone;
      CloneStart(pmm.states, phys.ram, pages);
      ChargedNothing(pmm.states, Zone(pmm.home, PMM_ALLOC_FLAG_USER));
      r := Create(phys, pmm, size, 0);
      if r.Err? {
        return;
      }
      var halted := ClonePages(r.value);
      if halted {
        return Halt;
      }
      CloneReads(old(pmm.states), old(phys.ram), pmm.states, phys.ram, pages, r.value.pages);
    }

    /** The copy loop over all pages of this object. */
    method ClonePages(child: Vmo) returns (halted: bool)
      requires Valid() && child != this && child.phys == phys && child.pmm == pmm && child.pages == map[] &&
        child.size % 4096 == 0
      modifies child`pages, phys, pmm`arenas, pmm`states
      ensures Valid() && child.Valid() && Preserves(old(pmm.states), old(phys.ram), pmm.states, phys.ram, {})
      ensures !halted ==>
        CloneSoFar(old(pmm.states), old(phys.ram), pmm.states, phys.ram, pages, child.pages) &&
          child.pages.Keys == pages.Keys
      ensures Charged(old(pmm.states), pmm.states, Zone(pmm.home, PMM_ALLOC_FLAG_USER), |pages.Keys|, halted)
    {
      hide Represents, ArenasOk, Homes, Backed, Grown, Preserves, CloneSoFar, Charged, Zone, CloneState;
      ghost var user := Zone(pmm.home, PMM_ALLOC_FLAG_USER);
      ghost var s0, r0 := pmm.states, phys.ram;
      CloneStart(s0, r0, pages);
      var todo := pages.Keys;
      CloneBegin(s0, r0, pages, user);
      while todo != {}
        invariant Valid() && child.Valid()
        invariant CloneState(s0, r0, pmm.states, phys.ram, pages, child.pages, todo, user)
        decreases todo
      {
        var k :| k in todo;
        ghost var before, copied := pmm.states, child.pages;
        CloneNext(s0, r0, before, phys.ram, pages, copied, todo, user, k);
        halted := ClonePage(child, k, s0, r0);
        CloneCharge(s0, r0, before, pmm.states, pages, copied, todo, user, k, halted);
        if halted {
          return;
        }
        todo := todo - {k};
        CloneAdvance(s0, r0, pmm.states, phys.ram, pages, copied, child.pages, todo, user, k);
      }
      CloneFinish(s0, r0, pmm.states, phys.ram, pages, child.pages, user);
      return false;
    }

    /** Copies one page of this object into its clone. */
    method ClonePage(child: Vmo, k: nat, ghost s0: States, ghost r0: Ram) returns (halted: bool)
      requires Valid() && child.Valid() && child != this && child.phys == phys && child.pmm == pmm
      requires k in pages && k !in child.pages && Backed(r0, s0, pages)
      requires CloneSoFar(s0, r0, pmm.states, phys.ram, pages, child.pages)
      modifies child`pages, phys, pmm`arenas, pmm`states
      ensures Valid() && child.Valid() && Preserves(s0, r0, pmm.states, phys.ram, {})
      ensures !halted ==>
        CloneSoFar(s0, r0, pmm.states, phys.ram, pages, child.pages) &&
        child.pages.Keys == old(child.pages).Keys + {k}
      ensures Charged(old(pmm.states), pmm.states, Zone(pmm.home, PMM_ALLOC_FLAG_USER), 1, halted)
    {
      hide Represents, ArenasOk, Homes, Backed, Grown, Preserves, CloneSoFar, Charged, Zone;
      ghost var states, ram := pmm.states, phys.ram;
      SoFarPreserves(s0, r0, states, ram, pages, child.pages);
      BackedPage(ram, states, pages, k);
      if pages[k].present {
        var got := pmm.AllocPage(PMM_ALLOC_FLAG_USER);
        if got.Spin? {
          return true;
        }
        PageCloned(s0, r0, states, ram, pages, child.pages, k, got.paddr);
        CopyPage(phys, pages[k].paddr, got.paddr);
        child.pages := child.pages[k := PageMapEntry(got.paddr, true, true)];
        SoFarPreserves(s0, r0, pmm.states, phys.ram, pages, child.pages);
      }
      return false;
    }
  }

  /** The copy loop with `todo` pages left, the others copied and charged. */
  ghost predicate CloneState(s0: States, r0: Ram, s: States, r: Ram, parent: PageMap, child: PageMap, todo: set<nat>,
      zone: set<nat>)
  {
    && CloneSoFar(s0, r0, s, r, parent, child)
    && todo <= parent.Keys && child.Keys == parent.Keys - todo
    && Charged(s0, s, zone, |parent.Keys - todo|, false)
  }

  lemma CloneBegin(s: States, r: Ram, parent: PageMap, zone: set<nat>)
    ensures CloneState(s, r, s, r, parent, map[], parent.Keys, zone)
  {
    ChargedNothing(s, zone);
    assert parent.Keys - parent.Keys == {};
  }

  lemma CloneNext(s0: States, r0: Ram, s: States, r: Ram, parent: PageMap, child: PageMap, todo: set<nat>,
      zone: set<nat>, k: nat)
    requires CloneState(s0, r0, s, r, parent, child, todo, zone) && k in todo
    ensures k in parent && k !in child && CloneSoFar(s0, r0, s, r, parent, child)
    ensures todo <= parent.Keys && child.Keys == parent.Keys - ((todo - {k}) + {k}) &&
      Charged(s0, s, zone, |parent.Keys - todo|, false)
  {
    hide CloneSoFar, Charged;
    assert (todo - {k}) + {k} == todo;
  }

  lemma CloneCharge(s0: States, r0: Ram, s: States, s': States, parent: PageMap, child: PageMap, todo: set<nat>,
      zone: set<nat>, k: nat, halted: bool)
    requires k in todo && todo <= parent.Keys && Charged(s0, s, zone, |parent.Keys - todo|, false) &&
      Charged(s, s', zone, 1, halted)
    ensures Charged(s0, s', zone, |parent.Keys - (todo - {k})|, halted)
    ensures halted ==> Charged(s0, s', zone, |parent.Keys|, true)
  {
    hide Charged;
    assert parent.Keys - (todo - {k}) == (parent.Keys - todo) + {k};
    ChargedTrans(s0, s, s', zone, |parent.Keys - todo|, 1, halted);
    assert parent.Keys == (parent.Keys - (todo - {k})) + (todo - {k});
    if halted {
      ChargedMore(s0, s', zone, |parent.Keys - (todo - {k})|, |parent.Keys|);
    }
  }

  lemma CloneAdvance(s0: States, r0: Ram, s: States, r: Ram, parent: PageMap, child: PageMap, child': PageMap,
      todo: set<nat>, zone: set<nat>, k: nat)
    requires CloneSoFar(s0, r0, s, r, parent, child') && Charged(s0, s, zone, |parent.Keys - todo|, false)
    requires todo <= parent.Keys && k in parent && k !in todo && child.Keys == parent.Keys - (todo + {k}) &&
      child'.Keys == child.Keys + {k}
    ensures CloneState(s0, r0, s, r, parent, child', todo, zone)
  {
    hide CloneSoFar, Charged;
  }

  lemma CloneFinish(s0: States, r0: Ram, s: States, r: Ram, parent: PageMap, child: PageMap, zone: set<nat>)
    requires CloneState(s0, r0, s, r, parent, child, {}, zone)
    ensures CloneSoFar(s0, r0, s, r, parent, child) && child.Keys == parent.Keys &&
      Charged(s0, s, zone, |parent.Keys|, false)
    ensures Preserves(s0, r0, s, r, {})
  {
    assert parent.Keys - {} == parent.Keys;
  }

  /** State of the copy loop: a preserving step so far, and the copied pages hold the parent's bytes. */
  ghost predicate CloneSoFar(s0: States, r0: Ram, s: States, r: Ram, parent: PageMap, child: PageMap)
  {
    && Preserves(s0, r0, s, r, {})
    && Grown(s0, map[], child)
    && (forall k :: k in child ==>
          k in parent && parent[k].paddr in r0 && child[k].paddr in r && r[child[k].paddr] == r0[parent[k].paddr])
  }

  lemma CloneStart(states: States, ram: Ram, pages: PageMap)
    ensures CloneSoFar(states, ram, states, ram, pages, map[]) && Backed(ram, states, map[])
  {
  }

  lemma SoFarPreserves(s0: States, r0: Ram, s: States, r: Ram, parent: PageMap, child: PageMap)
    requires CloneSoFar(s0, r0, s, r, parent, child)
    ensures Preserves(s0, r0, s, r, {})
  {
  }

  lemma PageCloned(s0: States, r0: Ram, s: States, r: Ram, parent: PageMap, child: PageMap, key: nat, p: nat)
    requires Backed(r0, s0, parent) && Backed(r, s, parent) && Backed(r, s, child)
    requires CloneSoFar(s0, r0, s, r, parent, child)
    requires key in parent && key !in child && p in s && s[p] == Free && p in r
    ensures p != parent[key].paddr && parent[key].paddr in r
    ensures Backed(r, s[p := Allocated], parent) && Preserves(s0, r0, s[p := Allocated], r, {})
    ensures var s', r', child' := s[p := Allocated], r[p := r[parent[key].paddr]],
      child[key := PageMapEntry(p, true, true)];
      && Backed(r', s', parent) && Backed(r', s', child')
      && CloneSoFar(s0, r0, s', r', parent, child')
  {
    var q := parent[key].paddr;
    assert q in s0 && s0[q] == Allocated && s[q] == Allocated;
    assert r[q] == r0[q];
    assert p in s0 && s0[p] == Free;
  }

  lemma CloneReads(s0: States, r0: Ram, s: States, r: Ram, parent: PageMap, child: PageMap)
    requires Backed(r0, s0, parent) && CloneSoFar(s0, r0, s, r, parent, child) && child.Keys == parent.Keys
    ensures CloneEffect(s0, r0, parent, s, r, child)
  {
  }

  lemma ChunkBytes(ram: Ram, pages: PageMap, at: nat, c: nat, chunk: seq<byte>)
    requires at % 4096 + c <= 4096
    requires Key(at) in pages ==> pages[Key(at)].paddr in ram
    requires chunk == if Key(at) in pages then ram[pages[Key(at)].paddr][at % 4096..at % 4096 + c] else seq(c, _ => 0)
    ensures |chunk| == c && forall i :: 0 <= i < c ==> chunk[i] == ByteAt(ram, pages, at + i)
  {
    forall i | 0 <= i < c
      ensures chunk[i] == ByteAt(ram, pages, at + i)
    {
      assert Key(at + i) == Key(at) && (at + i) % 4096 == at % 4096 + i;
    }
  }

  method FillBuffer(buf: array<byte>, at: nat, data: seq<byte>)
    requires at + |data| <= buf.Length
    modifies buf
    ensures forall i :: 0 <= i < buf.Length ==> buf[i] == if at <= i < at + |data| then data[i - at] else old(buf[i])
  {
    for i := 0 to |data|
      invariant forall j :: 0 <= j < buf.Length ==> buf[j] == if at <= j < at + i then data[j - at] else old(buf[j])
    {
      buf[at + i] := data[i];
    }
  }

  /** The 256-byte chunk copy of one page through a small buffer. */
  method CopyPage(phys: PhysMem, src: nat, dst: nat)
    requires src in phys.ram && dst in phys.ram && src != dst
    modifies phys
    ensures phys.ram == old(phys.ram)[dst := old(phys.ram)[src]]
  {
    var done := 0;
    while done < 4096
      invariant 0 <= done <= 4096
      invariant phys.ram.Keys == old(phys.ram).Keys
      invariant forall q :: q in phys.ram && q != dst ==> phys.ram[q] == old(phys.ram)[q]
      invariant forall b :: 0 <= b < done ==> phys.ram[dst][b] == old(phys.ram)[src][b]
    {
      var n := Min(256, 4096 - done);
      var buffer := phys.ram[src][done..done + n];
      phys.ram := phys.ram[dst := Splice(phys.ram[dst], done, buffer)];
      done := done + n;
    }
    assert phys.ram[dst] == old(phys.ram)[src];
  }

  /** The page map only gained entries, each on a frame that was Free. */
  ghost predicate Grown(states0: States, pages0: PageMap, pages: PageMap)
  {
    && (forall k :: k in pages0 ==> k in pages && pages[k] == pages0[k])
    && (forall k :: k in pages && k !in pages0 ==> pages[k].paddr in states0 && states0[pages[k].paddr] == Free)
  }
}
