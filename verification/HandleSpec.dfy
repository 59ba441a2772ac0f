/** Handle tables and the reference counts of the objects they name, as values
    (src/object/handle.rs). */
module HandleSpec {
  import opened Memory

  type Rights = bv32

  const DUPLICATE: Rights := 0x20
  const SAME_RIGHTS: Rights := 0x8000_0000

  /** A base of 0 is the null pointer. */
  datatype Entry = Entry(id: nat, base: nat, rights: Rights)

  type Slots = s: seq<Option<Entry>> | |s| == 256 witness seq(256, _ => None)

  datatype Table = Table(slots: Slots, count: int)

  predicate Contains(r: Rights, s: Rights)
  {
    r & s == s
  }

  /** The rights of a duplicate. */
  function Reduced(r: Rights, mask: Rights): (d: Rights)
    ensures Contains(r, d)
  {
    if Contains(mask, SAME_RIGHTS) then r else r & mask
  }

  /** Either all rights of the original, or exactly those the mask names too. */
  lemma ReducedExact(r: Rights, mask: Rights, s: Rights)
    ensures Contains(mask, SAME_RIGHTS) ==> (Contains(Reduced(r, mask), s) <==> Contains(r, s))
    ensures !Contains(mask, SAME_RIGHTS) ==> (Contains(Reduced(r, mask), s) <==> Contains(r, s) && Contains(mask, s))
  {
    if !Contains(mask, SAME_RIGHTS) {
      Common(r, mask, s);
    }
  }

  lemma Common(r: Rights, mask: Rights, s: Rights)
    ensures Contains(r & mask, s) <==> Contains(r, s) && Contains(mask, s)
  {
    AndAssociates(r, mask, s);
    if Contains(r & mask, s) {
      MeetBelow(r, mask);
      ContainsTrans(r, r & mask, s);
      ContainsTrans(mask, r & mask, s);
    }
  }

  lemma AndAssociates(r: Rights, m: Rights, s: Rights)
    ensures (r & m) & s == r & (m & s)
  {
  }

  lemma MeetBelow(r: Rights, m: Rights)
    ensures Contains(r, r & m) && Contains(m, r & m)
  {
  }

  lemma ContainsTrans(a: Rights, b: Rights, c: Rights)
    requires Contains(a, b) && Contains(b, c)
    ensures Contains(a, c)
  {
  }

  // Counting slots

  /** An occupied slot; with `want` given, one that names that object. */
  predicate Counts(slot: Option<Entry>, want: Option<nat>)
  {
    slot.Some? && (want.Some? ==> slot.value.base == want.value)
  }

  function Tally(slots: seq<Option<Entry>>, want: Option<nat>): (n: nat)
    ensures n <= |slots|
  {
    if slots == [] then 0 else (if Counts(slots[0], want) then 1 else 0) + Tally(slots[1..], want)
  }

  lemma {:induction false} TallyUpdate(slots: seq<Option<Entry>>, want: Option<nat>, i: nat, slot: Option<Entry>)
    requires i < |slots|
    ensures Tally(slots[i := slot], want) == Tally(slots, want) - One(Counts(slots[i], want)) + One(Counts(slot, want))
  {
    if i == 0 {
      assert slots[0 := slot][1..] == slots[1..];
    } else {
      assert slots[i := slot][1..] == slots[1..][i - 1 := slot];
      TallyUpdate(slots[1..], want, i - 1, slot);
    }
  }

  /** Full exactly when every slot is occupied. */
  lemma {:induction false} TallyFull(slots: seq<Option<Entry>>)
    ensures Tally(slots, None) == |slots| <==> forall i :: 0 <= i < |slots| ==> slots[i].Some?
  {
    if slots != [] {
      TallyFull(slots[1..]);
      assert forall i :: 1 <= i < |slots| ==> slots[i] == slots[1..][i - 1];
    }
  }

  function Sum(tables: seq<Table>, o: nat): nat
  {
    if tables == [] then 0 else Tally(tables[0].slots, Some(o)) + Sum(tables[1..], o)
  }

  lemma {:induction false} SumUpdate(tables: seq<Table>, o: nat, t: nat, table: Table)
    requires t < |tables|
    ensures Sum(tables[t := table], o) ==
      Sum(tables, o) - Tally(tables[t].slots, Some(o)) + Tally(table.slots, Some(o))
  {
    if t == 0 {
      assert tables[0 := table][1..] == tables[1..];
    } else {
      assert tables[t := table][1..] == tables[1..][t - 1 := table];
      SumUpdate(tables[1..], o, t - 1, table);
    }
  }

  // The table operations

  /** The first empty slot, or 256. */
  function FirstFree(slots: seq<Option<Entry>>): (i: nat)
    ensures i <= |slots| && (i < |slots| ==> slots[i].None?)
    ensures forall j :: 0 <= j < i ==> slots[j].Some?
  {
    if slots == [] || slots[0].None? then 0 else 1 + FirstFree(slots[1..])
  }

  predicate Full(t: Table)
  {
    FirstFree(t.slots) == 256
  }

  function Put(t: Table, e: Entry): Table
  {
    var i := FirstFree(t.slots);
    if i == 256 then t else Table(t.slots[i := Some(e)], t.count + 1)
  }

  function Drop(t: Table, i: nat): Table
    requires i < 256
  {
    if t.slots[i].None? then t else Table(t.slots[i := None], t.count - 1)
  }

  /** Slot `i` holds a handle that may be duplicated. */
  predicate Duplicable(t: Table, i: nat)
  {
    i < 256 && t.slots[i].Some? && Contains(t.slots[i].value.rights, DUPLICATE)
  }

  function Copy(e: Entry, mask: Rights, id: nat): Entry
  {
    Entry(id, e.base, Reduced(e.rights, mask))
  }

  /** What putting a handle in a table gives: the first empty slot holds exactly that handle, all
      others are as before; a full table stays as it is. */
  lemma PutExact(t: Table, e: Entry)
    ensures Full(t) <==> forall i :: 0 <= i < 256 ==> t.slots[i].Some?
    ensures Full(t) ==> Put(t, e) == t
    ensures !Full(t) ==> exists i ::
      && 0 <= i < 256 && t.slots[i].None? && (forall j :: 0 <= j < i ==> t.slots[j].Some?)
      && Put(t, e).slots[i] == Some(e) && (forall j :: 0 <= j < 256 && j != i ==> Put(t, e).slots[j] == t.slots[j])
      && Put(t, e).count == t.count + 1
  {
    if !Full(t) {
      assert t.slots[FirstFree(t.slots)].None?;
    }
  }

  /** Taking one out empties its slot and touches no other. */
  lemma DropExact(t: Table, i: nat)
    requires i < 256
    ensures Drop(t, i).slots[i].None? && forall j :: 0 <= j < 256 && j != i ==> Drop(t, i).slots[j] == t.slots[j]
    ensures Drop(t, i).count == t.count - One(t.slots[i].Some?)
  {
  }

  // The system: all tables, all reference counts

  /** Where a handle came from: what was added at the root of its chain of duplicates. */
  type Origins = s: seq<Entry> | |s| == 256 witness seq(256, _ => Entry(0, 0, 0))

  datatype System = System(tables: seq<Table>, refs: map<nat, int>, origins: seq<Origins>)

  datatype Op =
    | Create(o: nat)
    | RefInc(o: nat)
    | RefDec(o: nat)
    | Add(t: nat, e: Entry)
    | Remove(t: nat, i: nat)
    | Duplicate(t: nat, i: nat, mask: Rights, id: nat)

  function Refs(refs: map<nat, int>, o: nat): int
  {
    if o in refs then refs[o] else 0
  }

  function Bump(refs: map<nat, int>, o: nat, d: int): map<nat, int>
  {
    if o == 0 then refs else refs[o := Refs(refs, o) + d]
  }

  function Step(s: System, op: Op): System
    requires |s.origins| == |s.tables|
  {
    match op
    case Create(o) => s.(refs := s.refs[o := 1])
    case RefInc(o) => s.(refs := Bump(s.refs, o, 1))
    case RefDec(o) => s.(refs := Bump(s.refs, o, -1))
    case Add(t, e) => if t < |s.tables| then PutIn(s, t, e, e) else s
    case Remove(t, i) =>
      if t < |s.tables| && i < 256 && s.tables[t].slots[i].Some?
      then s.(tables := s.tables[t := Drop(s.tables[t], i)], refs := Bump(s.refs, s.tables[t].slots[i].value.base, -1))
      else s
    case Duplicate(t, i, mask, id) =>
      if t < |s.tables| && Duplicable(s.tables[t], i)
      then
        var e := s.tables[t].slots[i].value;
        PutIn(s.(refs := Bump(s.refs, e.base, 1)), t, Copy(e, mask, id), s.origins[t][i])
      else s
  }

  function PutIn(s: System, t: nat, e: Entry, origin: Entry): System
    requires t < |s.tables| == |s.origins|
  {
    var i := FirstFree(s.tables[t].slots);
    if i == 256 then s
    else s.(tables := s.tables[t := Put(s.tables[t], e)], origins := s.origins[t := s.origins[t][i := origin]])
  }

  /** The count of that object, and of no other, changes; there is no object 0. */
  lemma BumpExact(refs: map<nat, int>, o: nat, d: int, x: nat)
    ensures Refs(Bump(refs, o, d), x) == Refs(refs, x) + if x == o && o != 0 then d else 0
  {
  }

  /** `d` is a duplicate of `e`: the right to duplicate is bit 5 of the original's rights; the new
      handle has the fresh id, the same object, and the original's rights, all of them if bit 31
      of the mask is set, otherwise those the mask names. */
  predicate DuplicateOf(e: Entry, mask: Rights, id: nat, d: Entry)
  {
    && e.rights & 0x20 != 0
    && d == Entry(id, e.base, if mask & 0x8000_0000 != 0 then e.rights else e.rights & mask)
  }

  lemma CopyIsDuplicate(e: Entry, mask: Rights, id: nat)
    ensures Contains(e.rights, DUPLICATE) <==> DuplicateOf(e, mask, id, Copy(e, mask, id))
    ensures Contains(e.rights, DUPLICATE) <==> e.rights & 0x20 != 0
  {
  }

  /** A duplicate, exactly. Without the right to duplicate nothing happens; with it and an empty
      slot, the first one gets the fresh id, the original's object, and of its rights all that the
      mask leaves; it descends from what the original descends from. */
  lemma DuplicateExact(s: System, t: nat, i: nat, mask: Rights, id: nat)
    requires |s.origins| == |s.tables| && t < |s.tables| && i < 256 && s.tables[t].slots[i].Some?
    ensures var e, s' := s.tables[t].slots[i].value, Step(s, Duplicate(t, i, mask, id));
      && (e.rights & 0x20 == 0 ==> s' == s)
      && (e.rights & 0x20 != 0 && !Full(s.tables[t]) ==>
            var j := FirstFree(s.tables[t].slots);
            && s'.tables[t].slots[j].Some? && DuplicateOf(e, mask, id, s'.tables[t].slots[j].value)
            && s'.tables[t].slots == s.tables[t].slots[j := s'.tables[t].slots[j]]
            && s'.origins[t] == s.origins[t][j := s.origins[t][i]]
            && forall u :: 0 <= u < |s.tables| && u != t ==>
                 s'.tables[u] == s.tables[u] && s'.origins[u] == s.origins[u])
  {
    hide DuplicateOf, Contains, Reduced;
    CopyIsDuplicate(s.tables[t].slots[i].value, mask, id);
  }

  /** The counts, exactly: a new object has one reference, the two counting calls change one, adding
      a handle changes none, removing one gives up its object's and a duplicate takes one. */
  lemma CountsExact(s: System, op: Op, x: nat)
    requires |s.origins| == |s.tables| && x > 0
    ensures Refs(Step(s, op).refs, x) ==
      match op
      case Create(o) => if o == x then 1 else Refs(s.refs, x)
      case RefInc(o) => Refs(s.refs, x) + One(o == x)
      case RefDec(o) => Refs(s.refs, x) - One(o == x)
      case Add(_, _) => Refs(s.refs, x)
      case Remove(t, i) =>
        Refs(s.refs, x) - One(t < |s.tables| && i < 256 && s.tables[t].slots[i].Some? &&
          s.tables[t].slots[i].value.base == x)
      case Duplicate(t, i, _, _) =>
        Refs(s.refs, x) + One(t < |s.tables| && i < 256 && s.tables[t].slots[i].Some? &&
          s.tables[t].slots[i].value.base == x && s.tables[t].slots[i].value.rights & 0x20 != 0)
  {
    hide FirstFree;
  }

  /** An added handle is stored as it is and is its own origin. */
  lemma AddExact(s: System, t: nat, e: Entry)
    requires |s.origins| == |s.tables| && t < |s.tables| && !Full(s.tables[t])
    ensures var s', j := Step(s, Add(t, e)), FirstFree(s.tables[t].slots);
      && s'.tables[t].slots == s.tables[t].slots[j := Some(e)] && s'.origins[t] == s.origins[t][j := e]
      && s'.refs == s.refs
      && forall u :: 0 <= u < |s.tables| && u != t ==> s'.tables[u] == s.tables[u] && s'.origins[u] == s.origins[u]
  {
  }

  /** References to `o` that no table slot stands for. */
  function Outside(s: System, o: nat): int
  {
    Refs(s.refs, o) - Sum(s.tables, o)
  }

  /** How one operation changes the references held outside the tables: `Add` takes one over, and
      a duplicate into a full table leaves one behind that nobody holds. */
  function Delta(s: System, op: Op, o: nat): int
    requires |s.origins| == |s.tables|
  {
    match op
    case Create(c) => if c == o then 1 - Refs(s.refs, o) else 0
    case RefInc(c) => if c == o then 1 else 0
    case RefDec(c) => if c == o then -1 else 0
    case Add(t, e) => if t < |s.tables| && e.base == o && !Full(s.tables[t]) then -1 else 0
    case Remove(_, _) => 0
    case Duplicate(t, i, _, _) =>
      if t < |s.tables| && Duplicable(s.tables[t], i) && s.tables[t].slots[i].value.base == o && Full(s.tables[t])
        then 1 else 0
  }

  lemma PutTally(t: Table, e: Entry, want: Option<nat>)
    ensures Tally(Put(t, e).slots, want) == Tally(t.slots, want) + One(!Full(t) && Counts(Some(e), want))
  {
    var i := FirstFree(t.slots);
    if i < 256 {
      TallyUpdate(t.slots, want, i, Some(e));
    }
  }

  lemma DropTally(t: Table, i: nat, want: Option<nat>)
    requires i < 256
    ensures Tally(Drop(t, i).slots, want) == Tally(t.slots, want) - One(Counts(t.slots[i], want))
  {
    TallyUpdate(t.slots, want, i, None);
  }

  lemma PutInSum(s: System, t: nat, e: Entry, origin: Entry, o: nat)
    requires t < |s.tables| == |s.origins|
    ensures Sum(PutIn(s, t, e, origin).tables, o) == Sum(s.tables, o) + One(!Full(s.tables[t]) && e.base == o)
  {
    PutTally(s.tables[t], e, Some(o));
    SumUpdate(s.tables, o, t, Put(s.tables[t], e));
  }

  /** The reference accounting of one operation, for every object. */
  lemma StepAccounts(s: System, op: Op, o: nat)
    requires |s.origins| == |s.tables| && o > 0
    ensures Outside(Step(s, op), o) == Outside(s, o) + Delta(s, op, o)
  {
    hide FirstFree, Tally, Sum, Contains, Reduced;
    match op
    case Create(_) =>
    case RefInc(_) =>
    case RefDec(_) =>
    case Add(t, e) =>
      if t < |s.tables| {
        PutInSum(s, t, e, e, o);
      }
    case Remove(t, i) =>
      if t < |s.tables| && i < 256 && s.tables[t].slots[i].Some? {
        DropTally(s.tables[t], i, Some(o));
        SumUpdate(s.tables, o, t, Drop(s.tables[t], i));
      }
    case Duplicate(t, i, mask, id) =>
      if t < |s.tables| && Duplicable(s.tables[t], i) {
        var e := s.tables[t].slots[i].value;
        PutInSum(s.(refs := Bump(s.refs, e.base, 1)), t, Copy(e, mask, id), s.origins[t][i], o);
      }
  }

  // Invariants over runs

  /** What the callers owe: a fresh object for `Create`, and a reference of their own to give
      away or to drop. */
  predicate Allowed(s: System, op: Op)
  {
    match op
    case Create(o) => o > 0 && o !in s.refs && Sum(s.tables, o) == 0
    case RefInc(o) => true
    case RefDec(o) => o > 0 && Outside(s, o) > 0
    case Add(t, e) => e.base == 0 || Outside(s, e.base) > 0
    case Remove(_, _) => true
    case Duplicate(_, _, _, _) => true
  }

  /** Each slot names its origin's object, with no more than its origin's rights. */
  predicate Derived(slot: Option<Entry>, origin: Entry)
  {
    slot.Some? ==> slot.value.base == origin.base && Contains(origin.rights, slot.value.rights)
  }

  ghost predicate TableOk(t: Table, origins: Origins)
  {
    t.count == Tally(t.slots, None) && forall i :: 0 <= i < 256 ==> Derived(t.slots[i], origins[i])
  }

  ghost predicate TablesOk(s: System)
  {
    |s.origins| == |s.tables| && forall t :: 0 <= t < |s.tables| ==> TableOk(s.tables[t], s.origins[t])
  }

  /** No object has fewer references than slots that name it. */
  ghost predicate RefsOk(s: System)
  {
    forall o: nat :: o > 0 ==> Outside(s, o) >= 0
  }

  ghost predicate SystemOk(s: System)
  {
    TablesOk(s) && RefsOk(s)
  }

  lemma PutOk(t: Table, origins: Origins, e: Entry, origin: Entry)
    requires TableOk(t, origins) && Derived(Some(e), origin) && !Full(t)
    ensures TableOk(Put(t, e), origins[FirstFree(t.slots) := origin])
  {
    PutTally(t, e, None);
  }

  lemma DropOk(t: Table, origins: Origins, i: nat)
    requires TableOk(t, origins) && i < 256
    ensures TableOk(Drop(t, i), origins)
  {
    DropTally(t, i, None);
  }

  lemma CopyDerived(t: Table, origins: Origins, i: nat, mask: Rights, id: nat)
    requires TableOk(t, origins) && Duplicable(t, i)
    ensures Derived(Some(Copy(t.slots[i].value, mask, id)), origins[i])
  {
    var e := t.slots[i].value;
    assert Derived(t.slots[i], origins[i]);
    ContainsTrans(origins[i].rights, e.rights, Reduced(e.rights, mask));
  }

  lemma StepKeepsTables(s: System, op: Op)
    requires TablesOk(s)
    ensures TablesOk(Step(s, op))
  {
    hide TableOk, Tally, Derived, Put, Drop, Copy, Contains, FirstFree;
    match op
    case Create(_) =>
    case RefInc(_) =>
    case RefDec(_) =>
    case Add(t, e) =>
      if t < |s.tables| && !Full(s.tables[t]) {
        SelfDerived(e);
        PutOk(s.tables[t], s.origins[t], e, e);
      }
    case Remove(t, i) =>
      if t < |s.tables| && i < 256 {
        DropOk(s.tables[t], s.origins[t], i);
      }
    case Duplicate(t, i, mask, id) =>
      if t < |s.tables| && Duplicable(s.tables[t], i) && !Full(s.tables[t]) {
        CopyDerived(s.tables[t], s.origins[t], i, mask, id);
        PutOk(s.tables[t], s.origins[t], Copy(s.tables[t].slots[i].value, mask, id), s.origins[t][i]);
      }
  }

  lemma SelfDerived(e: Entry)
    ensures Derived(Some(e), e)
  {
  }

  lemma StepKeepsOk(s: System, op: Op)
    requires SystemOk(s) && Allowed(s, op)
    ensures SystemOk(Step(s, op))
  {
    StepKeepsTables(s, op);
    forall o: nat | o > 0
      ensures Outside(Step(s, op), o) >= 0
    {
      StepAccounts(s, op, o);
      assert Outside(s, o) >= 0;
    }
  }

  function Run(s: System, ops: seq<Op>): (r: System)
    requires |s.origins| == |s.tables|
    ensures |r.origins| == |r.tables|
  {
    if ops == [] then s else Step(Run(s, ops[..|ops| - 1]), ops[|ops| - 1])
  }

  ghost predicate AllAllowed(s: System, ops: seq<Op>)
    requires |s.origins| == |s.tables|
  {
    forall k :: 0 <= k < |ops| ==> Allowed(Run(s, ops[..k]), ops[k])
  }

  /** Over every run: counts are exact, no handle has rights its root did not have, and no
      object has fewer references than handles. */
  lemma {:induction false} RunKeepsOk(s: System, ops: seq<Op>)
    requires SystemOk(s) && AllAllowed(s, ops)
    ensures SystemOk(Run(s, ops))
  {
    if ops != [] {
      var n := |ops| - 1;
      forall k | 0 <= k < n
        ensures Allowed(Run(s, ops[..n][..k]), ops[..n][k])
      {
        assert ops[..n][..k] == ops[..k];
      }
      RunKeepsOk(s, ops[..n]);
      StepKeepsOk(Run(s, ops[..n]), ops[n]);
    }
  }

  /** References gained outside the tables over a run. */
  function Drift(s: System, ops: seq<Op>, o: nat): int
    requires |s.origins| == |s.tables|
  {
    if ops == [] then 0
    else var n := |ops| - 1; Drift(s, ops[..n], o) + Delta(Run(s, ops[..n]), ops[n], o)
  }

  /** The exact account of a whole run. */
  lemma {:induction false} RunAccounts(s: System, ops: seq<Op>, o: nat)
    requires |s.origins| == |s.tables| && o > 0
    ensures Outside(Run(s, ops), o) == Outside(s, o) + Drift(s, ops, o)
  {
    if ops != [] {
      var n := |ops| - 1;
      RunAccounts(s, ops[..n], o);
      StepAccounts(Run(s, ops[..n]), ops[n], o);
    }
  }

  /** A duplicate keeps references and slots in step unless the table is full; then the reference
      it took is leaked. */
  lemma DuplicateLeaksIff(s: System, t: nat, i: nat, mask: Rights, id: nat)
    requires TablesOk(s) && t < |s.tables| && Duplicable(s.tables[t], i) && s.tables[t].slots[i].value.base > 0
    ensures var o := s.tables[t].slots[i].value.base;
      Outside(Step(s, Duplicate(t, i, mask, id)), o) != Outside(s, o) <==> s.tables[t].count == 256
  {
    var table := s.tables[t];
    assert TableOk(table, s.origins[t]);
    TallyFull(table.slots);
    assert FirstFree(table.slots) < 256 ==> table.slots[FirstFree(table.slots)].None?;
    StepAccounts(s, Duplicate(t, i, mask, id), table.slots[i].value.base);
  }

  /** For instance: a table full of handles to object 7, all counted; duplicating one of them is
      refused and leaves a 257th reference for 256 handles. */
  lemma LeakExample(mask: Rights, id: nat)
    ensures var e := Entry(1, 7, DUPLICATE);
      var s := System([Table(seq(256, _ => Some(e)), 256)], map[7 := 256], [seq(256, _ => e)]);
      var s' := Step(s, Duplicate(0, 0, mask, id));
      SystemOk(s) && s'.tables == s.tables && Outside(s, 7) == 0 && Outside(s', 7) == 1
  {
    hide FirstFree, Tally, Contains;
    var e := Entry(1, 7, DUPLICATE);
    var table := Table(seq(256, _ => Some(e)), 256);
    var s := System([table], map[7 := 256], [seq(256, _ => e)]);
    assert Contains(e.rights, DUPLICATE) && Contains(e.rights, e.rights) by {
      SelfContained(DUPLICATE);
    }
    TallyFull(table.slots);
    TallyOf(table.slots, e);
    assert forall o: nat :: Sum(s.tables, o) == Tally(table.slots, Some(o)) by {
      forall o: nat
        ensures Sum(s.tables, o) == Tally(table.slots, Some(o))
      {
        assert s.tables[1..] == [] && Sum([], o) == 0;
      }
    }
    StepAccounts(s, Duplicate(0, 0, mask, id), 7);
  }

  lemma SelfContained(r: Rights)
    ensures Contains(r, r)
  {
  }

  /** Equal handles all count for their object and for no other. */
  lemma {:induction false} TallyOf(slots: seq<Option<Entry>>, e: Entry)
    requires forall i :: 0 <= i < |slots| ==> slots[i] == Some(e)
    ensures forall o: nat :: Tally(slots, Some(o)) == if o == e.base then |slots| else 0
  {
    if slots != [] {
      TallyOf(slots[1..], e);
    }
  }

  /** Adding a handle and removing it again restores the slots and gives up its reference. */
  lemma AddThenRemove(s: System, t: nat, e: Entry)
    requires |s.origins| == |s.tables| && t < |s.tables| && !Full(s.tables[t])
    ensures var s' := Step(Step(s, Add(t, e)), Remove(t, FirstFree(s.tables[t].slots)));
      s'.tables == s.tables && s'.refs == Bump(s.refs, e.base, -1)
  {
    var i := FirstFree(s.tables[t].slots);
    var s1 := Step(s, Add(t, e));
    assert s1.tables[t].slots[i] == Some(e);
    assert s1.tables[t].slots[i := None] == s.tables[t].slots;
    assert s1.tables[t := s.tables[t]] == s.tables;
  }
}
