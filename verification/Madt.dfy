/** The Multiple APIC Description Table parser (src/acpi/madt.rs; the table is defined in section
    5.2.12 of the ACPI Specification). */
module Madt {
  import opened Memory

  const HEADER_SIZE := 44
  const MAX_LOCAL_APICS := 256
  const MAX_IO_APICS := 8
  const MAX_OVERRIDES := 16

  datatype LocalApicEntry = LocalApicEntry(length: byte, processorId: byte, apicId: byte, flags: nat)

  datatype IoApicEntry = IoApicEntry(length: byte, ioApicId: byte, reserved: byte, address: nat, gsiBase: nat)

  datatype OverrideEntry = OverrideEntry(length: byte, bus: byte, sourceIrq: byte, gsi: nat, flags: nat)

  datatype Item =
    | LocalApic(local: LocalApicEntry)
    | IoApic(io: IoApicEntry)
    | Override(over: OverrideEntry)
    | Unknown(kind: byte, length: byte)

  datatype ParsedMadt = ParsedMadt(
    localApicAddress: nat, flags: nat,
    localApicCount: nat, localApics: seq<LocalApicEntry>,
    ioApicCount: nat, ioApics: seq<IoApicEntry>,
    overrideCount: nat, overrides: seq<OverrideEntry>)

  // Reading entries

  function TableLength(mem: seq<byte>): nat
    requires |mem| >= HEADER_SIZE
  {
    FromLE(mem[4..8])
  }

  /** How many bytes the parser reads of an entry of this type. */
  function ReadSize(kind: byte): nat
  {
    match kind case 0 => 8 case 1 => 12 case 2 => 10 case _ => 2
  }

  function ItemAt(mem: seq<byte>, at: nat): Item
    requires at + 2 <= |mem| && at + ReadSize(mem[at]) <= |mem|
  {
    match mem[at]
    case 0 => LocalApic(LocalApicEntry(mem[at + 1], mem[at + 2], mem[at + 3], FromLE(mem[at + 4..at + 8])))
    case 1 => IoApic(IoApicEntry(mem[at + 1], mem[at + 2], mem[at + 3], FromLE(mem[at + 4..at + 8]),
      FromLE(mem[at + 8..at + 12])))
    case 2 => Override(OverrideEntry(mem[at + 1], mem[at + 2], mem[at + 3], FromLE(mem[at + 4..at + 8]),
      FromLE(mem[at + 8..at + 10])))
    case _ => Unknown(mem[at], mem[at + 1])
  }

  /** Where the table's length lies, and how much of each entry is read. */
  lemma HeaderBytes(mem: seq<byte>)
    requires |mem| >= 44
    ensures TableLength(mem) == Number4(mem, 4)
    ensures ReadSize(0) == 8 && ReadSize(1) == 12 && ReadSize(2) == 10 && forall k: byte :: k > 2 ==> ReadSize(k) == 2
  {
    LEBytes(mem, 4);
  }

  /** Where the fields of an entry lie (sections 5.2.12.2, 5.2.12.3 and 5.2.12.5). */
  lemma ItemBytes(mem: seq<byte>, at: nat)
    requires at + 2 <= |mem| && at + ReadSize(mem[at]) <= |mem|
    ensures mem[at] == 0 ==>
      ItemAt(mem, at) == LocalApic(LocalApicEntry(mem[at + 1], mem[at + 2], mem[at + 3], Number4(mem, at + 4)))
    ensures mem[at] == 1 ==>
      ItemAt(mem, at) == IoApic(IoApicEntry(mem[at + 1], mem[at + 2], mem[at + 3], Number4(mem, at + 4),
        Number4(mem, at + 8)))
    ensures mem[at] == 2 ==>
      ItemAt(mem, at) == Override(OverrideEntry(mem[at + 1], mem[at + 2], mem[at + 3], Number4(mem, at + 4),
        Number2(mem, at + 8)))
    ensures mem[at] > 2 ==> ItemAt(mem, at) == Unknown(mem[at], mem[at + 1])
  {
    hide FromLE, Number2, Number4, Number8;
    LEBytes(mem, at + 4);
    LEBytes(mem, at + 8);
  }

  /** Every entry the parser visits from `at` on lies in mapped memory. */
  ghost predicate Readable(mem: seq<byte>, at: nat, length: nat)
    decreases length - at
  {
    at < length ==>
      && at + 2 <= |mem| && at + ReadSize(mem[at]) <= |mem|
      && (mem[at + 1] > 0 ==> Readable(mem, at + mem[at + 1], length))
  }

  /** The entries visited from `at` on; `None` when one of length 0 stops the advance. */
  ghost function Scan(mem: seq<byte>, at: nat, length: nat): Option<seq<Item>>
    requires Readable(mem, at, length)
    decreases length - at
  {
    if at >= length then Some([])
    else if mem[at + 1] == 0 then None
    else
      var rest := Scan(mem, at + mem[at + 1], length);
      if rest.None? then None else Some([ItemAt(mem, at)] + rest.value)
  }

  function Locals(items: seq<Item>): seq<LocalApicEntry>
  {
    if items == [] then []
    else (if items[0].LocalApic? then [items[0].local] else []) + Locals(items[1..])
  }

  function Ios(items: seq<Item>): seq<IoApicEntry>
  {
    if items == [] then []
    else (if items[0].IoApic? then [items[0].io] else []) + Ios(items[1..])
  }

  function Overrides(items: seq<Item>): seq<OverrideEntry>
  {
    if items == [] then []
    else (if items[0].Override? then [items[0].over] else []) + Overrides(items[1..])
  }

  function Cut<T>(s: seq<T>, n: nat): (r: seq<T>)
    ensures |r| == Min(|s|, n) && forall k :: 0 <= k < |r| ==> r[k] == s[k]
  {
    if |s| <= n then s else s[..n]
  }

  function LocalItems(s: seq<LocalApicEntry>): seq<Item>
  {
    seq(|s|, k requires 0 <= k < |s| => LocalApic(s[k]))
  }

  function IoItems(s: seq<IoApicEntry>): seq<Item>
  {
    seq(|s|, k requires 0 <= k < |s| => IoApic(s[k]))
  }

  function OverrideItems(s: seq<OverrideEntry>): seq<Item>
  {
    seq(|s|, k requires 0 <= k < |s| => Override(s[k]))
  }

  /** The lists are the entries of their type, at ascending positions of the table. */
  lemma {:induction false} TypesInOrder(items: seq<Item>) returns (lx: seq<nat>, ix: seq<nat>, ox: seq<nat>)
    ensures Picks(items, lx, LocalItems(Locals(items))) && Picks(items, ix, IoItems(Ios(items)))
    ensures Picks(items, ox, OverrideItems(Overrides(items)))
    ensures forall i :: 0 <= i < |items| ==> (i in lx <==> items[i].LocalApic?) && (i in ix <==> items[i].IoApic?)
    ensures forall i :: 0 <= i < |items| ==> (i in ox <==> items[i].Override?)
  {
    lx, ix, ox := [], [], [];
    if items != [] {
      var x, rest := items[0], items[1..];
      var l, i, o := TypesInOrder(rest);
      assert items == [x] + rest;
      lx := PicksPrepend(x, x.LocalApic?, rest, l, LocalItems(Locals(rest)));
      ix := PicksPrepend(x, x.IoApic?, rest, i, IoItems(Ios(rest)));
      ox := PicksPrepend(x, x.Override?, rest, o, OverrideItems(Overrides(rest)));
      assert LocalItems(Locals(items)) == (if x.LocalApic? then [x] else []) + LocalItems(Locals(rest));
      assert IoItems(Ios(items)) == (if x.IoApic? then [x] else []) + IoItems(Ios(rest));
      assert OverrideItems(Overrides(items)) == (if x.Override? then [x] else []) + OverrideItems(Overrides(rest));
    }
  }

  /** What the parser has collected, each list within the size of its array. */
  datatype Found = Found(locals: seq<LocalApicEntry>, ios: seq<IoApicEntry>, overs: seq<OverrideEntry>)

  predicate Within(f: Found)
  {
    |f.locals| <= MAX_LOCAL_APICS && |f.ios| <= MAX_IO_APICS && |f.overs| <= MAX_OVERRIDES
  }

  function Collect(f: Found, item: Item): Found
  {
    match item
    case LocalApic(e) => if |f.locals| < MAX_LOCAL_APICS then f.(locals := f.locals + [e]) else f
    case IoApic(e) => if |f.ios| < MAX_IO_APICS then f.(ios := f.ios + [e]) else f
    case Override(e) => if |f.overs| < MAX_OVERRIDES then f.(overs := f.overs + [e]) else f
    case Unknown(_, _) => f
  }

  function CollectAll(f: Found, items: seq<Item>): Found
    decreases |items|
  {
    if items == [] then f else CollectAll(Collect(f, items[0]), items[1..])
  }

  lemma CutStep<T>(got: seq<T>, new': seq<T>, rest: seq<T>, n: nat)
    requires |got| <= n && |new'| <= 1
    ensures Cut(got + (new' + rest), n) == Cut((if |got| < n then got + new' else got) + rest, n)
  {
    assert got + (new' + rest) == (got + new') + rest;
  }

  /** The collected lists are each type's entries in order, cut at the size of its array. */
  lemma {:induction false} CollectIsCut(f: Found, items: seq<Item>)
    requires Within(f)
    ensures var g := CollectAll(f, items);
      && g.locals == Cut(f.locals + Locals(items), MAX_LOCAL_APICS)
      && g.ios == Cut(f.ios + Ios(items), MAX_IO_APICS)
      && g.overs == Cut(f.overs + Overrides(items), MAX_OVERRIDES)
    decreases |items|
  {
    if items == [] {
      assert f.locals + [] == f.locals && f.ios + [] == f.ios && f.overs + [] == f.overs;
    } else {
      var x, rest := items[0], items[1..];
      CollectIsCut(Collect(f, x), rest);
      CutStep(f.locals, if x.LocalApic? then [x.local] else [], Locals(rest), MAX_LOCAL_APICS);
      CutStep(f.ios, if x.IoApic? then [x.io] else [], Ios(rest), MAX_IO_APICS);
      CutStep(f.overs, if x.Override? then [x.over] else [], Overrides(rest), MAX_OVERRIDES);
      assert f.locals + [] == f.locals && f.ios + [] == f.ios && f.overs + [] == f.overs;
    }
  }

  lemma ScanStep(mem: seq<byte>, at: nat, length: nat)
    requires Readable(mem, at, length) && at < length
    ensures at + 2 <= |mem| && at + ReadSize(mem[at]) <= |mem|
    ensures mem[at + 1] == 0 ==> Scan(mem, at, length).None?
    ensures mem[at + 1] > 0 ==>
      && Readable(mem, at + mem[at + 1], length)
      && var rest := Scan(mem, at + mem[at + 1], length);
         Scan(mem, at, length) == if rest.None? then None else Some([ItemAt(mem, at)] + rest.value)
  {
  }

  lemma CollectStep(f: Found, item: Item, rest: seq<Item>)
    ensures CollectAll(f, [item] + rest) == CollectAll(Collect(f, item), rest)
  {
    assert ([item] + rest)[1..] == rest;
  }

  /** The fixed arrays of the result under construction and their counters. */
  class Arrays {
    const locals: array<LocalApicEntry>
    const ios: array<IoApicEntry>
    const overs: array<OverrideEntry>
    var localCount: nat
    var ioCount: nat
    var overCount: nat

    ghost predicate Valid()
      reads this
    {
      && locals.Length == MAX_LOCAL_APICS && ios.Length == MAX_IO_APICS && overs.Length == MAX_OVERRIDES
      && localCount <= MAX_LOCAL_APICS && ioCount <= MAX_IO_APICS && overCount <= MAX_OVERRIDES
    }

    ghost function View(): (f: Found)
      requires Valid()
      reads this, locals, ios, overs
      ensures Within(f)
    {
      Found(locals[..localCount], ios[..ioCount], overs[..overCount])
    }

    constructor ()
      ensures Valid() && View() == Found([], [], []) && fresh(locals) && fresh(ios) && fresh(overs)
    {
      locals := new LocalApicEntry[MAX_LOCAL_APICS](_ => LocalApicEntry(0, 0, 0, 0));
      ios := new IoApicEntry[MAX_IO_APICS](_ => IoApicEntry(0, 0, 0, 0, 0));
      overs := new OverrideEntry[MAX_OVERRIDES](_ => OverrideEntry(0, 0, 0, 0, 0));
      localCount, ioCount, overCount := 0, 0, 0;
    }

    method Store(item: Item)
      requires Valid()
      modifies this, locals, ios, overs
      ensures Valid() && View() == Collect(old(View()), item)
    {
      match item
      case LocalApic(e) =>
        if localCount < MAX_LOCAL_APICS {
          locals[localCount] := e;
          localCount := localCount + 1;
        }
      case IoApic(e) =>
        if ioCount < MAX_IO_APICS {
          ios[ioCount] := e;
          ioCount := ioCount + 1;
        }
      case Override(e) =>
        if overCount < MAX_OVERRIDES {
          overs[overCount] := e;
          overCount := overCount + 1;
        }
      case Unknown(_, _) =>
    }
  }

  /** Walks the entries by their lengths. An entry of length 0 keeps the loop where it is, which
      is reported as `Halt`. */
  method ParseMadt(mem: seq<byte>) returns (r: Outcome<ParsedMadt>)
    requires |mem| >= HEADER_SIZE && Readable(mem, HEADER_SIZE, TableLength(mem))
    ensures !r.Err? && (r.Halt? <==> Scan(mem, HEADER_SIZE, TableLength(mem)).None?)
    ensures r.Ok? ==>
      && r.value.localApicAddress == FromLE(mem[36..40]) && r.value.flags == FromLE(mem[40..44])
      && Listed(r.value, Scan(mem, HEADER_SIZE, TableLength(mem)).value)
  {
    hide Scan, Readable, Collect, CollectAll, ItemAt, TableLength;
    var found := new Arrays();
    var length := TableLength(mem);
    var offset := HEADER_SIZE;
    ghost var all := Scan(mem, HEADER_SIZE, length);
    while offset < length
      invariant Readable(mem, offset, length) && found.Valid()
      invariant fresh(found) && fresh(found.locals) && fresh(found.ios) && fresh(found.overs)
      invariant all.Some? <==> Scan(mem, offset, length).Some?
      invariant all.Some? ==>
        CollectAll(found.View(), Scan(mem, offset, length).value) == CollectAll(Found([], [], []), all.value)
      decreases length - offset
    {
      ScanStep(mem, offset, length);
      var item := ItemAt(mem, offset);
      var entryLength := mem[offset + 1];
      if entryLength == 0 {
        return Halt;
      }
      if all.Some? {
        CollectStep(found.View(), item, Scan(mem, offset + entryLength, length).value);
      }
      found.Store(item);
      offset := offset + entryLength;
    }
    r := Ok(ParsedMadt(FromLE(mem[36..40]), FromLE(mem[40..44]), found.localCount, found.locals[..],
                       found.ioCount, found.ios[..], found.overCount, found.overs[..]));
    ScanEnd(mem, offset, length);
    CollectNone(found.View());
    ListedFrom(r.value, found.View(), all.value);
  }

  lemma ScanEnd(mem: seq<byte>, at: nat, length: nat)
    requires at >= length
    ensures Readable(mem, at, length) && Scan(mem, at, length) == Some([])
  {
  }

  lemma CollectNone(f: Found)
    ensures CollectAll(f, []) == f
  {
  }

  /** The counted part of each array holds its type's entries in table order, as many as fit. */
  predicate Listed(p: ParsedMadt, items: seq<Item>)
  {
    && |p.localApics| == MAX_LOCAL_APICS && |p.ioApics| == MAX_IO_APICS && |p.overrides| == MAX_OVERRIDES
    && p.localApicCount <= MAX_LOCAL_APICS && p.ioApicCount <= MAX_IO_APICS && p.overrideCount <= MAX_OVERRIDES
    && p.localApics[..p.localApicCount] == Cut(Locals(items), MAX_LOCAL_APICS)
    && p.ioApics[..p.ioApicCount] == Cut(Ios(items), MAX_IO_APICS)
    && p.overrides[..p.overrideCount] == Cut(Overrides(items), MAX_OVERRIDES)
  }

  lemma ListedFrom(p: ParsedMadt, f: Found, items: seq<Item>)
    requires |p.localApics| == MAX_LOCAL_APICS && |p.ioApics| == MAX_IO_APICS && |p.overrides| == MAX_OVERRIDES
    requires p.localApicCount <= MAX_LOCAL_APICS && p.ioApicCount <= MAX_IO_APICS && p.overrideCount <= MAX_OVERRIDES
    requires f == CollectAll(Found([], [], []), items)
    requires f == Found(p.localApics[..p.localApicCount], p.ioApics[..p.ioApicCount], p.overrides[..p.overrideCount])
    ensures Listed(p, items)
  {
    CollectIsCut(Found([], [], []), items);
    assert [] + Locals(items) == Locals(items) && [] + Ios(items) == Ios(items) &&
      [] + Overrides(items) == Overrides(items);
  }

  // Writing entries

  /** An entry with the bytes that follow its known fields up to its length. */
  datatype Entry = Entry(item: Item, padding: seq<byte>)

  function Kind(item: Item): byte
  {
    match item
    case LocalApic(_) => 0
    case IoApic(_) => 1
    case Override(_) => 2
    case Unknown(kind, _) => kind
  }

  function Length(item: Item): byte
  {
    match item
    case LocalApic(e) => e.length
    case IoApic(e) => e.length
    case Override(e) => e.length
    case Unknown(_, length) => length
  }

  predicate WellFormed(e: Entry)
  {
    && Length(e.item) == ReadSize(Kind(e.item)) + |e.padding|
    && match e.item
       case LocalApic(l) => l.flags < 0x1_0000_0000
       case IoApic(i) => i.address < 0x1_0000_0000 && i.gsiBase < 0x1_0000_0000
       case Override(o) => o.gsi < 0x1_0000_0000 && o.flags < 0x1_0000
       case Unknown(kind, _) => kind > 2
  }

  function Fields(item: Item): seq<byte>
  {
    match item
    case LocalApic(e) => [e.processorId, e.apicId] + ToLE(e.flags, 4)
    case IoApic(e) => [e.ioApicId, e.reserved] + ToLE(e.address, 4) + ToLE(e.gsiBase, 4)
    case Override(e) => [e.bus, e.sourceIrq] + ToLE(e.gsi, 4) + ToLE(e.flags, 2)
    case Unknown(_, _) => []
  }

  function Encode(e: Entry): (b: seq<byte>)
    requires WellFormed(e)
    ensures |b| == Length(e.item)
  {
    [Kind(e.item), Length(e.item)] + Fields(e.item) + e.padding
  }

  function EncodeAll(es: seq<Entry>): seq<byte>
    requires forall i :: 0 <= i < |es| ==> WellFormed(es[i])
  {
    if es == [] then [] else Encode(es[0]) + EncodeAll(es[1..])
  }

  function Items(es: seq<Entry>): seq<Item>
  {
    if es == [] then [] else [es[0].item] + Items(es[1..])
  }

  lemma SliceOf(mem: seq<byte>, at: nat, b: seq<byte>, i: nat, j: nat)
    requires at + |b| <= |mem| && mem[at..at + |b|] == b && i <= j <= |b|
    ensures mem[at + i..at + j] == b[i..j]
    ensures forall k :: 0 <= k < |b| ==> mem[at + k] == b[k]
  {
    forall k | 0 <= k < |b|
      ensures mem[at + k] == b[k]
    {
      assert mem[at..at + |b|][k] == mem[at + k];
    }
  }

  /** Two little-endian fields after four bytes. */
  lemma FieldsAt(b: seq<byte>, x: seq<byte>, y: seq<byte>, rest: seq<byte>)
    requires |b| >= 4 + |x| + |y| && b[4..] == x + y + rest
    ensures b[4..4 + |x|] == x && b[4 + |x|..4 + |x| + |y|] == y
  {
    assert b[4..4 + |x|] == b[4..][..|x|];
    assert b[4 + |x|..4 + |x| + |y|] == b[4..][|x|..|x| + |y|];
  }

  lemma TailOf(e: Entry)
    requires WellFormed(e) && !e.item.Unknown?
    ensures |Fields(e.item)| >= 2 && Encode(e)[..4] == [Kind(e.item), Length(e.item)] + Fields(e.item)[..2]
    ensures Encode(e)[4..] == Fields(e.item)[2..] + e.padding
  {
  }

  /** One entry reads back as it was written, wherever it lies. */
  lemma ItemRoundTrip(mem: seq<byte>, at: nat, e: Entry)
    requires WellFormed(e) && at + Length(e.item) <= |mem| && mem[at..at + Length(e.item)] == Encode(e)
    ensures ReadSize(mem[at]) <= Length(e.item) && mem[at + 1] == Length(e.item) && ItemAt(mem, at) == e.item
  {
    var b := Encode(e);
    SliceOf(mem, at, b, 0, 0);
    match e.item
    case LocalApic(l) => LocalRoundTrip(mem, at, e);
    case IoApic(i) => IoRoundTrip(mem, at, e);
    case Override(o) => OverrideRoundTrip(mem, at, e);
    case Unknown(_, _) =>
      assert b[0] == Kind(e.item) && b[1] == Length(e.item);
  }

  lemma LocalRoundTrip(mem: seq<byte>, at: nat, e: Entry)
    requires WellFormed(e) && at + Length(e.item) <= |mem| && mem[at..at + Length(e.item)] == Encode(e)
    requires e.item.LocalApic?
    ensures mem[at] == 0 && mem[at + 1] == Length(e.item) && ItemAt(mem, at) == e.item
  {
    hide FromLE, ToLE;
    var b, l := Encode(e), e.item.local;
    TailOf(e);
    FieldsAt(b, ToLE(l.flags, 4), [], e.padding);
    SliceOf(mem, at, b, 4, 8);
    HeadOf(b);
    Pow256Small();
    LERoundTrip(l.flags, 4);
  }

  lemma IoRoundTrip(mem: seq<byte>, at: nat, e: Entry)
    requires WellFormed(e) && at + Length(e.item) <= |mem| && mem[at..at + Length(e.item)] == Encode(e)
    requires e.item.IoApic?
    ensures mem[at] == 1 && mem[at + 1] == Length(e.item) && ItemAt(mem, at) == e.item
  {
    hide FromLE, ToLE;
    var b, i := Encode(e), e.item.io;
    TailOf(e);
    FieldsAt(b, ToLE(i.address, 4), ToLE(i.gsiBase, 4), e.padding);
    SliceOf(mem, at, b, 4, 8);
    SliceOf(mem, at, b, 8, 12);
    HeadOf(b);
    Pow256Small();
    LERoundTrip(i.address, 4);
    LERoundTrip(i.gsiBase, 4);
  }

  lemma OverrideRoundTrip(mem: seq<byte>, at: nat, e: Entry)
    requires WellFormed(e) && at + Length(e.item) <= |mem| && mem[at..at + Length(e.item)] == Encode(e)
    requires e.item.Override?
    ensures mem[at] == 2 && mem[at + 1] == Length(e.item) && ItemAt(mem, at) == e.item
  {
    hide FromLE, ToLE;
    var b, o := Encode(e), e.item.over;
    TailOf(e);
    FieldsAt(b, ToLE(o.gsi, 4), ToLE(o.flags, 2), e.padding);
    SliceOf(mem, at, b, 4, 8);
    SliceOf(mem, at, b, 8, 10);
    HeadOf(b);
    Pow256Small();
    LERoundTrip(o.gsi, 4);
    LERoundTrip(o.flags, 2);
  }

  lemma HeadOf(b: seq<byte>)
    requires |b| >= 4
    ensures b[0] == b[..4][0] && b[1] == b[..4][1] && b[2] == b[..4][2] && b[3] == b[..4][3]
  {
  }

  lemma Pow256Small()
    ensures Pow256(2) == 0x1_0000 && Pow256(4) == 0x1_0000_0000
  {
    assert Pow256(1) == 256;
    assert Pow256(2) == 0x1_0000;
    assert Pow256(3) == 0x100_0000;
  }

  /** Scanning inverts serialisation: entries laid out one after another up to the table's length
      are visited exactly, in order. */
  lemma {:induction false} ScanInverts(mem: seq<byte>, at: nat, es: seq<Entry>)
    requires forall i :: 0 <= i < |es| ==> WellFormed(es[i])
    requires at + |EncodeAll(es)| <= |mem| && mem[at..at + |EncodeAll(es)|] == EncodeAll(es)
    ensures var length := at + |EncodeAll(es)|;
      Readable(mem, at, length) && Scan(mem, at, length) == Some(Items(es))
    decreases |es|
  {
    hide ItemAt, Encode, Readable, Scan, Length, ReadSize, WellFormed;
    if es == [] {
      ScanEnd(mem, at, at);
    } else {
      var b, rest := Encode(es[0]), EncodeAll(es[1..]);
      assert EncodeAll(es) == b + rest;
      SliceOf(mem, at, b + rest, 0, |b|);
      SliceOf(mem, at, b + rest, |b|, |b| + |rest|);
      assert (b + rest)[0..|b|] == b && (b + rest)[|b|..|b| + |rest|] == rest;
      ScanInverts(mem, at + |b|, es[1..]);
      ScanEntry(mem, at, es[0], at + |b| + |rest|);
    }
  }

  lemma ScanEntry(mem: seq<byte>, at: nat, e: Entry, length: nat)
    requires WellFormed(e) && at + Length(e.item) <= |mem| && mem[at..at + Length(e.item)] == Encode(e)
    requires at + Length(e.item) <= length && Readable(mem, at + Length(e.item), length)
    requires Scan(mem, at + Length(e.item), length).Some?
    ensures Readable(mem, at, length)
    ensures Scan(mem, at, length) == Some([e.item] + Scan(mem, at + Length(e.item), length).value)
  {
    ItemRoundTrip(mem, at, e);
  }

  /** The whole table: what `ParseMadt` returns for a serialised list of entries. */
  lemma ParseInverts(mem: seq<byte>, es: seq<Entry>)
    requires |mem| >= HEADER_SIZE && forall i :: 0 <= i < |es| ==> WellFormed(es[i])
    requires TableLength(mem) == HEADER_SIZE + |EncodeAll(es)| <= |mem|
    requires mem[HEADER_SIZE..TableLength(mem)] == EncodeAll(es)
    ensures Readable(mem, HEADER_SIZE, TableLength(mem))
    ensures Scan(mem, HEADER_SIZE, TableLength(mem)) == Some(Items(es))
  {
    ScanInverts(mem, HEADER_SIZE, es);
  }

  /** A table of 46 bytes whose one entry has length 0. */
  function StuckTable(): (mem: seq<byte>)
    ensures |mem| == 46
  {
    [0x41, 0x50, 0x49, 0x43] + [46, 0, 0, 0] + seq(36, _ => 0) + [3, 0]
  }

  /** For instance: the parser never gets past such an entry. */
  lemma StuckExample()
    ensures TableLength(StuckTable()) == 46
    ensures Readable(StuckTable(), HEADER_SIZE, 46) && Scan(StuckTable(), HEADER_SIZE, 46) == None
  {
    var mem := StuckTable();
    assert mem[4..8] == [46, 0, 0, 0];
    assert [46, 0, 0, 0][1..] == [0, 0, 0] && FromLE([0, 0, 0]) == 0 by {
      assert [0, 0, 0][1..] == [0, 0] && [0, 0][1..] == [0] && [0][1..] == [];
    }
    assert mem[44] == 3 && mem[45] == 0;
  }
}
